/** The `Student` record exchanged by the API and the data layer. */
module Models {
  import opened Wrappers
  import opened Clock

  /** C# `int`. */
  type Int32 = x: int | -0x8000_0000 <= x < 0x8000_0000

  /** Reference-typed members may arrive as JSON `null`, so names and email are optional even
      where the C# type is declared non-nullable. `createdAt` defaults to `DateTime.MinValue`
      when the request leaves it out. */
  datatype Student = Student(
    id: Int32,
    firstName: Option<string>,
    lastName: Option<string>,
    email: Option<string>,
    dateOfBirth: Option<DateTime>,
    createdAt: DateTime)
}
