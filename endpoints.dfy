/** The five route handlers of the API. The data layer (`IStudentService`) is not modelled:
    its answers are given as a `Service` value, and the `StudentService` object the handlers
    call records every call made on it, so that "the service is not called" can be stated. */
module Endpoints {
  import opened Wrappers
  import opened Clock
  import opened Models
  import opened Validation
  import opened Decimal

  /** What the service answers to each of its operations. */
  datatype Service = Service(
    getAll: () -> seq<Student>,
    getById: Int32 -> Option<Student>,
    create: Student -> Int32,
    update: Student -> bool,
    delete: Int32 -> bool)

  /** One call made on the data layer. */
  datatype ServiceCall =
    | GetAllCall
    | GetByIdCall(id: Int32)
    | CreateCall(student: Student)
    | UpdateCall(student: Student)
    | DeleteCall(id: Int32)

  /** The `IStudentService` the handlers are given. Each operation answers as `answers`
      says and appends itself to the log `calls`. */
  class StudentService {
    const answers: Service
    ghost var calls: seq<ServiceCall>

    constructor(answers: Service)
      ensures this.answers == answers && calls == []
    {
      this.answers := answers;
      calls := [];
    }

    method GetAll() returns (r: seq<Student>)
      modifies this
      ensures calls == old(calls) + [GetAllCall] && r == answers.getAll()
    {
      calls := calls + [GetAllCall];
      r := answers.getAll();
    }

    method GetById(id: Int32) returns (r: Option<Student>)
      modifies this
      ensures calls == old(calls) + [GetByIdCall(id)] && r == answers.getById(id)
    {
      calls := calls + [GetByIdCall(id)];
      r := answers.getById(id);
    }

    method Create(student: Student) returns (r: Int32)
      modifies this
      ensures calls == old(calls) + [CreateCall(student)] && r == answers.create(student)
    {
      calls := calls + [CreateCall(student)];
      r := answers.create(student);
    }

    method Update(student: Student) returns (r: bool)
      modifies this
      ensures calls == old(calls) + [UpdateCall(student)] && r == answers.update(student)
    {
      calls := calls + [UpdateCall(student)];
      r := answers.update(student);
    }

    method Delete(id: Int32) returns (r: bool)
      modifies this
      ensures calls == old(calls) + [DeleteCall(id)] && r == answers.delete(id)
    {
      calls := calls + [DeleteCall(id)];
      r := answers.delete(id);
    }
  }

  /** The results the handlers build (`Results.Ok`, `Results.Created`, ...). */
  datatype Response =
    | OkList(students: seq<Student>)
    | OkStudent(student: Student)
    | Created(location: string, id: Int32)
    | BadRequest(errors: map<string, seq<string>>)
    | NoContent
    | NotFound

  function StatusCode(r: Response): int {
    match r
    case OkList(_) => 200
    case OkStudent(_) => 200
    case Created(_, _) => 201
    case BadRequest(_) => 400
    case NoContent => 204
    case NotFound => 404
  }

  const StudentsPath: string := "/api/students"

  /** The `Location` of a created student: `$"/api/students/{id}"`. */
  function StudentLocation(id: Int32): string {
    StudentsPath + "/" + FormatInt(id)
  }

  /** The id the route template "/api/students/{id:int}" binds for `path`, if it matches:
      the segment after the prefix must be integer text whose value fits in an `int`. */
  function RouteId(path: string): Option<Int32> {
    var prefix := StudentsPath + "/";
    if |path| >= |prefix| && path[..|prefix|] == prefix then
      match ParseInt(path[|prefix|..])
      case Some(n) => if -0x8000_0000 <= n < 0x8000_0000 then Some(n as Int32) else None
      case None => None
    else None
  }

  /** The `Location` returned for a created student names the by-id routes of that student. */
  lemma LocationRoutesBack(id: Int32)
    ensures RouteId(StudentLocation(id)) == Some(id)
  {
    var prefix := StudentsPath + "/";
    var loc := StudentLocation(id);
    assert loc[..|prefix|] == prefix;
    assert loc[|prefix|..] == FormatInt(id);
    FormatParseRoundTrip(id);
  }

  /** GET /api/students: the list from the service, with 200. */
  method GetStudents(svc: StudentService) returns (response: Response)
    modifies svc
    ensures svc.calls == old(svc.calls) + [GetAllCall]
    ensures response == OkList(svc.answers.getAll()) && StatusCode(response) == 200
  {
    var list := svc.GetAll();
    response := OkList(list);
  }

  /** GET /api/students/{id}: 404 when the service finds nothing, else 200 with the student. */
  method GetStudentById(id: Int32, svc: StudentService) returns (response: Response)
    modifies svc
    ensures svc.calls == old(svc.calls) + [GetByIdCall(id)]
    ensures svc.answers.getById(id).None? ==> response == NotFound && StatusCode(response) == 404
    ensures svc.answers.getById(id).Some? ==>
              response == OkStudent(svc.answers.getById(id).value) && StatusCode(response) == 200
  {
    var student := svc.GetById(id);
    response := if student.None? then NotFound else OkStudent(student.value);
  }

  /** POST /api/students: 400 with the errors, without calling the service, when validation
      fails; otherwise the student is created and 201 names its new id and location. */
  method CreateStudent(student: Student, svc: StudentService, now: DateTime, emailParses: string -> bool)
    returns (response: Response)
    modifies svc
    ensures var messages := ValidationMessages(student, now, emailParses);
            messages != [] ==>
              response == BadRequest(ErrorDictionary(messages)) && StatusCode(response) == 400
              && svc.calls == old(svc.calls)
    ensures var messages := ValidationMessages(student, now, emailParses);
            var id := svc.answers.create(student);
            messages == [] ==>
              svc.calls == old(svc.calls) + [CreateCall(student)]
              && response == Created(StudentLocation(id), id) && StatusCode(response) == 201
  {
    var errors := ValidateStudent(student, false, now, emailParses);
    if |errors| > 0 {
      return BadRequest(errors);
    }
    var id := svc.Create(student);
    response := Created(StudentsPath + "/" + FormatInt(id), id);
  }

  /** PUT /api/students/{id}: the route id replaces the body's id before validation; 400
      without a service call when validation fails, otherwise 204 when the service updated a
      row and 404 when it did not. */
  method UpdateStudent(id: Int32, body: Student, svc: StudentService, now: DateTime, emailParses: string -> bool)
    returns (response: Response)
    modifies svc
    ensures var messages := ValidationMessages(body.(id := id), now, emailParses);
            messages != [] ==>
              response == BadRequest(ErrorDictionary(messages)) && StatusCode(response) == 400
              && svc.calls == old(svc.calls)
    ensures var messages := ValidationMessages(body.(id := id), now, emailParses);
            var updated := svc.answers.update(body.(id := id));
            messages == [] ==>
              svc.calls == old(svc.calls) + [UpdateCall(body.(id := id))]
              && (updated ==> response == NoContent && StatusCode(response) == 204)
              && (!updated ==> response == NotFound && StatusCode(response) == 404)
  {
    var student := body.(id := id);
    var errors := ValidateStudent(student, true, now, emailParses);
    if |errors| > 0 {
      return BadRequest(errors);
    }
    var ok := svc.Update(student);
    response := if ok then NoContent else NotFound;
  }

  /** DELETE /api/students/{id}: 204 when the service deleted a row, 404 when it did not. */
  method DeleteStudent(id: Int32, svc: StudentService) returns (response: Response)
    modifies svc
    ensures svc.calls == old(svc.calls) + [DeleteCall(id)]
    ensures svc.answers.delete(id) ==> response == NoContent && StatusCode(response) == 204
    ensures !svc.answers.delete(id) ==> response == NotFound && StatusCode(response) == 404
  {
    var ok := svc.Delete(id);
    response := if ok then NoContent else NotFound;
  }
}
