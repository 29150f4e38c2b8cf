# Student records API: validation and route handlers

This project models the logic of the student-management API in `backend/Program.cs`.
The API stores flat `Student` records: id, first and last name, optional email, optional
date of birth, and creation time. It exposes five routes under `/api/students`. The model
covers two things:

* `ValidateStudent`. It runs four checks on a student: first name not blank, last name not
  blank, optional email well formed, and optional date of birth neither in the future nor
  implausibly old. It collects the message of every failed check, in a fixed order, and
  returns them under the single dictionary key `"validationErrors"`. The model is a method
  that builds the list step by step, as the C# does. It is proved equal to a specification
  function. That function is in turn proved equal to a reference definition: the broken
  rules filtered out of the rule order.
* The five route handlers. They map the validation result and the data layer's answers to
  HTTP results: 200, 201 with a `Location`, 204, 400 with the errors, and 404. The handlers
  reach the data layer only through a `StudentService` object. Each of its operations
  appends itself to the object's call log. A handler's contract states how it changes that
  log, so a request failing validation provably never reaches the data layer.

Modules, one per concern:

| file | module | contents |
|---|---|---|
| `wrappers.dfy` | `Wrappers` | `Option`, used for nullable members |
| `clock.dfy` | `Clock` | .NET `DateTime` as a year plus ticks into that year; `Ticks`, the `>` comparison, and how it agrees with years |
| `text.dfy` | `Text` | `char.IsWhiteSpace` and `string.IsNullOrWhiteSpace` |
| `decimal.dfy` | `Decimal` | decimal text of `int` and its parser |
| `student.dfy` | `Models` | the `Student` record and `Int32` |
| `validation.dfy` | `Validation` | the rules, their messages, `ValidateStudent` and its properties |
| `endpoints.dfy` | `Endpoints` | the data-layer interface as an object that logs its calls, the responses, the route template, the five handlers |

Inputs outside the program become parameters:

* `now` is the value of `DateTime.UtcNow`.
* `emailParses(e)` says whether `new System.Net.Mail.MailAddress(e)` succeeds.
* A `Service` value holds the answers of `IStudentService`; a `StudentService` object gives them and logs each call.

Two facts about the code are worth stating on their own:

* A failed validation answers 400 with the body `{ errors: { validationErrors: [...] } }`,
  the whole dictionary (backend/Program.cs:57, 109).
* The plausibility check compares calendar years only (`now.Year - dob.Year > 150`, lines
  103-104), so a date of birth almost 151 years back passes.

## Model

| member | source | states |
|---|---|---|
| `Clock.YearEndsBeforeLaterYear` | backend/Program.cs:101-103 | every tick of a year comes before the first tick of any later year |
| `Clock.LaterAgreesWithYear` | backend/Program.cs:101-105 | for the tick comparison `>` used at line 101: a date in a later year is later, and a later date is never in an earlier year |
| `Clock.TicksInjective` | backend/Program.cs:101 | two dates with the same tick count are the same date, so `>` on ticks is a strict total order on dates |
| `Text.AllWhiteSpace` | backend/Program.cs:81-86 | true exactly when every character is white space (so also for ""); with it, `IsNullOrWhiteSpace` holds exactly for null, empty and white-space-only strings |
| `Decimal.Digits` | backend/Program.cs:60 | the decimal text of a natural number is a non-empty run of digits with no leading zero (it starts with `0` only for 0 itself) |
| `Decimal.DigitsRoundTrip` | backend/Program.cs:60 | reading back the digits of `n` gives `n` |
| `Decimal.FormatParseRoundTrip` | backend/Program.cs:60 | parsing the text of any integer, negative ones included, gives the integer back |
| `Validation.ValidateStudent` | backend/Program.cs:76-112 | the returned dictionary is the one built from `ValidationMessages` of the student. The result does not depend on `forUpdate`. |
| `Validation.MessagesOfFailures` | backend/Program.cs:78-111 | the listed messages are exactly the messages of the broken rules, filtered out of the check order |
| `Validation.FailuresAmongFirstFilter` | backend/Program.cs:81-106 | among the first `k` rules, a rule is reported exactly when it is broken; reported rules appear in check order, none twice |
| `Validation.MessageInjective` | backend/Program.cs:82-105 | the five messages are pairwise different, so each message identifies its rule |
| `Validation.MessageReportedIff` | backend/Program.cs:81-106 | a rule's message is listed exactly when the student breaks that rule |
| `Validation.MessagesInCheckOrder` | backend/Program.cs:78-111 | the broken rules, whose messages are the ones listed, come in check order (first name, last name, email, future date, age), each at most once |
| `Validation.NamesReportedFirst` | backend/Program.cs:81-84 | a blank first name is the first message; when both names are blank, the last-name message comes second, so checking does not stop at the first failure; a blank last name alone is the first message |
| `Validation.EmailRule` | backend/Program.cs:86-96 | a null, empty or white-space email never gives an email error; any other email gives one exactly when the address parser refuses it |
| `Validation.DateOfBirthRules` | backend/Program.cs:98-106 | a missing date of birth gives no date error; a present one is "in the future" exactly when its ticks exceed `now`'s, so `dob == now` is accepted; it "looks invalid" exactly when `now.Year - dob.Year > 150` |
| `Validation.FutureAndImplausibleExclusive` | backend/Program.cs:101-105 | the future-date message and the too-old message never appear together |
| `Validation.AcceptedIffNoRuleBroken` | backend/Program.cs:108-111 | no message is listed exactly when no rule is broken |
| `Validation.ErrorDictionaryShape` | backend/Program.cs:108-111 | the dictionary is empty exactly when there is no message; otherwise its only key is "validationErrors", which holds all the messages |
| `Validation.ServerFieldsIgnored` | backend/Program.cs:63-67 | validation reads neither `Id` nor `CreatedAt`, so overwriting the id with the route id cannot change the outcome |
| `Endpoints.LocationRoutesBack` | backend/Program.cs:47-60 | the `Location` of a created student, matched against the route template `/api/students/{id:int}`, binds that student's id |
| `Endpoints.StudentService.GetAll` | backend/Services/IStudentService.cs:10 | answers the given list and appends `GetAllCall` to the call log, nothing else |
| `Endpoints.StudentService.GetById` | backend/Services/IStudentService.cs:11 | answers the given lookup result (a student or null) and appends `GetByIdCall(id)` to the log |
| `Endpoints.StudentService.Create` | backend/Services/IStudentService.cs:9 | answers the given new id and appends `CreateCall(student)` to the log |
| `Endpoints.StudentService.Update` | backend/Services/IStudentService.cs:12 | answers the given success flag and appends `UpdateCall(student)` to the log |
| `Endpoints.StudentService.Delete` | backend/Services/IStudentService.cs:13 | answers the given success flag and appends `DeleteCall(id)` to the log |
| `Endpoints.GetStudents` | backend/Program.cs:41-45 | asks the service for the list once (the call log grows by exactly that call) and answers 200 with it |
| `Endpoints.GetStudentById` | backend/Program.cs:47-51 | asks the service once (the log grows by exactly that call); no student gives 404, a found student gives 200 with it |
| `Endpoints.CreateStudent` | backend/Program.cs:53-61 | validation errors give 400 with the error dictionary and leave the call log unchanged; otherwise the log grows by exactly one create call, then 201 with the new id and `/api/students/{id}` |
| `Endpoints.UpdateStudent` | backend/Program.cs:63-73 | the route id replaces the body id before validation and before the update call; validation errors give 400 and leave the call log unchanged; otherwise the log grows by exactly one update call, and `true` gives 204, `false` 404 |
| `Endpoints.DeleteStudent` | backend/Program.cs:114-118 | one delete call (the log grows by exactly that call); `true` gives 204, `false` 404 |

## Left out

- The data layer (`backend/Repositories/StudentRepository.cs`, `backend/Services/StudentService.cs`): it runs stored procedures whose bodies are not in the repository. Its answers are inputs to the handlers. So "create then get returns the same record" and "deleting twice answers 404 the second time" cannot be stated.
- Exception middleware (`backend/Program.cs:22-35`), CORS and Swagger setup (lines 11-17, 37-39) and service registration (lines 8-9): framework plumbing with no logic of the program's own.
- Validation.ValidateStudent: the C# reads `DateTime.UtcNow` twice (lines 101 and 103); the model uses one instant `now` for both reads. The two reads could straddle a change of year.
- Validation.ValidateStudent: `System.Net.Mail.MailAddress` is foreign code, so its verdict is the parameter `emailParses`.
- `DateTime.Kind` and time-zone conversion: .NET compares dates by ticks alone, and the model does the same. How JSON dates with offsets are turned into `DateTime` is not modelled.
- Endpoints.RouteId: the framework's `int` route constraint also accepts surrounding white space and a leading '+'. The model accepts only an optional '-' followed by digits, within `int` range. Requests that match no route, and bodies that fail to bind, are answered by the framework and are not modelled.
- Decimal.FormatInt: it assumes '-' as the negative sign, as in the invariant culture.
- Endpoints.UpdateStudent: the in-place assignment `student.Id = id` is modelled as a record update of the request body. The body object is not shared, so nothing observable is lost.
- A data-layer call that throws (a `SqlException` from the repository, say) escapes the handler and is answered 500 by the exception middleware. In the model every `StudentService` operation answers, so that path is not modelled.
- Text.IsNullOrWhiteSpace: a Dafny `char` is a Unicode scalar value, not a UTF-16 code unit, so strings holding a lone surrogate cannot be represented. On every other string the answer is the same, because every white-space character lies in the Basic Multilingual Plane.
- JSON serialization, `async`/`await` and the HTTP pipeline itself: responses are values, not bytes.
- The frontend (`frontend/src/...`) and the database administration tool under `backend/.tools/` are not part of this model.
