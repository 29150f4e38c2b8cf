/** `ValidateStudent`: every rule a student record breaks is reported, in a fixed order, under
    the single key "validationErrors". The two foreign inputs of the validator are parameters:
    `now` is the value of `DateTime.UtcNow`, and `emailParses(e)` says whether
    `new System.Net.Mail.MailAddress(e)` returns without throwing. */
module Validation {
  import opened Wrappers
  import opened Clock
  import opened Text
  import opened Models

  const ValidationErrorsKey: string := "validationErrors"

  /** A date of birth more than this many calendar years back is rejected. */
  const MaxPlausibleAge: int := 150

  /** The rules, one per message the validator can produce. */
  datatype Check =
    | FirstNameRequired
    | LastNameRequired
    | EmailInvalid
    | DateOfBirthInFuture
    | DateOfBirthImplausible

  function Message(c: Check): string {
    match c
    case FirstNameRequired => "FirstName is required."
    case LastNameRequired => "LastName is required."
    case EmailInvalid => "Email is not a valid email address."
    case DateOfBirthInFuture => "DateOfBirth cannot be in the future."
    case DateOfBirthImplausible => "DateOfBirth looks invalid."
  }

  /** The order in which the rules are checked and their messages listed. */
  const CheckOrder: seq<Check> :=
    [FirstNameRequired, LastNameRequired, EmailInvalid, DateOfBirthInFuture, DateOfBirthImplausible]

  /** The position of a rule in `CheckOrder`. */
  function Rank(c: Check): (r: nat)
    ensures r < |CheckOrder| && CheckOrder[r] == c
  {
    match c
    case FirstNameRequired => 0
    case LastNameRequired => 1
    case EmailInvalid => 2
    case DateOfBirthInFuture => 3
    case DateOfBirthImplausible => 4
  }

  /** Whether `student` breaks rule `c`. */
  predicate Fails(c: Check, student: Student, now: DateTime, emailParses: string -> bool) {
    match c
    case FirstNameRequired => IsNullOrWhiteSpace(student.firstName)
    case LastNameRequired => IsNullOrWhiteSpace(student.lastName)
    case EmailInvalid => !IsNullOrWhiteSpace(student.email) && !emailParses(student.email.value)
    case DateOfBirthInFuture =>
      student.dateOfBirth.Some? && IsLater(student.dateOfBirth.value, now)
    case DateOfBirthImplausible =>
      student.dateOfBirth.Some? && now.year - student.dateOfBirth.value.year > MaxPlausibleAge
  }

  /** The message of rule `c`, if `student` breaks it. */
  function ReportMessage(c: Check, student: Student, now: DateTime, emailParses: string -> bool): seq<string> {
    if Fails(c, student, now, emailParses) then [Message(c)] else []
  }

  /** The messages the validator lists for `student`: one rule after the other. */
  function ValidationMessages(student: Student, now: DateTime, emailParses: string -> bool): seq<string> {
    ReportMessage(FirstNameRequired, student, now, emailParses)
    + ReportMessage(LastNameRequired, student, now, emailParses)
    + ReportMessage(EmailInvalid, student, now, emailParses)
    + ReportMessage(DateOfBirthInFuture, student, now, emailParses)
    + ReportMessage(DateOfBirthImplausible, student, now, emailParses)
  }

  /** The dictionary returned to the caller for a list of messages. */
  function ErrorDictionary(messages: seq<string>): map<string, seq<string>> {
    if |messages| > 0 then map[ValidationErrorsKey := messages] else map[]
  }

  /** `ValidateStudent(student, forUpdate)`: runs the checks one after the other, adding the
      message of each failed one, and wraps the list in a dictionary. `forUpdate` is accepted
      and never consulted. */
  method ValidateStudent(student: Student, forUpdate: bool, now: DateTime, emailParses: string -> bool)
    returns (errors: map<string, seq<string>>)
    ensures errors == ErrorDictionary(ValidationMessages(student, now, emailParses))
  {
    errors := map[];
    var list: seq<string> := [];

    if IsNullOrWhiteSpace(student.firstName) {
      list := list + ["FirstName is required."];
    }
    assert list == ReportMessage(FirstNameRequired, student, now, emailParses);
    if IsNullOrWhiteSpace(student.lastName) {
      list := list + ["LastName is required."];
    }
    ghost var names := list;
    assert names == ReportMessage(FirstNameRequired, student, now, emailParses)
                  + ReportMessage(LastNameRequired, student, now, emailParses);

    if !IsNullOrWhiteSpace(student.email) {
      if !emailParses(student.email.value) {
        list := list + ["Email is not a valid email address."];
      }
    }
    assert list == names + ReportMessage(EmailInvalid, student, now, emailParses);

    if student.dateOfBirth.Some? {
      var dob := student.dateOfBirth.value;
      if IsLater(dob, now) {
        list := list + ["DateOfBirth cannot be in the future."];
      }
      var age := now.year - dob.year;
      // The C# writes the bound as the literal 150, which is `MaxPlausibleAge`.
      if age > 150 {
        list := list + ["DateOfBirth looks invalid."];
      }
    }

    assert list == ValidationMessages(student, now, emailParses);
    if |list| > 0 {
      errors := errors[ValidationErrorsKey := list];
    }
  }

  // Reference definition: the broken rules, filtered out of CheckOrder.

  /** The rules among the first `k` of `CheckOrder` that `student` breaks, in that order. */
  function FailuresAmongFirst(k: nat, student: Student, now: DateTime, emailParses: string -> bool): seq<Check>
    requires k <= |CheckOrder|
  {
    if k == 0 then []
    else
      var c := CheckOrder[k - 1];
      FailuresAmongFirst(k - 1, student, now, emailParses) + (if Fails(c, student, now, emailParses) then [c] else [])
  }

  /** The rules `student` breaks, in `CheckOrder`. */
  function ValidationFailures(student: Student, now: DateTime, emailParses: string -> bool): seq<Check> {
    FailuresAmongFirst(|CheckOrder|, student, now, emailParses)
  }

  function MessagesOf(checks: seq<Check>): seq<string> {
    seq(|checks|, i requires 0 <= i < |checks| => Message(checks[i]))
  }

  lemma MessagesOfAppend(a: seq<Check>, b: seq<Check>)
    ensures MessagesOf(a + b) == MessagesOf(a) + MessagesOf(b)
  {
  }

  /** The validator lists exactly the messages of the broken rules, in `CheckOrder`. */
  lemma MessagesOfFailures(student: Student, now: DateTime, emailParses: string -> bool)
    ensures ValidationMessages(student, now, emailParses) == MessagesOf(ValidationFailures(student, now, emailParses))
  {
    var f0 := FailuresAmongFirst(0, student, now, emailParses);
    forall k | 0 <= k < |CheckOrder|
      ensures MessagesOf(FailuresAmongFirst(k + 1, student, now, emailParses))
           == MessagesOf(FailuresAmongFirst(k, student, now, emailParses)) + ReportMessage(CheckOrder[k], student, now, emailParses)
    {
      var c := CheckOrder[k];
      MessagesOfAppend(FailuresAmongFirst(k, student, now, emailParses), if Fails(c, student, now, emailParses) then [c] else []);
    }
    assert f0 == [];
  }

  /** Every message names its rule: the five messages are pairwise different. */
  lemma MessageInjective(a: Check, b: Check)
    ensures Message(a) == Message(b) <==> a == b
  {
  }

  /** Each rule of `checks` comes strictly after the previous one in `CheckOrder`. */
  predicate InCheckOrder(checks: seq<Check>) {
    forall i, j :: 0 <= i < j < |checks| ==> Rank(checks[i]) < Rank(checks[j])
  }

  /** The first `k` rules are reported exactly when broken, each at most once, and in
      `CheckOrder`. */
  lemma {:induction false} FailuresAmongFirstFilter(k: nat, student: Student, now: DateTime, emailParses: string -> bool)
    requires k <= |CheckOrder|
    ensures forall c :: c in FailuresAmongFirst(k, student, now, emailParses) <==> Rank(c) < k && Fails(c, student, now, emailParses)
    ensures InCheckOrder(FailuresAmongFirst(k, student, now, emailParses))
  {
    if k > 0 {
      FailuresAmongFirstFilter(k - 1, student, now, emailParses);
      var prev := FailuresAmongFirst(k - 1, student, now, emailParses);
      var f := FailuresAmongFirst(k, student, now, emailParses);
      var c := CheckOrder[k - 1];
      assert f == prev + (if Fails(c, student, now, emailParses) then [c] else []);
      forall i, j | 0 <= i < j < |f| ensures Rank(f[i]) < Rank(f[j]) {
        assert f[i] == prev[i] && prev[i] in prev;
        if j < |prev| {
          assert f[j] == prev[j];
        } else {
          assert f[j] == c;
        }
      }
    }
  }

  /** A rule's message is listed exactly when the student breaks the rule. */
  lemma MessageReportedIff(c: Check, student: Student, now: DateTime, emailParses: string -> bool)
    ensures Message(c) in ValidationMessages(student, now, emailParses) <==> Fails(c, student, now, emailParses)
  {
  }

  /** The broken rules (whose messages are the listed ones, by `MessagesOfFailures`) come in
      the order the rules are checked, none twice. */
  lemma MessagesInCheckOrder(student: Student, now: DateTime, emailParses: string -> bool)
    ensures InCheckOrder(ValidationFailures(student, now, emailParses))
  {
    FailuresAmongFirstFilter(|CheckOrder|, student, now, emailParses);
  }

  /** A blank first name is reported first; a blank last name is reported right after it,
      or first when the first name is present: the validator does not stop at the first
      failure. */
  lemma NamesReportedFirst(student: Student, now: DateTime, emailParses: string -> bool)
    ensures var m := ValidationMessages(student, now, emailParses);
            IsNullOrWhiteSpace(student.firstName) ==> |m| > 0 && m[0] == Message(FirstNameRequired)
    ensures var m := ValidationMessages(student, now, emailParses);
            (IsNullOrWhiteSpace(student.firstName) && IsNullOrWhiteSpace(student.lastName))
              ==> |m| > 1 && m[1] == Message(LastNameRequired)
    ensures var m := ValidationMessages(student, now, emailParses);
            (!IsNullOrWhiteSpace(student.firstName) && IsNullOrWhiteSpace(student.lastName))
              ==> |m| > 0 && m[0] == Message(LastNameRequired)
  {
  }

  /** A null or white-space email is never checked; any other email is reported exactly when
      the address parser refuses it. */
  lemma EmailRule(student: Student, now: DateTime, emailParses: string -> bool)
    ensures IsNullOrWhiteSpace(student.email) ==> Message(EmailInvalid) !in ValidationMessages(student, now, emailParses)
    ensures !IsNullOrWhiteSpace(student.email) ==>
              (Message(EmailInvalid) in ValidationMessages(student, now, emailParses) <==> !emailParses(student.email.value))
  {
  }

  /** A missing date of birth is never checked; a present one is reported as in the future
      exactly when it is strictly later than `now` (so `now` itself is accepted), and as
      implausible exactly when its year is more than `MaxPlausibleAge` (150) before the current year. */
  lemma DateOfBirthRules(student: Student, now: DateTime, emailParses: string -> bool)
    ensures student.dateOfBirth.None? ==>
              Message(DateOfBirthInFuture) !in ValidationMessages(student, now, emailParses)
              && Message(DateOfBirthImplausible) !in ValidationMessages(student, now, emailParses)
    ensures student.dateOfBirth.Some? ==>
              ((Message(DateOfBirthInFuture) in ValidationMessages(student, now, emailParses))
               <==> Ticks(student.dateOfBirth.value) > Ticks(now))
    ensures student.dateOfBirth == Some(now) ==>
              Message(DateOfBirthInFuture) !in ValidationMessages(student, now, emailParses)
    ensures student.dateOfBirth.Some? ==>
              ((Message(DateOfBirthImplausible) in ValidationMessages(student, now, emailParses))
               <==> now.year - student.dateOfBirth.value.year > MaxPlausibleAge)
  {
  }

  /** A date of birth in the future is never also reported as implausibly old. */
  lemma FutureAndImplausibleExclusive(student: Student, now: DateTime, emailParses: string -> bool)
    ensures !(Message(DateOfBirthInFuture) in ValidationMessages(student, now, emailParses)
              && Message(DateOfBirthImplausible) in ValidationMessages(student, now, emailParses))
  {
    MessageReportedIff(DateOfBirthInFuture, student, now, emailParses);
    MessageReportedIff(DateOfBirthImplausible, student, now, emailParses);
    if student.dateOfBirth.Some? {
      LaterAgreesWithYear(student.dateOfBirth.value, now);
    }
  }

  /** A student is accepted exactly when it breaks no rule. */
  lemma AcceptedIffNoRuleBroken(student: Student, now: DateTime, emailParses: string -> bool)
    ensures ValidationMessages(student, now, emailParses) == [] <==> forall c :: !Fails(c, student, now, emailParses)
  {
  }

  /** The dictionary is empty exactly when there is no message; otherwise its one key is
      "validationErrors", holding all the messages. */
  lemma ErrorDictionaryShape(messages: seq<string>)
    ensures |ErrorDictionary(messages)| == 0 <==> messages == []
    ensures messages != [] ==>
              ErrorDictionary(messages).Keys == {ValidationErrorsKey}
              && ErrorDictionary(messages)[ValidationErrorsKey] == messages
  {
  }

  /** Validation reads neither the id nor the creation time, so overwriting the id with the
      route id (as the update endpoint does) cannot change its outcome. */
  lemma ServerFieldsIgnored(student: Student, id: Int32, createdAt: DateTime, now: DateTime, emailParses: string -> bool)
    ensures ValidationMessages(student.(id := id, createdAt := createdAt), now, emailParses)
         == ValidationMessages(student, now, emailParses)
  {
  }
}
