/** The sign-up form schema (`SignupValidation`): name and username need
    at least 2 characters, the password at least 8, and the email must pass
    the schema library's email check. Parsing an object reports every
    failing field, in the order the fields are declared. */
module Validation {
  import opened Wrappers

  datatype SignupInput = SignupInput(name: string, username: string, email: string, password: string)

  datatype Field = Name | Username | Email | Password

  /** One reported problem: the field and the message shown under it. */
  datatype Issue = Issue(field: Field, message: string)

  const NameMessage: string := "Ad en az 2 karakter olmalıdır."
  const UsernameMessage: string := "Kullanıcı adı en az 2 karakter olmalıdır."
  const PasswordMessage: string := "Parola en az 8 karakter olmalıdır."

  const NameMinLength: nat := 2
  const UsernameMinLength: nat := 2
  const PasswordMinLength: nat := 8

  /** Fields in declaration order. */
  function Rank(f: Field): nat {
    match f
    case Name => 0
    case Username => 1
    case Email => 2
    case Password => 3
  }

  /** The length a JavaScript string reports: UTF-16 code units, so a
      character outside the Basic Multilingual Plane counts twice. */
  function Utf16Length(s: string): (n: nat)
    ensures |s| <= n <= 2 * |s|
    ensures (forall i :: 0 <= i < |s| ==> s[i] as int < 0x1_0000) ==> n == |s|
  {
    if |s| == 0 then 0
    else (if s[0] as int < 0x1_0000 then 1 else 2) + Utf16Length(s[1..])
  }

  /** Whether a field's value passes its rule; the email rule is the
      library's predicate, given as `isEmail`. */
  predicate Passes(f: Field, input: SignupInput, isEmail: string -> bool) {
    match f
    case Name => Utf16Length(input.name) >= NameMinLength
    case Username => Utf16Length(input.username) >= UsernameMinLength
    case Email => isEmail(input.email)
    case Password => Utf16Length(input.password) >= PasswordMinLength
  }

  /** The fixed message of each field's rule; the email message is the
      library's, given as `emailMessage`. */
  function Message(f: Field, emailMessage: string): string {
    match f
    case Name => NameMessage
    case Username => UsernameMessage
    case Email => emailMessage
    case Password => PasswordMessage
  }

  /** The schema's fields in declaration order. */
  const Fields: seq<Field> := [Name, Username, Email, Password]

  /** Field lists in strictly increasing declaration order. */
  predicate Ordered(fs: seq<Field>) {
    forall i, j :: 0 <= i < j < |fs| ==> Rank(fs[i]) < Rank(fs[j])
  }

  /** Every field is listed in `Fields`. */
  lemma FieldListed(f: Field)
    ensures f in Fields
  {
    match f
    case Name => assert Fields[0] == f;
    case Username => assert Fields[1] == f;
    case Email => assert Fields[2] == f;
    case Password => assert Fields[3] == f;
  }

  /** The issues of the fields `fs`, one per failing field, in the order of
      `fs`. */
  function CollectIssues(fs: seq<Field>, input: SignupInput, isEmail: string -> bool, emailMessage: string)
    : seq<Issue>
  {
    if |fs| == 0 then []
    else
      var head := if Passes(fs[0], input, isEmail) then [] else [Issue(fs[0], Message(fs[0], emailMessage))];
      head + CollectIssues(fs[1..], input, isEmail, emailMessage)
  }

  /** `issue` reports a failing field among `fs` with that field's message. */
  predicate Justified(issue: Issue, fs: seq<Field>, input: SignupInput, isEmail: string -> bool, emailMessage: string) {
    && issue.field in fs
    && !Passes(issue.field, input, isEmail)
    && issue.message == Message(issue.field, emailMessage)
  }

  /** Each collected issue names a failing field of `fs` with that field's
      message. */
  lemma {:induction false} CollectIssuesSound(fs: seq<Field>, input: SignupInput, isEmail: string -> bool, emailMessage: string)
    ensures forall i :: 0 <= i < |CollectIssues(fs, input, isEmail, emailMessage)| ==>
              Justified(CollectIssues(fs, input, isEmail, emailMessage)[i], fs, input, isEmail, emailMessage)
  {
    if |fs| > 0 {
      var r := CollectIssues(fs, input, isEmail, emailMessage);
      var rest := CollectIssues(fs[1..], input, isEmail, emailMessage);
      CollectIssuesSound(fs[1..], input, isEmail, emailMessage);
      var h := |r| - |rest|;
      forall i | 0 <= i < |r|
        ensures Justified(r[i], fs, input, isEmail, emailMessage)
      {
        if i >= h {
          assert r[i] == rest[i - h];
          assert Justified(rest[i - h], fs[1..], input, isEmail, emailMessage);
        }
      }
    }
  }

  /** Every failing field of `fs` has an issue. */
  lemma {:induction false} CollectIssuesComplete(fs: seq<Field>, input: SignupInput, isEmail: string -> bool, emailMessage: string, f: Field)
    requires f in fs && !Passes(f, input, isEmail)
    ensures exists i :: 0 <= i < |CollectIssues(fs, input, isEmail, emailMessage)| &&
                        CollectIssues(fs, input, isEmail, emailMessage)[i].field == f
  {
    var r := CollectIssues(fs, input, isEmail, emailMessage);
    if fs[0] == f {
      assert r[0].field == f;
    } else {
      var rest := CollectIssues(fs[1..], input, isEmail, emailMessage);
      CollectIssuesComplete(fs[1..], input, isEmail, emailMessage, f);
      var i :| 0 <= i < |rest| && rest[i].field == f;
      assert r[|r| - |rest| + i] == rest[i];
    }
  }

  /** The fields of a list of issues, as a set. */
  function FieldsOf(r: seq<Issue>): set<Field> {
    set i | 0 <= i < |r| :: r[i].field
  }

  /** Issues whose fields strictly follow declaration order. */
  predicate IssuesOrdered(r: seq<Issue>) {
    forall i, j :: 0 <= i < j < |r| ==> Rank(r[i].field) < Rank(r[j].field)
  }

  /** Issues come out in the order of `fs`, and only for fields of `fs`. */
  lemma {:induction false} CollectIssuesOrdered(fs: seq<Field>, input: SignupInput, isEmail: string -> bool, emailMessage: string)
    requires Ordered(fs)
    ensures IssuesOrdered(CollectIssues(fs, input, isEmail, emailMessage))
    ensures forall f :: f in FieldsOf(CollectIssues(fs, input, isEmail, emailMessage)) ==> f in fs
  {
    if |fs| > 0 {
      var r := CollectIssues(fs, input, isEmail, emailMessage);
      var rest := CollectIssues(fs[1..], input, isEmail, emailMessage);
      CollectIssuesOrdered(fs[1..], input, isEmail, emailMessage);
      var h := |r| - |rest|;
      assert r == r[..h] + rest;
      assert FieldsOf(r) == FieldsOf(r[..h]) + FieldsOf(rest);
      forall f | f in FieldsOf(rest)
        ensures Rank(fs[0]) < Rank(f)
      {
        var m :| 0 <= m < |fs[1..]| && fs[1..][m] == f;
        assert fs[m + 1] == f;
      }
      forall i, j | 0 <= i < j < |r|
        ensures Rank(r[i].field) < Rank(r[j].field)
      {
        assert r[j] == rest[j - h];
        assert r[j].field in FieldsOf(rest);
        if i >= h {
          assert r[i] == rest[i - h];
        }
      }
    }
  }

  /** The issues of the whole schema name exactly the failing fields. */
  lemma SchemaIssuesExact(input: SignupInput, isEmail: string -> bool, emailMessage: string)
    ensures var issues := CollectIssues(Fields, input, isEmail, emailMessage);
            forall f :: !Passes(f, input, isEmail) <==> exists i :: 0 <= i < |issues| && issues[i].field == f
  {
    var issues := CollectIssues(Fields, input, isEmail, emailMessage);
    CollectIssuesSound(Fields, input, isEmail, emailMessage);
    forall f | !Passes(f, input, isEmail)
      ensures exists i :: 0 <= i < |issues| && issues[i].field == f
    {
      FieldListed(f);
      CollectIssuesComplete(Fields, input, isEmail, emailMessage, f);
    }
    forall f, i | 0 <= i < |issues| && issues[i].field == f
      ensures !Passes(f, input, isEmail)
    {
      assert Justified(issues[i], Fields, input, isEmail, emailMessage);
    }
  }

  /** The issues of the whole schema carry their fields' messages and follow
      declaration order. */
  lemma SchemaIssuesShaped(input: SignupInput, isEmail: string -> bool, emailMessage: string)
    ensures var issues := CollectIssues(Fields, input, isEmail, emailMessage);
            && (forall i :: 0 <= i < |issues| ==> issues[i].message == Message(issues[i].field, emailMessage))
            && (forall i, j :: 0 <= i < j < |issues| ==> Rank(issues[i].field) < Rank(issues[j].field))
  {
    var issues := CollectIssues(Fields, input, isEmail, emailMessage);
    CollectIssuesSound(Fields, input, isEmail, emailMessage);
    forall i | 0 <= i < |issues|
      ensures issues[i].message == Message(issues[i].field, emailMessage)
    {
      assert Justified(issues[i], Fields, input, isEmail, emailMessage);
    }
    CollectIssuesOrdered(Fields, input, isEmail, emailMessage);
    assert IssuesOrdered(issues);
  }

  /** Parses the form values: success returns them unchanged; failure lists
      exactly the failing fields, each once and in declaration order, with
      its rule's message. */
  function ParseSignup(input: SignupInput, isEmail: string -> bool, emailMessage: string)
    : (r: Result<SignupInput, seq<Issue>>)
    ensures r.Success? <==>
              forall f :: Passes(f, input, isEmail)
    ensures r.Success? ==> r.value == input
    ensures r.Failure? ==>
              && |r.error| > 0
              && (forall f :: !Passes(f, input, isEmail) <==> exists i :: 0 <= i < |r.error| && r.error[i].field == f)
              && (forall i :: 0 <= i < |r.error| ==> r.error[i].message == Message(r.error[i].field, emailMessage))
              && (forall i, j :: 0 <= i < j < |r.error| ==> Rank(r.error[i].field) < Rank(r.error[j].field))
  {
    var issues := CollectIssues(Fields, input, isEmail, emailMessage);
    SchemaIssuesExact(input, isEmail, emailMessage);
    SchemaIssuesShaped(input, isEmail, emailMessage);
    if |issues| == 0 then
      Success(input)
    else
      assert !Passes(issues[0].field, input, isEmail);
      Failure(issues)
  }

  /** All characters lie in the Basic Multilingual Plane. */
  predicate InBmp(s: string) {
    forall i :: 0 <= i < |s| ==> s[i] as int < 0x1_0000
  }

  /** For text in the Basic Multilingual Plane, a name or username shorter
      than 2 characters or a password shorter than 8 is rejected, and the
      issues carry the field's fixed message. */
  lemma ShortFieldsRejected(input: SignupInput, isEmail: string -> bool, emailMessage: string)
    requires InBmp(input.name) && InBmp(input.username) && InBmp(input.password)
    requires |input.name| < 2 || |input.username| < 2 || |input.password| < 8
    ensures ParseSignup(input, isEmail, emailMessage).Failure?
    ensures |input.name| < 2 ==> Issue(Name, NameMessage) in ParseSignup(input, isEmail, emailMessage).error
    ensures |input.username| < 2 ==> Issue(Username, UsernameMessage) in ParseSignup(input, isEmail, emailMessage).error
    ensures |input.password| < 8 ==> Issue(Password, PasswordMessage) in ParseSignup(input, isEmail, emailMessage).error
  {
    var r := ParseSignup(input, isEmail, emailMessage);
    assert Utf16Length(input.name) == |input.name|;
    assert Utf16Length(input.username) == |input.username|;
    assert Utf16Length(input.password) == |input.password|;
    if |input.name| < 2 {
      IssueReported(input, isEmail, emailMessage, Name);
    }
    if |input.username| < 2 {
      IssueReported(input, isEmail, emailMessage, Username);
    }
    if |input.password| < 8 {
      IssueReported(input, isEmail, emailMessage, Password);
    }
  }

  /** A failing field appears among the issues with its rule's message. */
  lemma IssueReported(input: SignupInput, isEmail: string -> bool, emailMessage: string, f: Field)
    requires !Passes(f, input, isEmail)
    ensures ParseSignup(input, isEmail, emailMessage).Failure?
    ensures Issue(f, Message(f, emailMessage)) in ParseSignup(input, isEmail, emailMessage).error
  {
    var r := ParseSignup(input, isEmail, emailMessage);
    var i :| 0 <= i < |r.error| && r.error[i].field == f;
    assert r.error[i] == Issue(f, Message(f, emailMessage));
  }

  /** A single character outside the Basic Multilingual Plane has length 2
      in JavaScript, so a one-character name such as U+1F600 passes the
      2-character minimum. */
  lemma AstralCharacterCountsTwice(input: SignupInput, isEmail: string -> bool)
    requires input.name == [0x1F600 as char]
    ensures Passes(Name, input, isEmail)
  {
  }

  /** Lengths in characters are enough for acceptance: values with at
      least 2, 2 and 8 characters and a valid email always pass, whatever
      planes their characters come from. */
  lemma LongEnoughAccepted(input: SignupInput, isEmail: string -> bool, emailMessage: string)
    requires |input.name| >= 2 && |input.username| >= 2 && |input.password| >= 8
    requires isEmail(input.email)
    ensures ParseSignup(input, isEmail, emailMessage) == Success(input)
  {
    assert forall f :: Passes(f, input, isEmail);
  }
}
