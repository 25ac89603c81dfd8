/** The form schema shared by the add and edit pages: per field, a
    definedness rule and an allowed-value list checked first, then the
    field's tests in the order they are declared. The error messages are the
    server's own. Values are the form's strings; an absent value is None. */
module ClientValidation {
  import opened Common
  import opened UserModel

  const SelectGender := "Please select a gender"
  const SelectStatus := "Please select a status"
  const StatusRequired := "Status is required"
  const GenderOptions := ["Male", "Female", "Other"]
  const StatusOptions := ["Active", "Inactive"]

  /** The test kinds the schema uses. `EmailFormat` stands for the
      library's e-mail pattern, given as `isEmail`; it lets the empty
      string through. `NonEmpty` is the test that `required` adds to a
      string schema. */
  datatype Check = MinLength(n: nat) | TenDigits | EmailFormat | NonEmpty

  datatype Rule = Rule(check: Check, message: string)

  /** One field: its path, the message when it is undefined (None: the
      field is optional), its allowed values with their message, and its
      tests in declaration order. */
  datatype FieldSchema = FieldSchema(
    path: string,
    required: Option<string>,
    oneOf: Option<(seq<string>, string)>,
    tests: seq<Rule>)

  const UserSchema: seq<FieldSchema> := [
    FieldSchema("firstName", Some(FirstNameRequired), None,
      [Rule(MinLength(FirstNameMinLength), FirstNameTooShort), Rule(NonEmpty, FirstNameRequired)]),
    FieldSchema("lastName", Some(LastNameRequired), None, [Rule(NonEmpty, LastNameRequired)]),
    FieldSchema("email", Some(EmailRequired), None,
      [Rule(EmailFormat, EmailInvalid), Rule(NonEmpty, EmailRequired)]),
    FieldSchema("mobile", Some(MobileRequired), None,
      [Rule(TenDigits, MobileInvalid), Rule(NonEmpty, MobileRequired)]),
    FieldSchema("gender", Some(GenderRequired), Some((GenderOptions, SelectGender)), [Rule(NonEmpty, GenderRequired)]),
    FieldSchema("status", Some(StatusRequired), Some((StatusOptions, SelectStatus)), [Rule(NonEmpty, StatusRequired)]),
    FieldSchema("location", None, None, [])
  ]

  /** The value the form holds at a path. */
  function ValueAt(values: Body, path: string): Option<string> {
    if path == "firstName" then values.firstName
    else if path == "lastName" then values.lastName
    else if path == "email" then values.email
    else if path == "mobile" then values.mobile
    else if path == "gender" then values.gender
    else if path == "status" then values.status
    else if path == "location" then values.location
    else None
  }

  predicate Passes(c: Check, s: string, isEmail: string -> bool) {
    match c
    case MinLength(n) => |s| >= n
    case TenDigits => IsMobile(s)
    case EmailFormat => s == "" || isEmail(s)
    case NonEmpty => s != ""
  }

  /** The messages of the tests a string fails, in declaration order. */
  function Failing(tests: seq<Rule>, s: string, isEmail: string -> bool): (r: seq<string>)
    ensures |r| <= |tests|
    ensures forall m :: m in r <==> exists t :: t in tests && !Passes(t.check, s, isEmail) && t.message == m
  {
    if tests == [] then []
    else
      (if Passes(tests[0].check, s, isEmail) then [] else [tests[0].message])
      + Failing(tests[1..], s, isEmail)
  }

  /** Every message of one field. An undefined value fails only the
      definedness rule; a value outside the allowed list fails only that
      list; otherwise the field's tests run. */
  function FieldMessages(f: FieldSchema, v: Option<string>, isEmail: string -> bool): seq<string> {
    match v
    case None => if f.required.Some? then [f.required.value] else []
    case Some(s) =>
      if f.oneOf.Some? && s !in f.oneOf.value.0 then [f.oneOf.value.1]
      else Failing(f.tests, s, isEmail)
  }

  /** A field of the schema whose value meets all its rules. */
  predicate FieldOk(f: FieldSchema, values: Body, isEmail: string -> bool) {
    FieldMessages(f, ValueAt(values, f.path), isEmail) == []
  }

  /** An error reported for one of a field's messages. */
  predicate ReportedFor(e: FieldError, f: FieldSchema, values: Body, isEmail: string -> bool) {
    e.path == f.path && e.message in FieldMessages(f, ValueAt(values, f.path), isEmail)
  }

  /** Every error of the form, field by field in schema order: each
      message of each field is reported, and nothing else. */
  function Validate(schema: seq<FieldSchema>, values: Body, isEmail: string -> bool): (r: seq<FieldError>)
    ensures forall e :: e in r ==> exists i :: 0 <= i < |schema| && ReportedFor(e, schema[i], values, isEmail)
    ensures (r == []) <==> forall i :: 0 <= i < |schema| ==> FieldOk(schema[i], values, isEmail)
  {
    if schema == [] then []
    else
      var f := schema[0];
      var ms := FieldMessages(f, ValueAt(values, f.path), isEmail);
      var rest := Validate(schema[1..], values, isEmail);
      assert forall e :: e in rest ==> exists i :: 0 <= i < |schema| && ReportedFor(e, schema[i], values, isEmail) by {
        forall e | e in rest ensures exists i :: 0 <= i < |schema| && ReportedFor(e, schema[i], values, isEmail) {
          var j :| 0 <= j < |schema| - 1 && ReportedFor(e, schema[1..][j], values, isEmail);
          assert ReportedFor(e, schema[j + 1], values, isEmail);
        }
      }
      assert (forall i :: 0 <= i < |schema| ==> FieldOk(schema[i], values, isEmail))
         <==> FieldOk(f, values, isEmail) && forall i :: 0 <= i < |schema| - 1 ==> FieldOk(schema[1..][i], values, isEmail) by {
        if forall i :: 0 <= i < |schema| - 1 ==> FieldOk(schema[1..][i], values, isEmail) {
          forall i | 1 <= i < |schema| ensures FieldOk(schema[i], values, isEmail) {
            assert schema[i] == schema[1..][i - 1];
          }
        }
      }
      seq(|ms|, i requires 0 <= i < |ms| => FieldError(f.path, ms[i])) + rest
  }

  /** Nothing is dropped: every message of every field is reported against
      that field's path. */
  lemma {:induction false} ValidateComplete(schema: seq<FieldSchema>, values: Body, isEmail: string -> bool, i: nat, m: string)
    requires i < |schema| && m in FieldMessages(schema[i], ValueAt(values, schema[i].path), isEmail)
    ensures FieldError(schema[i].path, m) in Validate(schema, values, isEmail)
  {
    var f := schema[0];
    var ms := FieldMessages(f, ValueAt(values, f.path), isEmail);
    var head := seq(|ms|, k requires 0 <= k < |ms| => FieldError(f.path, ms[k]));
    assert Validate(schema, values, isEmail) == head + Validate(schema[1..], values, isEmail);
    if i == 0 {
      var k :| 0 <= k < |ms| && ms[k] == m;
      assert head[k] == FieldError(f.path, m);
    } else {
      assert schema[i] == schema[1..][i - 1];
      ValidateComplete(schema[1..], values, isEmail, i - 1, m);
    }
  }

  /** No two fields of a schema share a path. */
  predicate DistinctPaths(schema: seq<FieldSchema>) {
    forall a, b :: 0 <= a < b < |schema| ==> schema[a].path != schema[b].path
  }

  /** What the form shows: the first message of each failing field, in
      schema order. */
  function Shown(schema: seq<FieldSchema>, values: Body, isEmail: string -> bool): (r: seq<FieldError>)
    ensures |r| <= |schema|
    ensures forall e :: e in r ==> exists i :: 0 <= i < |schema| && FirstFor(e, schema[i], values, isEmail)
  {
    if schema == [] then []
    else
      var f := schema[0];
      var rest := Shown(schema[1..], values, isEmail);
      assert forall e :: e in rest ==> exists i :: 0 <= i < |schema| && FirstFor(e, schema[i], values, isEmail) by {
        forall e | e in rest ensures exists i :: 0 <= i < |schema| && FirstFor(e, schema[i], values, isEmail) {
          var j :| 0 <= j < |schema| - 1 && FirstFor(e, schema[1..][j], values, isEmail);
          assert FirstFor(e, schema[j + 1], values, isEmail);
        }
      }
      FirstError(f, values, isEmail) + rest
  }

  /** The error a field shows: its first message, if it has any. */
  function FirstError(f: FieldSchema, values: Body, isEmail: string -> bool): (r: seq<FieldError>)
    ensures |r| <= 1
    ensures r != [] ==> r[0].path == f.path
    ensures forall e :: e in r ==> FirstFor(e, f, values, isEmail)
    ensures r == [] <==> FieldOk(f, values, isEmail)
  {
    var ms := FieldMessages(f, ValueAt(values, f.path), isEmail);
    if ms == [] then [] else [FieldError(f.path, ms[0])]
  }

  /** Every failing field shows its first message. */
  lemma {:induction false} ShownComplete(schema: seq<FieldSchema>, values: Body, isEmail: string -> bool, i: nat)
    requires i < |schema| && !FieldOk(schema[i], values, isEmail)
    ensures FieldError(schema[i].path, FieldMessages(schema[i], ValueAt(values, schema[i].path), isEmail)[0])
              in Shown(schema, values, isEmail)
  {
    assert Shown(schema, values, isEmail)
        == FirstError(schema[0], values, isEmail) + Shown(schema[1..], values, isEmail);
    if i > 0 {
      assert schema[i] == schema[1..][i - 1];
      ShownComplete(schema[1..], values, isEmail, i - 1);
    }
  }

  /** The form shows nothing exactly when it has no error. */
  lemma ShownEmptyIffValid(schema: seq<FieldSchema>, values: Body, isEmail: string -> bool)
    ensures Shown(schema, values, isEmail) == [] <==> Validate(schema, values, isEmail) == []
  {
    var r := Shown(schema, values, isEmail);
    if r != [] {
      assert r[0] in r;
    }
    if Validate(schema, values, isEmail) != [] {
      var i :| 0 <= i < |schema| && !FieldOk(schema[i], values, isEmail);
      ShownComplete(schema, values, isEmail, i);
    }
  }

  /** The user form names each field once, so it shows at most one error
      per field. */
  lemma UserSchemaOnePerField(values: Body, isEmail: string -> bool, a: nat, b: nat)
    requires a < b < |Shown(UserSchema, values, isEmail)|
    ensures Shown(UserSchema, values, isEmail)[a].path != Shown(UserSchema, values, isEmail)[b].path
  {
    UserSchemaDistinct();
    ShownOnePerPath(UserSchema, values, isEmail, a, b);
  }

  lemma UserSchemaDistinct()
    ensures DistinctPaths(UserSchema)
  {
    var paths := seq(|UserSchema|, i requires 0 <= i < |UserSchema| => UserSchema[i].path);
    assert paths == ["firstName", "lastName", "email", "mobile", "gender", "status", "location"];
    assert forall a, b :: 0 <= a < b < |paths| ==> paths[a] != paths[b];
  }

  lemma DistinctTail(schema: seq<FieldSchema>)
    requires DistinctPaths(schema) && schema != []
    ensures DistinctPaths(schema[1..])
    ensures forall j :: 0 <= j < |schema| - 1 ==> schema[1..][j].path != schema[0].path
  {
    forall x, y | 0 <= x < y < |schema| - 1 ensures schema[1..][x].path != schema[1..][y].path {
      assert schema[1..][x] == schema[x + 1] && schema[1..][y] == schema[y + 1];
    }
  }

  /** A path no field of the schema has is never shown. */
  lemma {:induction false} ShownAvoids(schema: seq<FieldSchema>, values: Body, isEmail: string -> bool, k: nat, p: string)
    requires forall j :: 0 <= j < |schema| ==> schema[j].path != p
    requires k < |Shown(schema, values, isEmail)|
    ensures Shown(schema, values, isEmail)[k].path != p
  {
    var r := Shown(schema, values, isEmail);
    assert r[k] in r;
  }

  /** With distinct field paths, the form shows at most one error per
      field. */
  lemma {:induction false} ShownOnePerPath(schema: seq<FieldSchema>, values: Body, isEmail: string -> bool, a: nat, b: nat)
    requires DistinctPaths(schema)
    requires a < b < |Shown(schema, values, isEmail)|
    ensures Shown(schema, values, isEmail)[a].path != Shown(schema, values, isEmail)[b].path
  {
    var rest := Shown(schema[1..], values, isEmail);
    DistinctTail(schema);
    forall k | 0 <= k < |rest| ensures rest[k].path != schema[0].path {
      ShownAvoids(schema[1..], values, isEmail, k, schema[0].path);
    }
    forall x, y | 0 <= x < y < |rest| ensures rest[x].path != rest[y].path {
      ShownOnePerPath(schema[1..], values, isEmail, x, y);
    }
    ConsPathsDistinct(FirstError(schema[0], values, isEmail), rest, schema[0].path, a, b);
  }

  /** Prefixing at most one error with a fresh path keeps paths distinct. */
  lemma ConsPathsDistinct(head: seq<FieldError>, rest: seq<FieldError>, p: string, a: nat, b: nat)
    requires |head| <= 1 && (head != [] ==> head[0].path == p)
    requires forall k :: 0 <= k < |rest| ==> rest[k].path != p
    requires forall x, y :: 0 <= x < y < |rest| ==> rest[x].path != rest[y].path
    requires a < b < |head + rest|
    ensures (head + rest)[a].path != (head + rest)[b].path
  {
  }



  /** An error carrying the first message of a failing field. */
  predicate FirstFor(e: FieldError, f: FieldSchema, values: Body, isEmail: string -> bool) {
    var ms := FieldMessages(f, ValueAt(values, f.path), isEmail);
    e.path == f.path && ms != [] && e.message == ms[0]
  }

  /** The schema's rules stated field by field, independently of the rule
      table. */
  predicate ClientValid(values: Body, isEmail: string -> bool) {
    && values.firstName.Some? && |values.firstName.value| >= FirstNameMinLength
    && values.lastName.Some? && values.lastName.value != ""
    && values.email.Some? && values.email.value != "" && isEmail(values.email.value)
    && values.mobile.Some? && IsMobile(values.mobile.value)
    && values.gender.Some? && values.gender.value in GenderOptions
    && values.status.Some? && values.status.value in StatusOptions
  }

  /** Failing on a field with two tests: the first test's message, if it
      fails, then the second's. */
  lemma FailingPair(t: Rule, u: Rule, s: string, isEmail: string -> bool)
    ensures Failing([t, u], s, isEmail)
         == (if Passes(t.check, s, isEmail) then [] else [t.message])
          + (if Passes(u.check, s, isEmail) then [] else [u.message])
  {
    assert [t, u][1..] == [u];
    assert [u][1..] == [];
  }

  lemma FailingOne(t: Rule, s: string, isEmail: string -> bool)
    ensures Failing([t], s, isEmail) == (if Passes(t.check, s, isEmail) then [] else [t.message])
  {
    assert [t][1..] == [];
  }

  /** Each field's rules, one lemma per field of the schema. */
  lemma FirstNameRule(v: Option<string>, isEmail: string -> bool)
    ensures FieldMessages(UserSchema[0], v, isEmail) == [] <==> v.Some? && |v.value| >= FirstNameMinLength
  {
    if v.Some? { FailingPair(UserSchema[0].tests[0], UserSchema[0].tests[1], v.value, isEmail); }
  }

  lemma LastNameRule(v: Option<string>, isEmail: string -> bool)
    ensures FieldMessages(UserSchema[1], v, isEmail) == [] <==> v.Some? && v.value != ""
  {
    if v.Some? { FailingOne(UserSchema[1].tests[0], v.value, isEmail); }
  }

  lemma EmailRule(v: Option<string>, isEmail: string -> bool)
    ensures FieldMessages(UserSchema[2], v, isEmail) == [] <==> v.Some? && v.value != "" && isEmail(v.value)
  {
    if v.Some? { FailingPair(UserSchema[2].tests[0], UserSchema[2].tests[1], v.value, isEmail); }
  }

  lemma MobileRule(v: Option<string>, isEmail: string -> bool)
    ensures FieldMessages(UserSchema[3], v, isEmail) == [] <==> v.Some? && IsMobile(v.value)
  {
    if v.Some? { FailingPair(UserSchema[3].tests[0], UserSchema[3].tests[1], v.value, isEmail); }
  }

  lemma GenderRule(v: Option<string>, isEmail: string -> bool)
    ensures FieldMessages(UserSchema[4], v, isEmail) == [] <==> v.Some? && v.value in GenderOptions
  {
    if v.Some? { FailingOne(UserSchema[4].tests[0], v.value, isEmail); }
  }

  lemma StatusRule(v: Option<string>, isEmail: string -> bool)
    ensures FieldMessages(UserSchema[5], v, isEmail) == [] <==> v.Some? && v.value in StatusOptions
  {
    if v.Some? { FailingOne(UserSchema[5].tests[0], v.value, isEmail); }
  }

  /** `location` has no rules. */
  lemma LocationRule(v: Option<string>, isEmail: string -> bool)
    ensures FieldMessages(UserSchema[6], v, isEmail) == []
  {
    if v.Some? { assert UserSchema[6].tests == []; }
  }

  /** The value each field of the schema reads. */
  lemma ValuesOfSchema(values: Body)
    ensures ValueAt(values, UserSchema[0].path) == values.firstName
    ensures ValueAt(values, UserSchema[1].path) == values.lastName
    ensures ValueAt(values, UserSchema[2].path) == values.email
    ensures ValueAt(values, UserSchema[3].path) == values.mobile
    ensures ValueAt(values, UserSchema[4].path) == values.gender
    ensures ValueAt(values, UserSchema[5].path) == values.status
    ensures ValueAt(values, UserSchema[6].path) == values.location
  {}

  /** The form passes exactly when every field meets its rules. */
  lemma ValidateIff(values: Body, isEmail: string -> bool)
    ensures Validate(UserSchema, values, isEmail) == [] <==> ClientValid(values, isEmail)
  {
    ValuesOfSchema(values);
    FirstNameRule(values.firstName, isEmail);
    LastNameRule(values.lastName, isEmail);
    EmailRule(values.email, isEmail);
    MobileRule(values.mobile, isEmail);
    GenderRule(values.gender, isEmail);
    StatusRule(values.status, isEmail);
    LocationRule(values.location, isEmail);
    var fs := UserSchema;
    var all := FieldOk(fs[0], values, isEmail) && FieldOk(fs[1], values, isEmail)
      && FieldOk(fs[2], values, isEmail) && FieldOk(fs[3], values, isEmail)
      && FieldOk(fs[4], values, isEmail) && FieldOk(fs[5], values, isEmail)
      && FieldOk(fs[6], values, isEmail);
    assert all <==> ClientValid(values, isEmail);
    EveryFieldOfSeven(fs, values, isEmail);
  }

  /** For a schema of seven fields, "every field passes" spelled out. */
  lemma EveryFieldOfSeven(fs: seq<FieldSchema>, values: Body, isEmail: string -> bool)
    requires |fs| == 7
    ensures (forall i :: 0 <= i < |fs| ==> FieldOk(fs[i], values, isEmail))
      <==> (FieldOk(fs[0], values, isEmail) && FieldOk(fs[1], values, isEmail)
            && FieldOk(fs[2], values, isEmail) && FieldOk(fs[3], values, isEmail)
            && FieldOk(fs[4], values, isEmail) && FieldOk(fs[5], values, isEmail)
            && FieldOk(fs[6], values, isEmail))
  {
    if FieldOk(fs[0], values, isEmail) && FieldOk(fs[1], values, isEmail)
       && FieldOk(fs[2], values, isEmail) && FieldOk(fs[3], values, isEmail)
       && FieldOk(fs[4], values, isEmail) && FieldOk(fs[5], values, isEmail)
       && FieldOk(fs[6], values, isEmail)
    {
      forall i | 0 <= i < |fs| ensures FieldOk(fs[i], values, isEmail) {
        if i == 0 {} else if i == 1 {} else if i == 2 {} else if i == 3 {}
        else if i == 4 {} else if i == 5 {} else {}
      }
    }
  }

  /** An empty first name fails both of its tests, and the length test,
      declared first, is the one shown; the server reports the same input
      as missing. */
  lemma EmptyFirstName(isEmail: string -> bool)
    ensures FieldMessages(UserSchema[0], Some(""), isEmail) == [FirstNameTooShort, FirstNameRequired]
    ensures FirstNameErrors(Some(""), true) == [FieldError("firstName", FirstNameRequired)]
  {
    FailingPair(UserSchema[0].tests[0], UserSchema[0].tests[1], "", isEmail);
    assert Trim("") == "";
  }

  /** The mobile rule is the server's: for a value the form holds, the
      client rejects it exactly when the server would. */
  lemma MobileAgrees(s: string, isEmail: string -> bool)
    ensures FieldMessages(UserSchema[3], Some(s), isEmail) == [] <==> MobileErrors(Some(s), true) == []
  {
    MobileRule(Some(s), isEmail);
  }

  /** The gender rule is the server's: the allowed list is the enum. */
  lemma GenderAgrees(s: string, isEmail: string -> bool)
    ensures FieldMessages(UserSchema[4], Some(s), isEmail) == [] <==> GenderErrors(Some(s), true) == []
  {
    if s in GenderOptions {
      assert s == "Male" || s == "Female" || s == "Other";
    }
  }

  /** The client demands a status; the server defaults a missing one. */
  lemma StatusRequiredOnlyOnClient(isEmail: string -> bool)
    ensures FieldMessages(UserSchema[5], None, isEmail) == [StatusRequired]
    ensures StatusErrors(None) == []
  {}

  /** The client does not trim: a name padded with spaces passes the form
      and fails the server's length rule. */
  lemma PaddedNameOnlyOnServer(isEmail: string -> bool)
    ensures FieldMessages(UserSchema[0], Some(" a "), isEmail) == []
    ensures FirstNameErrors(Some(" a "), true) == [FieldError("firstName", FirstNameTooShort)]
  {
    FirstNameRule(Some(" a "), isEmail);
    assert Trim(" a ") == "a" by {
      TrimSpec(" a ");
      assert TrimStart(" a ") == "a ";
    }
  }

  /** Whatever the form accepts, the server accepts too once the names and
      the e-mail need no trimming and the e-mail meets the server's
      pattern. */
  lemma ClientThenServer(values: Body, isEmail: string -> bool)
    requires ClientValid(values, isEmail)
    requires IsTrimmed(values.firstName.value) && IsTrimmed(values.lastName.value)
    requires IsEmailShape(NormEmail(values.email.value))
    ensures BodyErrors(values, true) == []
  {
    TrimOfTrimmed(values.firstName.value);
    TrimOfTrimmed(values.lastName.value);
    var g := values.gender.value;
    assert g == "Male" || g == "Female" || g == "Other";
    var st := values.status.value;
    assert st == "Active" || st == "Inactive";
  }
}
