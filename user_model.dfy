/** The user document of the backend schema: its fields, the setters that
    normalise them (trim, lowercase), their defaults and the validators that
    decide whether a create or an update is accepted, with the exact messages
    the schema declares. */
module UserModel {
  import opened Common

  datatype Gender = Male | Female | Other
  datatype Status = Active | Inactive

  function GenderName(g: Gender): string {
    match g
    case Male => "Male"
    case Female => "Female"
    case Other => "Other"
  }

  function StatusName(s: Status): string {
    match s
    case Active => "Active"
    case Inactive => "Inactive"
  }

  /** The `enum` rule of `gender`: exactly the three listed names. */
  function ParseGender(s: string): (r: Option<Gender>)
    ensures r.Some? <==> s == "Male" || s == "Female" || s == "Other"
    ensures r.Some? ==> GenderName(r.value) == s
  {
    if s == "Male" then Some(Male)
    else if s == "Female" then Some(Female)
    else if s == "Other" then Some(Other)
    else None
  }

  /** The `enum` rule of `status`: exactly the two listed names. */
  function ParseStatus(s: string): (r: Option<Status>)
    ensures r.Some? <==> s == "Active" || s == "Inactive"
    ensures r.Some? ==> StatusName(r.value) == s
  {
    if s == "Active" then Some(Active)
    else if s == "Inactive" then Some(Inactive)
    else None
  }

  lemma GenderRoundTrip(g: Gender)
    ensures ParseGender(GenderName(g)) == Some(g)
  {}

  lemma StatusRoundTrip(s: Status)
    ensures ParseStatus(StatusName(s)) == Some(s)
  {}

  /** A stored user document. `id` stands for the store-assigned `_id`;
      timestamps are clock readings. */
  datatype User = User(
    id: nat,
    firstName: string,
    lastName: string,
    email: string,
    mobile: string,
    gender: Gender,
    status: Status,
    location: string,
    profileImage: Option<string>,
    createdAt: int,
    updatedAt: int)

  /** The text fields of a create or update request body; None is a field
      the request did not carry (`undefined`). */
  datatype Body = Body(
    firstName: Option<string>,
    lastName: Option<string>,
    email: Option<string>,
    mobile: Option<string>,
    gender: Option<string>,
    status: Option<string>,
    location: Option<string>)

  /** One entry of a validation error: the schema path and its message. */
  datatype FieldError = FieldError(path: string, message: string)

  const FirstNameRequired := "First name is required"
  const FirstNameTooShort := "First name must be at least 2 characters"
  const LastNameRequired := "Last name is required"
  const EmailRequired := "Email is required"
  const EmailInvalid := "Please enter a valid email address"
  const MobileRequired := "Mobile number is required"
  const MobileInvalid := "Mobile number must be exactly 10 digits"
  const GenderRequired := "Gender is required"
  const FirstNameMinLength := 2

  /** The default message of an `enum` validator that has none of its own. */
  function EnumMessage(value: string, path: string): string {
    "`" + value + "` is not a valid enum value for path `" + path + "`."
  }

  predicate IsDigit(c: char) {
    '0' <= c <= '9'
  }

  /** The `match` rule of `mobile`: `^\d{10}$`. */
  predicate IsMobile(s: string) {
    |s| == 10 && forall i :: 0 <= i < |s| ==> IsDigit(s[i])
  }

  /** The `match` rule of `email`: `^\S+@\S+\.\S+$`. Every character is
      matched by `\S`, `@` or `\.`, so none is white space; some `@` has a
      character before it, and some later `.` has a character on either
      side. */
  predicate IsEmailShape(s: string) {
    (forall i :: 0 <= i < |s| ==> !IsSpace(s[i]))
    && exists i, j :: 0 < i && i + 1 < j && j + 1 < |s| && s[i] == '@' && s[j] == '.'
  }

  /** The setters of each path. */
  function NormName(s: string): string {
    Trim(s)
  }

  function NormEmail(s: string): string {
    Trim(Lower(s))
  }

  function NormLocation(s: string): string {
    Trim(s)
  }

  /** Mongoose's `required` for a string: present and non-empty (after the
      setters have run). */
  predicate Present(v: Option<string>) {
    v.Some? && v.value != ""
  }

  /** The first failing validator of `firstName`, if any. `creating` says
      whether an absent field is checked (document validation on create) or
      skipped (update validators only see the fields that are set). */
  function FirstNameErrors(v: Option<string>, creating: bool): seq<FieldError> {
    var t := if v.Some? then Some(NormName(v.value)) else None;
    if v.None? && !creating then []
    else if !Present(t) then [FieldError("firstName", FirstNameRequired)]
    else if |t.value| < FirstNameMinLength then [FieldError("firstName", FirstNameTooShort)]
    else []
  }

  function LastNameErrors(v: Option<string>, creating: bool): seq<FieldError> {
    var t := if v.Some? then Some(NormName(v.value)) else None;
    if v.None? && !creating then []
    else if !Present(t) then [FieldError("lastName", LastNameRequired)]
    else []
  }

  function EmailErrors(v: Option<string>, creating: bool): seq<FieldError> {
    var t := if v.Some? then Some(NormEmail(v.value)) else None;
    if v.None? && !creating then []
    else if !Present(t) then [FieldError("email", EmailRequired)]
    else if !IsEmailShape(t.value) then [FieldError("email", EmailInvalid)]
    else []
  }

  function MobileErrors(v: Option<string>, creating: bool): seq<FieldError> {
    if v.None? && !creating then []
    else if !Present(v) then [FieldError("mobile", MobileRequired)]
    else if !IsMobile(v.value) then [FieldError("mobile", MobileInvalid)]
    else []
  }

  function GenderErrors(v: Option<string>, creating: bool): seq<FieldError> {
    if v.None? && !creating then []
    else if !Present(v) then [FieldError("gender", GenderRequired)]
    else if ParseGender(v.value).None? then [FieldError("gender", EnumMessage(v.value, "gender"))]
    else []
  }

  /** `status` is not required: absent, it takes its default on create and
      is left alone on update; present, it must be one of the enum. */
  function StatusErrors(v: Option<string>): seq<FieldError> {
    if v.Some? && ParseStatus(v.value).None? then [FieldError("status", EnumMessage(v.value, "status"))]
    else []
  }

  /** Every violated rule of a request body, in schema order. */
  function BodyErrors(b: Body, creating: bool): seq<FieldError> {
    FirstNameErrors(b.firstName, creating)
    + LastNameErrors(b.lastName, creating)
    + EmailErrors(b.email, creating)
    + MobileErrors(b.mobile, creating)
    + GenderErrors(b.gender, creating)
    + StatusErrors(b.status)
  }

  /** The user-supplied part of a stored document, after setters and
      defaults. */
  datatype Draft = Draft(
    firstName: string,
    lastName: string,
    email: string,
    mobile: string,
    gender: Gender,
    status: Status,
    location: string)

  const DefaultStatus := Active
  const DefaultLocation := ""

  /** The schema's rules, stated on the stored values. */
  predicate ValidDraft(d: Draft) {
    && IsTrimmed(d.firstName) && |d.firstName| >= FirstNameMinLength
    && IsTrimmed(d.lastName) && d.lastName != ""
    && IsTrimmed(d.email) && NoUpper(d.email) && IsEmailShape(d.email)
    && IsMobile(d.mobile)
    && IsTrimmed(d.location)
  }

  function DraftOf(u: User): Draft {
    Draft(u.firstName, u.lastName, u.email, u.mobile, u.gender, u.status, u.location)
  }

  predicate ValidUser(u: User) {
    ValidDraft(DraftOf(u))
  }

  /** Document validation on create: either every violated rule, or the
      document the setters and defaults produce. */
  function ValidateCreate(b: Body): (r: Result<Draft, seq<FieldError>>)
    ensures r.Failed? <==> BodyErrors(b, true) != []
    ensures r.Failed? ==> r.error == BodyErrors(b, true)
    ensures r.Ok? ==> ValidDraft(r.value)
  {
    if BodyErrors(b, true) != [] then Failed(BodyErrors(b, true))
    else
      assert FirstNameErrors(b.firstName, true) == [] && LastNameErrors(b.lastName, true) == [];
      assert EmailErrors(b.email, true) == [] && MobileErrors(b.mobile, true) == [];
      assert GenderErrors(b.gender, true) == [] && StatusErrors(b.status) == [];
      TrimSpec(b.firstName.value);
      TrimSpec(b.lastName.value);
      NormEmailStored(b.email.value);
      var location := if b.location.Some? then NormLocation(b.location.value) else DefaultLocation;
      TrimSpec(if b.location.Some? then b.location.value else "");
      Ok(Draft(
        NormName(b.firstName.value),
        NormName(b.lastName.value),
        NormEmail(b.email.value),
        b.mobile.value,
        ParseGender(b.gender.value).value,
        if b.status.Some? then ParseStatus(b.status.value).value else DefaultStatus,
        location))
  }

  /** No ASCII upper-case letter: what `lowercase` guarantees. */
  predicate NoUpper(s: string) {
    forall i :: 0 <= i < |s| ==> !('A' <= s[i] <= 'Z')
  }

  /** The email setters produce a trimmed string without upper-case
      letters. */
  lemma NormEmailStored(s: string)
    ensures IsTrimmed(NormEmail(s)) && NoUpper(NormEmail(s))
  {
    TrimSpec(Lower(s));
    var a, b :| 0 <= a <= b <= |Lower(s)| && Trim(Lower(s)) == Lower(s)[a..b];
  }

  /** The normalised values an accepted update writes; None leaves the
      stored field as it is. */
  datatype Patch = Patch(
    firstName: Option<string>,
    lastName: Option<string>,
    email: Option<string>,
    mobile: Option<string>,
    gender: Option<Gender>,
    status: Option<Status>,
    location: Option<string>)

  function Pick<T>(p: Option<T>, old_: T): T {
    if p.Some? then p.value else old_
  }

  /** Update validation: only the fields present in the request are checked;
      an accepted update yields the patch of their normalised values. */
  function ValidateUpdate(b: Body): (r: Result<Patch, seq<FieldError>>)
    ensures r.Failed? <==> BodyErrors(b, false) != []
    ensures r.Failed? ==> r.error == BodyErrors(b, false)
  {
    if BodyErrors(b, false) != [] then Failed(BodyErrors(b, false))
    else
      assert GenderErrors(b.gender, false) == [] && StatusErrors(b.status) == [];
      Ok(Patch(
        if b.firstName.Some? then Some(NormName(b.firstName.value)) else None,
        if b.lastName.Some? then Some(NormName(b.lastName.value)) else None,
        if b.email.Some? then Some(NormEmail(b.email.value)) else None,
        b.mobile,
        if b.gender.Some? then ParseGender(b.gender.value) else None,
        if b.status.Some? then ParseStatus(b.status.value) else None,
        if b.location.Some? then Some(NormLocation(b.location.value)) else None))
  }

  /** The stored fields after a patch; identity, image and timestamps are
      handled by the controller. */
  function ApplyPatch(u: User, p: Patch): User {
    u.(firstName := Pick(p.firstName, u.firstName),
       lastName := Pick(p.lastName, u.lastName),
       email := Pick(p.email, u.email),
       mobile := Pick(p.mobile, u.mobile),
       gender := Pick(p.gender, u.gender),
       status := Pick(p.status, u.status),
       location := Pick(p.location, u.location))
  }

  /** An accepted update keeps a valid document valid. */
  lemma {:induction false} ApplyPatchValid(u: User, b: Body)
    requires ValidUser(u)
    requires ValidateUpdate(b).Ok?
    ensures ValidUser(ApplyPatch(u, ValidateUpdate(b).value))
  {
    assert FirstNameErrors(b.firstName, false) == [] && LastNameErrors(b.lastName, false) == [];
    assert EmailErrors(b.email, false) == [] && MobileErrors(b.mobile, false) == [];
    if b.firstName.Some? { TrimSpec(b.firstName.value); }
    if b.lastName.Some? { TrimSpec(b.lastName.value); }
    if b.location.Some? { TrimSpec(b.location.value); }
    if b.email.Some? {
      NormEmailStored(b.email.value);
    }
  }

  /** The body a client sends when it re-submits a stored document's own
      fields (as the inline status change does). */
  function BodyOf(d: Draft): Body {
    Body(Some(d.firstName), Some(d.lastName), Some(d.email), Some(d.mobile),
         Some(GenderName(d.gender)), Some(StatusName(d.status)), Some(d.location))
  }

  /** Re-submitting a valid document's fields is accepted on create and
      reproduces the document: the setters are idempotent on stored values. */
  lemma {:induction false} CreateRoundTrip(d: Draft)
    requires ValidDraft(d)
    ensures ValidateCreate(BodyOf(d)) == Ok(d)
  {
    StoredFieldsPass(d, true);
    StoredEmailFixed(d.email);
    TrimOfTrimmed(d.location);
  }

  /** Re-submitting a stored valid document's fields as an update is
      accepted and changes none of them. */
  lemma {:induction false} UpdateRoundTrip(u: User)
    requires ValidUser(u)
    ensures ValidateUpdate(BodyOf(DraftOf(u))).Ok?
    ensures ApplyPatch(u, ValidateUpdate(BodyOf(DraftOf(u))).value) == u
  {
    StoredFieldsPass(DraftOf(u), false);
    StoredEmailFixed(u.email);
    TrimOfTrimmed(u.location);
  }

  /** Every rule passes on the fields of a valid stored document, and the
      setters leave them unchanged. */
  lemma {:induction false} StoredFieldsPass(d: Draft, creating: bool)
    requires ValidDraft(d)
    ensures NormName(d.firstName) == d.firstName && NormName(d.lastName) == d.lastName
    ensures BodyErrors(BodyOf(d), creating) == []
  {
    TrimOfTrimmed(d.firstName);
    TrimOfTrimmed(d.lastName);
    assert FirstNameErrors(Some(d.firstName), creating) == [];
    assert LastNameErrors(Some(d.lastName), creating) == [];
    StoredEmailPasses(d.email, creating);
    assert MobileErrors(Some(d.mobile), creating) == [];
    assert GenderErrors(Some(GenderName(d.gender)), creating) == [] by {
      GenderRoundTrip(d.gender);
    }
    assert StatusErrors(Some(StatusName(d.status))) == [] by {
      StatusRoundTrip(d.status);
    }
  }

  lemma StoredEmailPasses(e: string, creating: bool)
    requires IsEmailShape(e) && NoUpper(e) && IsTrimmed(e)
    ensures EmailErrors(Some(e), creating) == []
  {
    StoredEmailFixed(e);
    var t := NormEmail(e);
    assert t == e;
    assert IsEmailShape(t);
    assert t != "";
  }

  /** The email setters leave a stored (trimmed, lower-case) email as it is. */
  lemma StoredEmailFixed(e: string)
    requires IsTrimmed(e) && NoUpper(e)
    ensures NormEmail(e) == e
  {
    assert Lower(e) == e;
    TrimOfTrimmed(e);
  }

  /** A firstName that is long enough only because of surrounding white
      space is refused: the length rule is checked after trimming. */
  lemma FirstNameTrimmedBeforeLength()
    ensures FirstNameErrors(Some(" a "), true) == [FieldError("firstName", FirstNameTooShort)]
  {
    assert Trim(" a ") == "a";
  }

  /** On create every required field that is missing is reported, in schema
      order, not just the first. */
  lemma EmptyBodyErrors()
    ensures BodyErrors(Body(None, None, None, None, None, None, None), true)
      == [FieldError("firstName", FirstNameRequired), FieldError("lastName", LastNameRequired),
          FieldError("email", EmailRequired), FieldError("mobile", MobileRequired),
          FieldError("gender", GenderRequired)]
  {}

  /** A create without status or location stores the defaults. */
  lemma {:induction false} CreateDefaults(b: Body)
    requires b.status.None? && b.location.None?
    requires ValidateCreate(b).Ok?
    ensures ValidateCreate(b).value.status == Active
    ensures ValidateCreate(b).value.location == ""
  {}

  /** An update that carries no fields is accepted and changes nothing. */
  lemma EmptyUpdateChangesNothing(u: User)
    ensures ValidateUpdate(Body(None, None, None, None, None, None, None)) == Ok(Patch(None, None, None, None, None, None, None))
    ensures ApplyPatch(u, Patch(None, None, None, None, None, None, None)) == u
  {}
}
