/** The add/edit form: its values as an ordered JavaScript object, the
    defaults merged into the blank form and the reset whenever the page
    passes new defaults, the profile preview, and the multipart payload
    built on submit once the form passes the client schema. */
module UserForm {
  import opened Common
  import opened UserModel
  import opened FormData
  import ClientValidation
  import Helpers

  /** A form value as JavaScript holds it. */
  datatype JsValue = Str(s: string) | Null | Undefined

  /** One own property of an object, in insertion order. */
  datatype Field = Field(key: string, value: JsValue)

  /** The blank form: the seven fields, all empty. */
  const Blank: seq<Field> := [
    Field("firstName", Str("")), Field("lastName", Str("")), Field("email", Str("")),
    Field("mobile", Str("")), Field("gender", Str("")), Field("status", Str("")),
    Field("location", Str(""))
  ]

  const ImageField := "profileImage"

  predicate HasKey(obj: seq<Field>, key: string) {
    exists i :: 0 <= i < |obj| && obj[i].key == key
  }

  /** `obj[key]`, None for a key the object does not have. */
  function Get(obj: seq<Field>, key: string): (r: Option<JsValue>)
    ensures r.Some? <==> HasKey(obj, key)
  {
    if obj == [] then None
    else if obj[0].key == key then Some(obj[0].value)
    else
      assert forall i :: 0 < i < |obj| ==> obj[i] == obj[1..][i - 1];
      Get(obj[1..], key)
  }

  predicate DistinctKeys(obj: seq<Field>) {
    forall i, j :: 0 <= i < j < |obj| ==> obj[i].key != obj[j].key
  }

  /** The properties of `base`, each overridden by `over` where `over` has
      the key. */
  function Overlay(base: seq<Field>, over: seq<Field>): (r: seq<Field>)
    ensures |r| == |base| && forall i :: 0 <= i < |base| ==> r[i].key == base[i].key
  {
    if base == [] then []
    else
      var v := Get(over, base[0].key);
      [Field(base[0].key, if v.Some? then v.value else base[0].value)] + Overlay(base[1..], over)
  }

  /** The properties of `over` whose keys `base` lacks, in order. */
  function NewKeys(base: seq<Field>, over: seq<Field>): seq<Field> {
    if over == [] then []
    else (if HasKey(base, over[0].key) then [] else [over[0]]) + NewKeys(base, over[1..])
  }

  /** `{...base, ...over}`. */
  function Merge(base: seq<Field>, over: seq<Field>): seq<Field> {
    Overlay(base, over) + NewKeys(base, over)
  }

  lemma {:induction false} GetAppend(a: seq<Field>, b: seq<Field>, key: string)
    ensures Get(a + b, key) == if HasKey(a, key) then Get(a, key) else Get(b, key)
  {
    if a != [] {
      assert (a + b)[1..] == a[1..] + b;
      if a[0].key != key {
        GetAppend(a[1..], b, key);
        assert HasKey(a, key) <==> HasKey(a[1..], key) by {
          assert forall i :: 0 < i < |a| ==> a[i] == a[1..][i - 1];
        }
      }
    } else {
      assert a + b == b;
    }
  }

  lemma {:induction false} GetOverlay(base: seq<Field>, over: seq<Field>, key: string)
    ensures Get(Overlay(base, over), key)
         == if !HasKey(base, key) then None else if HasKey(over, key) then Get(over, key) else Get(base, key)
  {
    if base != [] {
      GetOverlay(base[1..], over, key);
      assert forall i :: 0 < i < |base| ==> base[i] == base[1..][i - 1];
    }
  }

  lemma {:induction false} GetNewKeys(base: seq<Field>, over: seq<Field>, key: string)
    ensures Get(NewKeys(base, over), key) == if HasKey(base, key) then None else Get(over, key)
  {
    if over != [] {
      GetNewKeys(base, over[1..], key);
      var head := if HasKey(base, over[0].key) then [] else [over[0]];
      GetAppend(head, NewKeys(base, over[1..]), key);
    }
  }

  /** Spread semantics: the merged object has every key of either, the
      keys of `base` first and in their order, and a key's value comes from
      `over` when `over` has it. */
  lemma MergeSpec(base: seq<Field>, over: seq<Field>, key: string)
    ensures Get(Merge(base, over), key) == if HasKey(over, key) then Get(over, key) else Get(base, key)
    ensures forall i :: 0 <= i < |base| ==> Merge(base, over)[i].key == base[i].key
  {
    GetAppend(Overlay(base, over), NewKeys(base, over), key);
    GetOverlay(base, over, key);
    GetNewKeys(base, over, key);
  }

  /** Defaults that are not empty replace the form values outright;
      empty ones leave them. */
  function ResetTo(current: seq<Field>, defaults: seq<Field>): (r: seq<Field>)
    ensures |defaults| > 0 ==> r == defaults
    ensures |defaults| == 0 ==> r == current
  {
    if |defaults| > 0 then defaults else current
  }

  /** A truthy string, as `if (value)` tests it. */
  predicate Truthy(v: Option<JsValue>) {
    v.Some? && v.value.Str? && v.value.s != ""
  }

  /** The form value of a text field as the schema sees it: null,
      undefined and a missing key are all absent. */
  function StrValue(obj: seq<Field>, key: string): Option<string> {
    match Get(obj, key)
    case Some(Str(s)) => Some(s)
    case _ => None
  }

  function FormBody(values: seq<Field>): Body {
    Body(StrValue(values, "firstName"), StrValue(values, "lastName"), StrValue(values, "email"),
         StrValue(values, "mobile"), StrValue(values, "gender"), StrValue(values, "status"),
         StrValue(values, "location"))
  }

  /** The text parts of the submitted values: one per string value, in
      property order; null and undefined are skipped. */
  function TextParts(data: seq<Field>): seq<Part> {
    if data == [] then []
    else (if data[0].value.Str? then [Text(data[0].key, data[0].value.s)] else []) + TextParts(data[1..])
  }

  /** The whole payload: the text parts, then the chosen file, if any. */
  function Payload(data: seq<Field>, file: Option<string>): seq<Part> {
    TextParts(data) + (if file.Some? then [File(ImageField, file.value)] else [])
  }

  lemma {:induction false} TextPartsAppend(a: seq<Field>, b: seq<Field>)
    ensures TextParts(a + b) == TextParts(a) + TextParts(b)
  {
    if a == [] {
      assert a + b == b;
    } else {
      assert (a + b)[1..] == a[1..] + b;
      TextPartsAppend(a[1..], b);
    }
  }

  /** `handleFormSubmit`'s FormData: each defined, non-null value in turn,
      then the file. */
  method BuildPayload(data: seq<Field>, file: Option<string>) returns (form: seq<Part>)
    ensures form == Payload(data, file)
  {
    form := [];
    var i := 0;
    while i < |data|
      invariant 0 <= i <= |data|
      invariant form == TextParts(data[..i])
    {
      var f := data[i];
      if f.value.Str? {
        form := form + [Text(f.key, f.value.s)];
      }
      TextPartsAppend(data[..i], [f]);
      assert data[..i + 1] == data[..i] + [f];
      i := i + 1;
    }
    assert data[..i] == data;
    if file.Some? {
      form := form + [File(ImageField, file.value)];
    }
  }

  /** Only string values become parts, and a chosen file is the one file
      part, last. */
  lemma {:induction false} PayloadShape(data: seq<Field>, file: Option<string>)
    ensures forall i :: 0 <= i < |TextParts(data)| ==> TextParts(data)[i].Text?
    ensures |TextParts(data)| <= |data|
    ensures file.None? ==> !HasFile(Payload(data, file), ImageField)
    ensures file.Some? ==> Payload(data, file)[|Payload(data, file)| - 1] == File(ImageField, file.value)
  {
    if data != [] {
      PayloadShape(data[1..], file);
    }
  }

  lemma {:induction false} TextValueOfParts(data: seq<Field>, key: string)
    requires DistinctKeys(data)
    ensures TextValue(TextParts(data), key) == StrValue(data, key)
  {
    if data != [] {
      var head := if data[0].value.Str? then [Text(data[0].key, data[0].value.s)] else [];
      assert TextParts(data) == head + TextParts(data[1..]);
      assert DistinctKeys(data[1..]) by {
        forall a, b | 0 <= a < b < |data| - 1 ensures data[1..][a].key != data[1..][b].key {
          assert data[1..][a] == data[a + 1] && data[1..][b] == data[b + 1];
        }
      }
      TextValueOfParts(data[1..], key);
      if head == [] {
        assert TextParts(data) == TextParts(data[1..]);
      } else {
        assert (head + TextParts(data[1..]))[1..] == TextParts(data[1..]);
      }
      if data[0].key == key && !data[0].value.Str? {
        assert !HasKey(data[1..], key) by {
          forall i | 0 <= i < |data| - 1 ensures data[1..][i].key != key {
            assert data[1..][i] == data[i + 1];
          }
        }
        assert Get(data[1..], key).None?;
      }
    }
  }

  lemma {:induction false} TextValueSkipsFile(parts: seq<Part>, f: string, key: string)
    ensures TextValue(parts + [File(ImageField, f)], key) == TextValue(parts, key)
  {
    if parts == [] {
      assert [File(ImageField, f)][1..] == [];
    } else {
      assert (parts + [File(ImageField, f)])[1..] == parts[1..] + [File(ImageField, f)];
      TextValueSkipsFile(parts[1..], f, key);
    }
  }

  /** The server reads from the payload exactly the text fields the client
      validated; extra properties and the file do not disturb them. */
  lemma ServerReadsForm(data: seq<Field>, file: Option<string>)
    requires DistinctKeys(data)
    ensures BodyOfForm(Payload(data, file)) == FormBody(data)
  {
    forall key: string ensures TextValue(Payload(data, file), key) == StrValue(data, key) {
      TextValueOfParts(data, key);
      if file.Some? {
        TextValueSkipsFile(TextParts(data), file.value, key);
      } else {
        assert Payload(data, file) == TextParts(data);
      }
    }
  }

  /** The edit page's defaults for a stored user: each field as stored,
      and the image path or null. */
  function EditDefaults(u: User): seq<Field> {
    [Field("firstName", Str(u.firstName)), Field("lastName", Str(u.lastName)),
     Field("email", Str(u.email)), Field("mobile", Str(u.mobile)),
     Field("gender", Str(GenderName(u.gender))), Field("status", Str(StatusName(u.status))),
     Field("location", Str(u.location)),
     Field(ImageField, if u.profileImage.Some? && u.profileImage.value != "" then Str(u.profileImage.value) else Null)]
  }

  lemma EditDefaultsDistinct(u: User)
    ensures DistinctKeys(EditDefaults(u))
  {
    var d := EditDefaults(u);
    forall i, j | 0 <= i < j < |d| ensures d[i].key != d[j].key {
      if d[i].key[0] == d[j].key[0] {
        assert d[i].key[1] != d[j].key[1];
      }
    }
  }

  /** A property no earlier property shares a key with is the one `Get`
      finds. */
  lemma {:induction false} GetAt(obj: seq<Field>, i: nat)
    requires i < |obj|
    requires forall j :: 0 <= j < i ==> obj[j].key != obj[i].key
    ensures Get(obj, obj[i].key) == Some(obj[i].value)
  {
    if i > 0 {
      assert obj[1..][i - 1] == obj[i];
      GetAt(obj[1..], i - 1);
    }
  }

  lemma EditDefaultsGet(u: User, i: nat)
    requires i < |EditDefaults(u)|
    ensures Get(EditDefaults(u), EditDefaults(u)[i].key) == Some(EditDefaults(u)[i].value)
  {
    EditDefaultsDistinct(u);
    GetAt(EditDefaults(u), i);
  }

  lemma EditDefaultsBody(u: User)
    ensures FormBody(EditDefaults(u)) == BodyOf(DraftOf(u))
  {
    EditDefaultsGet(u, 0);
    EditDefaultsGet(u, 1);
    EditDefaultsGet(u, 2);
    EditDefaultsGet(u, 3);
    EditDefaultsGet(u, 4);
    EditDefaultsGet(u, 5);
    EditDefaultsGet(u, 6);
  }

  /** Submitting the edit form of a stored valid user unchanged passes the
      client schema (given that the library accepts the stored e-mail),
      passes the server's update validation, and changes no field. */
  lemma UnchangedEditRoundTrip(u: User, isEmail: string -> bool, file: Option<string>)
    requires ValidUser(u) && isEmail(u.email)
    ensures ClientValidation.ClientValid(FormBody(EditDefaults(u)), isEmail)
    ensures var b := BodyOfForm(Payload(EditDefaults(u), file));
      ValidateUpdate(b).Ok? && ApplyPatch(u, ValidateUpdate(b).value) == u
  {
    EditDefaultsDistinct(u);
    EditDefaultsBody(u);
    ServerReadsForm(EditDefaults(u), file);
    UpdateRoundTrip(u);
    var g := GenderName(u.gender);
    assert g in ClientValidation.GenderOptions;
    assert StatusName(u.status) in ClientValidation.StatusOptions;
  }

  /** The form component's state. */
  class UserFormState {
    var values: seq<Field>
    var previewImage: Option<string>

    /** The initial values: the blank form overridden by the defaults. */
    constructor (defaults: seq<Field>)
      ensures values == Merge(Blank, defaults) && previewImage == None
    {
      values := Merge(Blank, defaults);
      previewImage := None;
    }

    /** The effect on `[defaultValues, reset]`: reset to non-empty
        defaults, and preview an existing image at its full address. It runs
        on mount and whenever the page passes a new defaults object; the
        edit page builds a fresh one on every render it makes. */
    method ApplyDefaults(defaults: seq<Field>, baseUrl: string)
      modifies this
      ensures values == ResetTo(old(values), defaults)
      ensures Truthy(Get(defaults, ImageField)) ==>
        previewImage == Helpers.GetProfileImageUrl(baseUrl, Some(Get(defaults, ImageField).value.s))
      ensures !Truthy(Get(defaults, ImageField)) ==> previewImage == old(previewImage)
    {
      if |defaults| > 0 {
        values := defaults;
      }
      var image := Get(defaults, ImageField);
      if Truthy(image) {
        previewImage := Helpers.GetProfileImageUrl(baseUrl, Some(image.value.s));
      }
    }

    /** A newly chosen file is previewed from its data address. */
    method ImageChosen(dataUrl: string)
      modifies this
      ensures previewImage == Some(dataUrl) && values == old(values)
    {
      previewImage := Some(dataUrl);
    }

    /** `handleSubmit(handleFormSubmit)`: the payload handed to the page,
        only when the values pass the client schema. */
    method Submit(isEmail: string -> bool, file: Option<string>) returns (payload: Option<seq<Part>>)
      ensures payload.Some? <==> ClientValidation.Validate(ClientValidation.UserSchema, FormBody(values), isEmail) == []
      ensures payload.Some? ==> payload.value == Payload(values, file)
    {
      if ClientValidation.Validate(ClientValidation.UserSchema, FormBody(values), isEmail) != [] {
        return None;
      }
      var form := BuildPayload(values, file);
      payload := Some(form);
    }

    /** A submission on the edit page. A payload that passes the client
        schema is handed to the page, whose `setSubmitting(true)` and, once
        the request settles, `setSubmitting(false)` each re-render it with a
        fresh defaults object, so the effect resets the form to the stored
        record twice. Whatever the server answers, what was typed is gone
        and the stored image is previewed again. A submission the schema
        refuses never reaches the page and changes nothing. */
    method SubmitOnEditPage(u: User, isEmail: string -> bool, file: Option<string>, baseUrl: string)
      returns (payload: Option<seq<Part>>)
      modifies this
      ensures payload.Some? <==> ClientValidation.Validate(ClientValidation.UserSchema, FormBody(old(values)), isEmail) == []
      ensures payload.Some? ==> payload.value == Payload(old(values), file)
      ensures payload.None? ==> values == old(values) && previewImage == old(previewImage)
      ensures payload.Some? ==> values == EditDefaults(u)
      ensures payload.Some? && u.profileImage.Some? && u.profileImage.value != "" ==>
        previewImage == Some(baseUrl + u.profileImage.value)
      ensures payload.Some? && !(u.profileImage.Some? && u.profileImage.value != "") ==>
        previewImage == old(previewImage)
    {
      payload := Submit(isEmail, file);
      if payload.Some? {
        var d := EditDefaults(u);
        EditImageShown(u);
        if u.profileImage.Some? && u.profileImage.value != "" {
          EditPreview(u, baseUrl);
        }
        ApplyDefaults(d, baseUrl);
        ApplyDefaults(d, baseUrl);
      }
    }
  }

  /** When every value is a string, each property becomes one text part,
      in order. */
  lemma {:induction false} AllStrTextParts(data: seq<Field>)
    requires forall i :: 0 <= i < |data| ==> data[i].value.Str?
    ensures |TextParts(data)| == |data|
    ensures forall i :: 0 <= i < |data| ==> TextParts(data)[i] == Text(data[i].key, data[i].value.s)
  {
    if data != [] {
      AllStrTextParts(data[1..]);
      assert TextParts(data) == [Text(data[0].key, data[0].value.s)] + TextParts(data[1..]);
      forall i | 1 <= i < |data| ensures TextParts(data)[i] == Text(data[i].key, data[i].value.s) {
        assert data[1..][i - 1] == data[i];
      }
    }
  }

  /** After the edit page's reset, whatever had been typed, the form reads
      back exactly the stored record. */
  lemma EditResetDiscards(u: User, typed: seq<Field>)
    ensures ResetTo(typed, EditDefaults(u)) == EditDefaults(u)
    ensures FormBody(ResetTo(typed, EditDefaults(u))) == BodyOf(DraftOf(u))
  {
    EditDefaultsBody(u);
  }

  /** Editing a user with a stored image and choosing a new file sends the
      name `profileImage` twice: the stored path as text, then the file.
      The server reads only the seven text fields, so it still reads the
      record's own fields. */
  lemma EditPayloadRepeatsImage(u: User, f: string)
    requires u.profileImage.Some? && u.profileImage.value != ""
    ensures var p := Payload(EditDefaults(u), Some(f));
      && |p| == 9 && p[7] == Text(ImageField, u.profileImage.value) && p[8] == File(ImageField, f)
      && !DistinctNames(p)
      && BodyOfForm(p) == BodyOf(DraftOf(u))
  {
    var d := EditDefaults(u);
    var p := Payload(d, Some(f));
    AllStrTextParts(d);
    assert p == TextParts(d) + [File(ImageField, f)];
    assert p[7].name == p[8].name;
    EditDefaultsDistinct(u);
    EditDefaultsBody(u);
    ServerReadsForm(d, Some(f));
  }

  /** The edit defaults carry a truthy image exactly when the record has a
      non-empty image path. */
  lemma EditImageShown(u: User)
    ensures Truthy(Get(EditDefaults(u), ImageField)) <==> u.profileImage.Some? && u.profileImage.value != ""
  {
    EditDefaultsDistinct(u);
    GetAt(EditDefaults(u), 7);
  }

  /** An existing image in the edit defaults is previewed at its full
      address. */
  lemma EditPreview(u: User, baseUrl: string)
    requires u.profileImage.Some? && u.profileImage.value != ""
    ensures Truthy(Get(EditDefaults(u), ImageField))
    ensures Helpers.GetProfileImageUrl(baseUrl, Some(Get(EditDefaults(u), ImageField).value.s))
         == Some(baseUrl + u.profileImage.value)
  {
    var d := EditDefaults(u);
    EditDefaultsDistinct(u);
    GetAt(d, 7);
  }
}
