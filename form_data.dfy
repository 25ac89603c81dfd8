/** The multipart body the pages send to the server: a list of parts
    appended in order, text fields and at most a file. On the server the
    upload middleware turns the text parts into the request body and the
    file part named by the route into the uploaded file. */
module FormData {
  import opened Common
  import opened UserModel

  datatype Part = Text(name: string, value: string) | File(name: string, file: string)

  /** `formData.append` of each part in turn. */
  method AppendAll(form: seq<Part>, parts: seq<Part>) returns (r: seq<Part>)
    ensures r == form + parts
  {
    r := form;
    var i := 0;
    while i < |parts|
      invariant 0 <= i <= |parts|
      invariant r == form + parts[..i]
    {
      r := r + [parts[i]];
      i := i + 1;
    }
    assert parts[..i] == parts;
  }

  /** A text part of the given name. */
  predicate IsTextOf(p: Part, name: string) {
    p.Text? && p.name == name
  }

  /** The value of the first text part of a name, if any. */
  function TextValue(form: seq<Part>, name: string): Option<string> {
    if form == [] then None
    else if IsTextOf(form[0], name) then Some(form[0].value)
    else TextValue(form[1..], name)
  }

  /** TextValue finds a text part of the name exactly when there is one,
      and then it is the value of the first such part. */
  lemma {:induction false} TextValueSpec(form: seq<Part>, name: string)
    ensures var r := TextValue(form, name);
      && (r.None? <==> forall i :: 0 <= i < |form| ==> !IsTextOf(form[i], name))
      && (r.Some? ==> exists i :: 0 <= i < |form| && form[i] == Text(name, r.value)
                                  && forall j :: 0 <= j < i ==> !IsTextOf(form[j], name))
  {
    if form != [] && !IsTextOf(form[0], name) {
      TextValueSpec(form[1..], name);
      var r := TextValue(form[1..], name);
      assert forall i :: 0 < i < |form| ==> form[i] == form[1..][i - 1];
      if r.Some? {
        var k :| 0 <= k < |form| - 1 && form[1..][k] == Text(name, r.value)
                 && forall j :: 0 <= j < k ==> !IsTextOf(form[1..][j], name);
        assert form[k + 1] == Text(name, r.value) && forall j :: 0 <= j < k + 1 ==> !IsTextOf(form[j], name);
      }
    }
  }

  /** Whether the form carries a file under a name. */
  predicate HasFile(form: seq<Part>, name: string) {
    exists i :: 0 <= i < |form| && form[i].File? && form[i].name == name
  }

  /** The request body the controller reads: the seven text fields it
      destructures; any other part is ignored. */
  function BodyOfForm(form: seq<Part>): Body {
    Body(TextValue(form, "firstName"), TextValue(form, "lastName"), TextValue(form, "email"),
         TextValue(form, "mobile"), TextValue(form, "gender"), TextValue(form, "status"),
         TextValue(form, "location"))
  }

  /** No two parts share a name. */
  predicate DistinctNames(form: seq<Part>) {
    forall i, j :: 0 <= i < j < |form| ==> form[i].name != form[j].name
  }

  /** A text part no earlier part shares a name with is the one the
      server reads. */
  lemma TextValueAt(form: seq<Part>, i: nat)
    requires i < |form| && form[i].Text?
    requires forall j :: 0 <= j < i ==> form[j].name != form[i].name
    ensures TextValue(form, form[i].name) == Some(form[i].value)
  {
    TextValueSpec(form, form[i].name);
    var r := TextValue(form, form[i].name);
    assert r.Some?;
    var k :| 0 <= k < |form| && form[k] == Text(form[i].name, r.value)
             && forall j :: 0 <= j < k ==> !IsTextOf(form[j], form[i].name);
    if k < i {
      assert form[k].name != form[i].name;
    }
  }
}
