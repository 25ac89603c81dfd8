/** The central error-handling middleware: from a thrown error and the
    status a controller may already have set, the status code and JSON body
    of the error response. */
module ErrorHandler {
  import opened Common

  /** The parts of a thrown error the handler reads. `fieldMessages` are the
      messages of `err.errors` in order; `keyFields` the keys of
      `err.keyValue` in order. */
  datatype Err = Err(
    name: string,
    message: string,
    code: Option<int>,
    fieldMessages: seq<string>,
    keyFields: seq<string>,
    path: string,
    value: string,
    stack: string)

  const DuplicateKeyCode := 11000
  const DefaultMessage := "Internal Server Error"

  /** The error body: `success` is always false; `stack` is present only in
      development mode. */
  datatype ErrorBody = ErrorBody(success: bool, message: string, stack: Option<string>)

  /** What the handler does: send a response, or throw itself (reading the
      first key of an empty `keyValue` is a TypeError). */
  datatype Handled = Respond(status: int, body: ErrorBody) | HandlerThrows

  /** `field.charAt(0).toUpperCase() + field.slice(1)`. */
  function Capitalize(field: string): string {
    if field == [] then [] else [UpperChar(field[0])] + field[1..]
  }

  /** The status before any rule: a response still at 200 becomes 500. */
  function InitialStatus(resStatus: int): int {
    if resStatus == 200 then 500 else resStatus
  }

  /** The message before any rule: `err.message || "Internal Server Error"`. */
  function InitialMessage(err: Err): string {
    if err.message == "" then DefaultMessage else err.message
  }

  predicate IsValidation(err: Err) {
    err.name == "ValidationError"
  }

  predicate IsDuplicateKey(err: Err) {
    err.code == Some(DuplicateKeyCode)
  }

  predicate IsCast(err: Err) {
    err.name == "CastError"
  }

  /** The three rules, applied in order, each overriding what came before. */
  function HandleError(err: Err, resStatus: int, development: bool): Handled {
    var status0 := InitialStatus(resStatus);
    var message0 := InitialMessage(err);
    var (status1, message1) :=
      if IsValidation(err) then (400, Join(err.fieldMessages, ", ")) else (status0, message0);
    if IsDuplicateKey(err) && err.keyFields == [] then HandlerThrows
    else
      var (status2, message2) :=
        if IsDuplicateKey(err) then (400, Capitalize(err.keyFields[0]) + " already exists")
        else (status1, message1);
      var (status3, message3) :=
        if IsCast(err) then (400, "Invalid " + err.path + ": " + err.value)
        else (status2, message2);
      Respond(status3, ErrorBody(false, message3, if development then Some(err.stack) else None))
  }

  /** Every response the handler sends reports failure, and carries the
      stack exactly in development mode. */
  lemma BodyShape(err: Err, resStatus: int, development: bool)
    requires HandleError(err, resStatus, development).Respond?
    ensures HandleError(err, resStatus, development).body.success == false
    ensures HandleError(err, resStatus, development).body.stack.Some? <==> development
    ensures development ==> HandleError(err, resStatus, development).body.stack == Some(err.stack)
  {}

  /** The handler throws only on a duplicate-key error without a key. */
  lemma ThrowsOnlyWithoutKey(err: Err, resStatus: int, development: bool)
    ensures HandleError(err, resStatus, development).HandlerThrows?
      <==> IsDuplicateKey(err) && err.keyFields == []
  {}

  /** An error no rule recognises keeps a status a controller has set
      (e.g. 404), turns an untouched 200 into 500, and reports its own
      message or the generic one. */
  lemma UnrecognisedError(err: Err, resStatus: int, development: bool)
    requires !IsValidation(err) && !IsDuplicateKey(err) && !IsCast(err)
    ensures var h := HandleError(err, resStatus, development);
      && h.Respond?
      && h.status == (if resStatus == 200 then 500 else resStatus)
      && h.body.message == (if err.message == "" then "Internal Server Error" else err.message)
      && h.status != 200
  {}

  /** A validation error gives 400 and all field messages joined by ", ". */
  lemma ValidationRule(err: Err, resStatus: int, development: bool)
    requires IsValidation(err) && !IsDuplicateKey(err)
    ensures var h := HandleError(err, resStatus, development);
      h.Respond? && h.status == 400 && h.body.message == Join(err.fieldMessages, ", ")
  {}

  /** A duplicate key gives 400 "<Field> already exists" from the first key,
      whatever rule matched before it. */
  lemma DuplicateKeyRule(err: Err, resStatus: int, development: bool)
    requires IsDuplicateKey(err) && err.keyFields != [] && !IsCast(err)
    ensures var h := HandleError(err, resStatus, development);
      && h.Respond? && h.status == 400
      && h.body.message == Capitalize(err.keyFields[0]) + " already exists"
  {}

  /** A cast error (a malformed id) gives 400 "Invalid <path>: <value>",
      overriding every earlier rule. */
  lemma CastRule(err: Err, resStatus: int, development: bool)
    requires IsCast(err) && !(IsDuplicateKey(err) && err.keyFields == [])
    ensures var h := HandleError(err, resStatus, development);
      && h.Respond? && h.status == 400
      && h.body.message == "Invalid " + err.path + ": " + err.value
  {}

  /** The status of every response is 400, or the controller's non-200
      status, or 500. */
  lemma StatusRange(err: Err, resStatus: int, development: bool)
    requires HandleError(err, resStatus, development).Respond?
    ensures var s := HandleError(err, resStatus, development).status;
      s == 400 || s == 500 || (s == resStatus && resStatus != 200)
  {}

  /** Capitalize upper-cases only the first character. */
  lemma CapitalizeSpec(field: string)
    ensures |Capitalize(field)| == |field|
    ensures field != [] ==> Capitalize(field)[0] == UpperChar(field[0])
    ensures forall i :: 0 < i < |field| ==> Capitalize(field)[i] == field[i]
  {}

  /** The joined validation message contains every field message. */
  lemma {:induction false} JoinContainsEach(parts: seq<string>, sep: string, k: nat)
    requires k < |parts|
    ensures Contains(Join(parts, sep), parts[k])
    decreases |parts|
  {
    var j := Join(parts, sep);
    if k == 0 {
      assert OccursAt(j, parts[0], 0);
    } else {
      var rest := Join(parts[1..], sep);
      JoinContainsEach(parts[1..], sep, k - 1);
      ContainsAt(rest, parts[k]);
      var i :| OccursAt(rest, parts[k], i);
      var off := |parts[0]| + |sep|;
      assert j == parts[0] + sep + rest;
      assert j[off + i..off + i + |parts[k]|] == rest[i..i + |parts[k]|];
      assert OccursAt(j, parts[k], off + i);
    }
    ContainsAt(j, parts[k]);
  }
}
