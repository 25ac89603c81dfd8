/** The record service behind `/api/users`: create, list, get, update,
    delete and export, over a store of user documents and the set of image
    files on disk. Each handler is a function from the store (and the
    request) to the new store and its outcome; `UserStore` performs the
    writing handlers step by step on mutable state and is proved to agree
    with those functions. */
module UserController {
  import opened Common
  import opened UserModel
  import opened ErrorHandler
  import opened ListQuery
  import CsvExporter

  /** The `:id` route parameter: a string that casts to an id names a store
      id; any other string cannot be cast. */
  datatype IdArg = WellFormed(id: nat) | Malformed(raw: string)

  /** How a handler ends: it responds with a value, or it passes an error to
      `next` with the response status set so far (200 unless it set one). */
  datatype Outcome<+T> = Done(value: T) | Thrown(status: int, err: Err)

  const NotFoundMessage := "User not found"
  const NoUsersMessage := "No users found to export"
  const CreatePrefix := "User validation failed: "
  const UpdatePrefix := "Validation failed: "

  /** `new Error(message)`. */
  function PlainError(message: string): Err {
    Err("Error", message, None, [], [], "", "", "")
  }

  /** The error of `findById` on an id that is not an ObjectId. */
  function CastError(raw: string): Err {
    Err("CastError",
        "Cast to ObjectId failed for value \"" + raw + "\" (type string) at path \"_id\" for model \"User\"",
        None, [], [], "_id", raw, "")
  }

  function FieldMessages(errors: seq<FieldError>): seq<string> {
    seq(|errors|, i requires 0 <= i < |errors| => errors[i].message)
  }

  function Described(errors: seq<FieldError>): seq<string> {
    seq(|errors|, i requires 0 <= i < |errors| => errors[i].path + ": " + errors[i].message)
  }

  /** The error document validation raises, listing every violated rule. */
  function ValidationFailure(prefix: string, errors: seq<FieldError>): Err {
    Err("ValidationError", prefix + Join(Described(errors), ", "), None,
        FieldMessages(errors), [], "", "", "")
  }

  /** The store's refusal of a write that breaks the unique index on `key`. */
  function DuplicateKeyFailure(key: string): Err {
    Err("MongoServerError", "E11000 duplicate key error collection: users index: " + key + "_1",
        Some(DuplicateKeyCode), [], [key], "", "", "")
  }

  /** The store's refusal of a negative `skip`, with a fixed message text:
      the store's own text also names the value given. */
  const NegativeSkipFailure := Err("MongoServerError", "BSON field 'skip' value must be >= 0",
                                   None, [], [], "", "", "")

  /** The store: the documents in insertion order, the image paths present
      on disk, and the next id to hand out. */
  datatype Db = Db(users: seq<User>, images: set<string>, nextId: nat)

  /** No two documents share an id, an email or a mobile number. */
  predicate DistinctKeys(users: seq<User>) {
    forall i, j :: 0 <= i < |users| && 0 <= j < |users| && i != j ==>
      users[i].id != users[j].id && users[i].email != users[j].email && users[i].mobile != users[j].mobile
  }

  /** The store invariant: the unique indexes hold, ids are below the next
      one, every document satisfies the schema, and documents are kept in
      creation order. */
  predicate ValidDb(db: Db) {
    && DistinctKeys(db.users)
    && (forall i :: 0 <= i < |db.users| ==> db.users[i].id < db.nextId)
    && (forall i :: 0 <= i < |db.users| ==> ValidUser(db.users[i]))
    && Chronological(db.users)
  }

  /** The clock reading `now` is not earlier than any creation time. */
  predicate ClockAfter(db: Db, now: int) {
    forall i :: 0 <= i < |db.users| ==> db.users[i].createdAt <= now
  }

  /** The path a record stores for an uploaded file. */
  function UploadPath(filename: string): string {
    "/uploads/" + filename
  }

  function ImageOf(file: Option<string>): Option<string> {
    if file.Some? then Some(UploadPath(file.value)) else None
  }

  /** The files on disk once the upload middleware has stored the request's
      file, before the handler runs. */
  function WithUpload(images: set<string>, file: Option<string>): set<string> {
    if file.Some? then images + {UploadPath(file.value)} else images
  }

  /** The record names an image file (a truthy `profileImage`). */
  predicate HasImage(u: User) {
    u.profileImage.Some? && u.profileImage.value != ""
  }

  /** The position of the first record with this id. */
  function IndexOf(users: seq<User>, id: nat): (r: Option<nat>)
    ensures r.Some? ==> r.value < |users| && users[r.value].id == id
    ensures r.Some? ==> forall j :: 0 <= j < r.value ==> users[j].id != id
    ensures r.None? ==> forall j :: 0 <= j < |users| ==> users[j].id != id
  {
    if users == [] then None
    else if users[0].id == id then Some(0)
    else match IndexOf(users[1..], id)
      case None => None
      case Some(k) => Some(k + 1)
  }

  /** `User.findById`: a malformed id fails to cast; a well-formed one finds
      its record or nothing. */
  function FindById(users: seq<User>, id: IdArg): Result<Option<nat>, Err> {
    match id
    case Malformed(raw) => Failed(CastError(raw))
    case WellFormed(n) => Ok(IndexOf(users, n))
  }

  predicate EmailTaken(users: seq<User>, email: string, except: Option<nat>) {
    exists i :: 0 <= i < |users| && users[i].email == email && Some(users[i].id) != except
  }

  predicate MobileTaken(users: seq<User>, mobile: string, except: Option<nat>) {
    exists i :: 0 <= i < |users| && users[i].mobile == mobile && Some(users[i].id) != except
  }

  /** The unique index a write of `u` would break, other than by the record
      `except` itself; the email index is checked before the mobile one. */
  function Conflict(users: seq<User>, u: User, except: Option<nat>): Option<string> {
    if EmailTaken(users, u.email, except) then Some("email")
    else if MobileTaken(users, u.mobile, except) then Some("mobile")
    else None
  }

  /** The new state of the store and the handler's outcome. */
  datatype Step<+T> = Step(db: Db, out: Outcome<T>)

  /** The document `User.create` stores: the validated fields, the image if
      a file came with the request (null otherwise), both timestamps now. */
  function NewUser(id: nat, d: Draft, image: Option<string>, now: int): User {
    User(id, d.firstName, d.lastName, d.email, d.mobile, d.gender, d.status, d.location, image, now, now)
  }

  /** `createUser`. */
  function CreateUser(db: Db, body: Body, file: Option<string>, now: int): Step<User> {
    var images := WithUpload(db.images, file);
    match ValidateCreate(body)
    case Failed(errors) => Step(db.(images := images), Thrown(200, ValidationFailure(CreatePrefix, errors)))
    case Ok(d) =>
      var u := NewUser(db.nextId, d, ImageOf(file), now);
      match Conflict(db.users, u, None)
      case Some(key) => Step(db.(images := images), Thrown(200, DuplicateKeyFailure(key)))
      case None => Step(Db(db.users + [u], images, db.nextId + 1), Done(u))
  }

  /** `getUserById`. */
  function GetUserById(db: Db, id: IdArg): Outcome<User> {
    match FindById(db.users, id)
    case Failed(e) => Thrown(200, e)
    case Ok(None) => Thrown(404, PlainError(NotFoundMessage))
    case Ok(Some(i)) => Done(db.users[i])
  }

  /** The document `findByIdAndUpdate` writes: the patched fields, the new
      image if a file came with the request, the update time now. */
  function Updated(u: User, p: Patch, file: Option<string>, now: int): User {
    ApplyPatch(u, p).(profileImage := if file.Some? then ImageOf(file) else u.profileImage,
                      updatedAt := now)
  }

  /** `updateUser`, as written: the old image is unlinked as soon as a file
      has come with the request, before validation and the write. */
  function UpdateUser(db: Db, id: IdArg, body: Body, file: Option<string>, now: int): Step<User> {
    var uploaded := WithUpload(db.images, file);
    match FindById(db.users, id)
    case Failed(e) => Step(db.(images := uploaded), Thrown(200, e))
    case Ok(None) => Step(db.(images := uploaded), Thrown(404, PlainError(NotFoundMessage)))
    case Ok(Some(i)) =>
      var current := db.users[i];
      var images := if file.Some? && HasImage(current) then uploaded - {current.profileImage.value} else uploaded;
      match ValidateUpdate(body)
      case Failed(errors) => Step(db.(images := images), Thrown(200, ValidationFailure(UpdatePrefix, errors)))
      case Ok(p) =>
        var u := Updated(current, p, file, now);
        match Conflict(db.users, u, Some(current.id))
        case Some(key) => Step(db.(images := images), Thrown(200, DuplicateKeyFailure(key)))
        case None => Step(db.(users := db.users[i := u], images := images), Done(u))
  }

  /** `deleteUser`. */
  function DeleteUser(db: Db, id: IdArg): Step<()> {
    match FindById(db.users, id)
    case Failed(e) => Step(db, Thrown(200, e))
    case Ok(None) => Step(db, Thrown(404, PlainError(NotFoundMessage)))
    case Ok(Some(i)) =>
      var current := db.users[i];
      var images := if HasImage(current) then db.images - {current.profileImage.value} else db.images;
      Step(db.(users := db.users[..i] + db.users[i + 1..], images := images), Done(()))
  }

  /** `exportToCSV`. */
  function ExportToCsv(db: Db): Outcome<CsvExporter.Csv> {
    var users := NewestFirst(db.users);
    if |users| == 0 then Thrown(404, PlainError(NoUsersMessage))
    else Done(CsvExporter.ExportUsersToCsv(users))
  }

  /** The query string of a list request. */
  datatype Query = Query(page: Option<string>, limit: Option<string>, search: Option<string>)

  datatype PageInfo = PageInfo(totalRecords: nat, totalPages: int, currentPage: int, pageSize: int)

  datatype Listing = Listing(data: seq<User>, pagination: PageInfo)

  /** The search term of a list request: `req.query.search || ""`. */
  function SearchOf(q: Query): string {
    if q.search.Some? then q.search.value else ""
  }

  /** `getUsers`: the page and limit read from the query, a negative skip
      refused by the store, otherwise the page of matching records. */
  function GetUsers(db: Db, q: Query): Outcome<Listing> {
    var page := QueryInt(q.page, 1);
    var limit := QueryInt(q.limit, 10);
    if Skip(page, limit) < 0 then Thrown(200, NegativeSkipFailure)
    else
      QueryIntNonZero(q.limit, 10);
      Done(PageOfUsers(db.users, page, limit, SearchOf(q)))
  }

  /** The find and the count of `getUsers` for a page, a non-zero limit and
      a search whose skip is not negative. */
  function PageOfUsers(users: seq<User>, page: int, limit: int, search: string): Listing
    requires limit != 0 && Skip(page, limit) >= 0
  {
    var total := |Filter(users, search)|;
    Listing(
      Window(Filter(NewestFirst(users), search), Skip(page, limit), limit),
      PageInfo(total, CeilDiv(total, limit), page, limit))
  }

  /** The store as mutable state. */
  class UserStore {
    var users: seq<User>
    var images: set<string>
    var nextId: nat

    function State(): Db
      reads this
    {
      Db(users, images, nextId)
    }

    /** An empty collection beside the files already on disk. */
    constructor (files: set<string>)
      ensures State() == Db([], files, 0)
      ensures ValidDb(State())
    {
      users, images, nextId := [], files, 0;
    }

    /** The upload middleware writes the request's file before the
        handler runs. */
    method StoreUpload(file: Option<string>)
      modifies this
      ensures State() == old(State()).(images := WithUpload(old(images), file))
    {
      if file.Some? {
        images := images + {UploadPath(file.value)};
      }
    }

    /** `User.create` once validation and the unique indexes pass. */
    method Insert(u: User)
      modifies this
      ensures State() == Db(old(users) + [u], old(images), old(nextId) + 1)
    {
      users := users + [u];
      nextId := nextId + 1;
    }

    method Create(body: Body, file: Option<string>, now: int) returns (out: Outcome<User>)
      modifies this
      ensures Step(State(), out) == CreateUser(old(State()), body, file, now)
      ensures old(ValidDb(State())) && ClockAfter(old(State()), now) ==> ValidDb(State())
    {
      ghost var before := State();
      ghost var after := CreateUser(before, body, file, now);
      StoreUpload(file);
      var checked := ValidateCreate(body);
      if checked.Failed? {
        out := Thrown(200, ValidationFailure(CreatePrefix, checked.error));
      } else {
        var u := NewUser(nextId, checked.value, ImageOf(file), now);
        var key := Conflict(users, u, None);
        if key.Some? {
          out := Thrown(200, DuplicateKeyFailure(key.value));
        } else {
          Insert(u);
          out := Done(u);
        }
      }
      assert Step(State(), out) == after;
      if ValidDb(before) && ClockAfter(before, now) {
        CreatePreservesValid(before, body, file, now);
      }
    }

    method Update(id: IdArg, body: Body, file: Option<string>, now: int) returns (out: Outcome<User>)
      modifies this
      ensures Step(State(), out) == UpdateUser(old(State()), id, body, file, now)
      ensures old(ValidDb(State())) ==> ValidDb(State())
    {
      ghost var before := State();
      ghost var after := UpdateUser(before, id, body, file, now);
      StoreUpload(file);
      var found := FindById(users, id);
      if found.Failed? {
        out := Thrown(200, found.error);
      } else if found.value.None? {
        out := Thrown(404, PlainError(NotFoundMessage));
      } else {
        var i := found.value.value;
        var current := users[i];
        if file.Some? && HasImage(current) {
          images := images - {current.profileImage.value};
        }
        var checked := ValidateUpdate(body);
        if checked.Failed? {
          out := Thrown(200, ValidationFailure(UpdatePrefix, checked.error));
        } else {
          var u := Updated(current, checked.value, file, now);
          var key := Conflict(users, u, Some(current.id));
          if key.Some? {
            out := Thrown(200, DuplicateKeyFailure(key.value));
          } else {
            users := users[i := u];
            out := Done(u);
          }
        }
      }
      assert Step(State(), out) == after;
      if ValidDb(before) {
        UpdatePreservesValid(before, id, body, file, now);
      }
    }

    method Delete(id: IdArg) returns (out: Outcome<()>)
      modifies this
      ensures Step(State(), out) == DeleteUser(old(State()), id)
      ensures old(ValidDb(State())) ==> ValidDb(State())
    {
      ghost var before := State();
      ghost var after := DeleteUser(before, id);
      var found := FindById(users, id);
      if found.Failed? {
        out := Thrown(200, found.error);
      } else if found.value.None? {
        out := Thrown(404, PlainError(NotFoundMessage));
      } else {
        var i := found.value.value;
        var current := users[i];
        if HasImage(current) {
          images := images - {current.profileImage.value};
        }
        users := users[..i] + users[i + 1..];
        out := Done(());
      }
      assert Step(State(), out) == after;
      if ValidDb(before) {
        DeletePreservesValid(before, id);
      }
    }
  }

  // ---------------------------------------------------------------------
  // The store invariant

  lemma CreatePreservesValid(db: Db, body: Body, file: Option<string>, now: int)
    requires ValidDb(db) && ClockAfter(db, now)
    ensures ValidDb(CreateUser(db, body, file, now).db)
  {
    var r := CreateUser(db, body, file, now);
    if r.out.Done? {
      var d := ValidateCreate(body).value;
      var u := NewUser(db.nextId, d, ImageOf(file), now);
      assert r.db == Db(db.users + [u], WithUpload(db.images, file), db.nextId + 1);
      assert ValidUser(u) by {
        assert DraftOf(u) == d;
      }
      assert !EmailTaken(db.users, u.email, None) && !MobileTaken(db.users, u.mobile, None);
      AppendKeepsInvariant(db, u, WithUpload(db.images, file));
    }
  }

  /** Appending a valid document with the next id, a creation time no
      earlier than any stored one and no unique value another record has,
      keeps the invariant. */
  lemma AppendKeepsInvariant(db: Db, u: User, images: set<string>)
    requires ValidDb(db) && ClockAfter(db, u.createdAt) && u.id == db.nextId && ValidUser(u)
    requires !EmailTaken(db.users, u.email, None) && !MobileTaken(db.users, u.mobile, None)
    ensures ValidDb(Db(db.users + [u], images, db.nextId + 1))
  {
    var s := db.users + [u];
    var n := |db.users|;
    forall i, j | 0 <= i < |s| && 0 <= j < |s| && i != j
      ensures s[i].id != s[j].id && s[i].email != s[j].email && s[i].mobile != s[j].mobile
    {
      if i == n {
        assert s[j] == db.users[j];
      } else if j == n {
        assert s[i] == db.users[i];
      } else {
        assert s[i] == db.users[i] && s[j] == db.users[j];
      }
    }
    forall i, j | 0 <= i < j < |s| ensures s[i].createdAt <= s[j].createdAt {
      assert s[i] == db.users[i];
    }
    forall i | 0 <= i < |s| ensures s[i].id < db.nextId + 1 && ValidUser(s[i]) {
      if i < n {
        assert s[i] == db.users[i];
      }
    }
  }

  lemma UpdatePreservesValid(db: Db, id: IdArg, body: Body, file: Option<string>, now: int)
    requires ValidDb(db)
    ensures ValidDb(UpdateUser(db, id, body, file, now).db)
  {
    var r := UpdateUser(db, id, body, file, now);
    if r.out.Done? {
      var i := FindById(db.users, id).value.value;
      var current := db.users[i];
      var p := ValidateUpdate(body).value;
      var u := Updated(current, p, file, now);
      assert r.db == Db(db.users[i := u], r.db.images, db.nextId);
      ApplyPatchValid(current, body);
      assert DraftOf(u) == DraftOf(ApplyPatch(current, p));
      assert Conflict(db.users, u, Some(current.id)).None?;
      ReplaceKeepsInvariant(db, i, u, r.db.images);
    } else {
      assert r.db == db.(images := r.db.images);
      FilesAside(db, r.db.images);
    }
  }

  /** The invariant does not depend on the files on disk. */
  lemma FilesAside(db: Db, images: set<string>)
    requires ValidDb(db)
    ensures ValidDb(db.(images := images))
  {}

  /** Writing a valid document over record i, with the same id and
      creation time and no unique value another record has, keeps the
      invariant. */
  lemma ReplaceKeepsInvariant(db: Db, i: nat, u: User, images: set<string>)
    requires ValidDb(db) && i < |db.users|
    requires u.id == db.users[i].id && u.createdAt == db.users[i].createdAt && ValidUser(u)
    requires !EmailTaken(db.users, u.email, Some(u.id)) && !MobileTaken(db.users, u.mobile, Some(u.id))
    ensures ValidDb(Db(db.users[i := u], images, db.nextId))
  {
    var s := db.users[i := u];
    forall k, j | 0 <= k < |s| && 0 <= j < |s| && k != j
      ensures s[k].id != s[j].id && s[k].email != s[j].email && s[k].mobile != s[j].mobile
    {
      if k == i {
        assert db.users[j].id != u.id;
      } else if j == i {
        assert db.users[k].id != u.id;
      }
    }
  }

  lemma DeletePreservesValid(db: Db, id: IdArg)
    requires ValidDb(db)
    ensures ValidDb(DeleteUser(db, id).db)
  {
    var r := DeleteUser(db, id);
    if r.out.Done? {
      var i := FindById(db.users, id).value.value;
      assert r.db.users == db.users[..i] + db.users[i + 1..];
      RemoveKeepsInvariant(db, i, r.db.images);
    }
  }

  /** Removing record i, whatever happens to the files, keeps the
      invariant. */
  lemma RemoveKeepsInvariant(db: Db, i: nat, images: set<string>)
    requires ValidDb(db) && i < |db.users|
    ensures ValidDb(Db(db.users[..i] + db.users[i + 1..], images, db.nextId))
  {
    var s := db.users[..i] + db.users[i + 1..];
    forall k | 0 <= k < |s| ensures s[k].id < db.nextId && ValidUser(s[k]) {
      RemovedAt(db.users, i, k);
    }
    forall k, j | 0 <= k < |s| && 0 <= j < |s| && k != j
      ensures s[k].id != s[j].id && s[k].email != s[j].email && s[k].mobile != s[j].mobile
    {
      RemovedAt(db.users, i, k);
      RemovedAt(db.users, i, j);
    }
    forall k, j | 0 <= k < j < |s| ensures s[k].createdAt <= s[j].createdAt {
      RemovedAt(db.users, i, k);
      RemovedAt(db.users, i, j);
    }
  }

  /** Record k after removing record i is the one that sat at k, or at
      k + 1 from i on. */
  lemma RemovedAt(users: seq<User>, i: nat, k: nat)
    requires i < |users| && k < |users| - 1
    ensures (users[..i] + users[i + 1..])[k] == users[if k < i then k else k + 1]
  {}

  // ---------------------------------------------------------------------
  // Create

  /** A create is accepted exactly when the body passes validation and
      neither unique index is taken; the new document is appended with a
      fresh id, the validated fields, the uploaded image (or none) and both
      timestamps set to now. */
  lemma CreateAccepted(db: Db, body: Body, file: Option<string>, now: int)
    ensures var r := CreateUser(db, body, file, now);
      r.out.Done? <==> ValidateCreate(body).Ok?
                       && Conflict(db.users, NewUser(db.nextId, ValidateCreate(body).value, ImageOf(file), now), None).None?
    ensures var r := CreateUser(db, body, file, now);
      r.out.Done? ==>
        && r.db.users == db.users + [r.out.value]
        && r.db.nextId == db.nextId + 1
        && r.out.value.id == db.nextId
        && DraftOf(r.out.value) == ValidateCreate(body).value
        && ValidUser(r.out.value)
        && r.out.value.profileImage == ImageOf(file)
        && r.out.value.createdAt == now && r.out.value.updatedAt == now
  {
    var r := CreateUser(db, body, file, now);
    if r.out.Done? {
      assert DraftOf(r.out.value) == ValidateCreate(body).value;
    }
  }

  /** A body that breaks a rule is refused with 400 and every violated
      rule's message, joined by ", "; no document is written. */
  lemma CreateInvalid(db: Db, body: Body, file: Option<string>, now: int, development: bool)
    requires BodyErrors(body, true) != []
    ensures var r := CreateUser(db, body, file, now);
      && r.out == Thrown(200, ValidationFailure(CreatePrefix, BodyErrors(body, true)))
      && r.db.users == db.users && r.db.nextId == db.nextId
      && HandleError(r.out.err, r.out.status, development).Respond?
      && HandleError(r.out.err, r.out.status, development).status == 400
      && HandleError(r.out.err, r.out.status, development).body.message
         == Join(FieldMessages(BodyErrors(body, true)), ", ")
  {}

  /** A create whose email belongs to a stored document is refused with 400
      "Email already exists", and nothing is written. */
  lemma CreateDuplicateEmail(db: Db, body: Body, file: Option<string>, now: int, k: nat, development: bool)
    requires ValidateCreate(body).Ok? && k < |db.users|
    requires db.users[k].email == ValidateCreate(body).value.email
    ensures var r := CreateUser(db, body, file, now);
      && r.out == Thrown(200, DuplicateKeyFailure("email"))
      && r.db.users == db.users
      && HandleError(r.out.err, r.out.status, development)
         == Respond(400, ErrorBody(false, "Email" + " already exists", if development then Some("") else None))
  {
    var u := NewUser(db.nextId, ValidateCreate(body).value, ImageOf(file), now);
    assert db.users[k].email == u.email;
    assert EmailTaken(db.users, u.email, None);
    DuplicateKeyResponse("email", "Email", development);
  }

  /** A create with a fresh email but a taken mobile number is refused with
      400 "Mobile already exists". */
  lemma CreateDuplicateMobile(db: Db, body: Body, file: Option<string>, now: int, k: nat, development: bool)
    requires ValidateCreate(body).Ok? && k < |db.users|
    requires forall j :: 0 <= j < |db.users| ==> db.users[j].email != ValidateCreate(body).value.email
    requires db.users[k].mobile == ValidateCreate(body).value.mobile
    ensures var r := CreateUser(db, body, file, now);
      && r.out == Thrown(200, DuplicateKeyFailure("mobile"))
      && r.db.users == db.users
      && HandleError(r.out.err, r.out.status, development)
         == Respond(400, ErrorBody(false, "Mobile" + " already exists", if development then Some("") else None))
  {
    var u := NewUser(db.nextId, ValidateCreate(body).value, ImageOf(file), now);
    assert Conflict(db.users, u, None) == Some("mobile") by {
      assert !EmailTaken(db.users, u.email, None);
      assert db.users[k].mobile == u.mobile;
      assert MobileTaken(db.users, u.mobile, None);
    }
    var r := CreateUser(db, body, file, now);
    assert r == Step(db.(images := WithUpload(db.images, file)), Thrown(200, DuplicateKeyFailure("mobile")));
    DuplicateKeyResponse("mobile", "Mobile", development);
  }

  /** The response to a broken unique index names the field, capitalised. */
  lemma DuplicateKeyResponse(key: string, field: string, development: bool)
    requires key != [] && field == [UpperChar(key[0])] + key[1..]
    ensures HandleError(DuplicateKeyFailure(key), 200, development)
            == Respond(400, ErrorBody(false, field + " already exists", if development then Some("") else None))
  {}

  /** A refused create with a file leaves the uploaded file on disk. */
  lemma RefusedCreateKeepsUpload(db: Db, body: Body, f: string, now: int)
    requires CreateUser(db, body, Some(f), now).out.Thrown?
    ensures UploadPath(f) in CreateUser(db, body, Some(f), now).db.images
    ensures CreateUser(db, body, Some(f), now).db.users == db.users
  {}

  /** A created document can be read back by its id. */
  lemma CreateThenGet(db: Db, body: Body, file: Option<string>, now: int)
    requires ValidDb(db)
    requires CreateUser(db, body, file, now).out.Done?
    ensures var r := CreateUser(db, body, file, now);
      GetUserById(r.db, WellFormed(r.out.value.id)) == Done(r.out.value)
  {
    var r := CreateUser(db, body, file, now);
    var s := r.db.users;
    assert s[|db.users|] == r.out.value;
  }

  // ---------------------------------------------------------------------
  // Get, update and delete of an id the store does not hold

  /** Get, update and delete on an id no record has fail with 404 "User not
      found" and change no record (an update's upload stays on disk). */
  lemma UnknownId(db: Db, n: nat, body: Body, file: Option<string>, now: int, development: bool)
    requires forall j :: 0 <= j < |db.users| ==> db.users[j].id != n
    ensures GetUserById(db, WellFormed(n)) == Thrown(404, PlainError(NotFoundMessage))
    ensures UpdateUser(db, WellFormed(n), body, file, now)
            == Step(db.(images := WithUpload(db.images, file)), Thrown(404, PlainError(NotFoundMessage)))
    ensures DeleteUser(db, WellFormed(n)) == Step(db, Thrown(404, PlainError(NotFoundMessage)))
    ensures HandleError(PlainError(NotFoundMessage), 404, development)
            == Respond(404, ErrorBody(false, "User not found", if development then Some("") else None))
  {}

  /** An id that is not an ObjectId is answered with 400
      "Invalid _id: <id>", and no record changes. */
  lemma MalformedId(db: Db, raw: string, body: Body, file: Option<string>, now: int, development: bool)
    ensures GetUserById(db, Malformed(raw)) == Thrown(200, CastError(raw))
    ensures UpdateUser(db, Malformed(raw), body, file, now)
            == Step(db.(images := WithUpload(db.images, file)), Thrown(200, CastError(raw)))
    ensures DeleteUser(db, Malformed(raw)) == Step(db, Thrown(200, CastError(raw)))
    ensures HandleError(CastError(raw), 200, development).Respond?
    ensures HandleError(CastError(raw), 200, development).status == 400
    ensures HandleError(CastError(raw), 200, development).body.message == "Invalid _id: " + raw
  {}

  /** Get returns the record with the requested id. */
  lemma GetFinds(db: Db, k: nat)
    requires DistinctKeys(db.users) && k < |db.users|
    ensures GetUserById(db, WellFormed(db.users[k].id)) == Done(db.users[k])
  {
    var i := IndexOf(db.users, db.users[k].id);
  }

  // ---------------------------------------------------------------------
  // Update

  /** An accepted update rewrites the one record with that id in place:
      its id, creation time and (without a file) image are kept, its
      update time is now, and every other record is untouched. */
  lemma UpdateAccepted(db: Db, k: nat, body: Body, file: Option<string>, now: int)
    requires DistinctKeys(db.users) && k < |db.users|
    requires UpdateUser(db, WellFormed(db.users[k].id), body, file, now).out.Done?
    ensures var r := UpdateUser(db, WellFormed(db.users[k].id), body, file, now);
      && |r.db.users| == |db.users|
      && r.db.users[k] == r.out.value
      && (forall j :: 0 <= j < |db.users| && j != k ==> r.db.users[j] == db.users[j])
      && r.out.value.id == db.users[k].id
      && r.out.value.createdAt == db.users[k].createdAt
      && r.out.value.updatedAt == now
      && r.out.value == ApplyPatch(db.users[k], ValidateUpdate(body).value).(profileImage := r.out.value.profileImage, updatedAt := now)
      && (file.None? ==> r.out.value.profileImage == db.users[k].profileImage && r.db.images == db.images)
      && r.db.nextId == db.nextId
  {
    GetFinds(db, k);
  }

  /** An update with a file points the record at the new upload and, when
      the record had an image, removes the old file from disk. */
  lemma UpdateReplacesImage(db: Db, k: nat, body: Body, f: string, now: int)
    requires DistinctKeys(db.users) && k < |db.users|
    requires UpdateUser(db, WellFormed(db.users[k].id), body, Some(f), now).out.Done?
    ensures var r := UpdateUser(db, WellFormed(db.users[k].id), body, Some(f), now);
      && r.out.value.profileImage == Some(UploadPath(f))
      && r.db.images == if HasImage(db.users[k])
                        then (db.images + {UploadPath(f)}) - {db.users[k].profileImage.value}
                        else db.images + {UploadPath(f)}
  {
    GetFinds(db, k);
  }

  /** The old image goes even when the update is then refused, by a
      validation rule or by a duplicate key: a refused update with a file
      leaves the record pointing at a file that is no longer on disk. */
  lemma RefusedUpdateLosesImage(db: Db, k: nat, body: Body, f: string, now: int)
    requires DistinctKeys(db.users) && k < |db.users|
    requires HasImage(db.users[k])
    requires UpdateUser(db, WellFormed(db.users[k].id), body, Some(f), now).out.Thrown?
    ensures var r := UpdateUser(db, WellFormed(db.users[k].id), body, Some(f), now);
      && r.out.Thrown?
      && r.db.users == db.users
      && db.users[k].profileImage.value !in r.db.images
  {
    GetFinds(db, k);
  }

  /** A stored document with an image. */
  function Ada(): User {
    User(0, "Ada", "Lovelace", "ada@x.io", "0123456789", Female, Active, "",
         Some("/uploads/a.png"), 1, 1)
  }

  lemma AdaValid()
    ensures ValidUser(Ada())
  {
    var d := DraftOf(Ada());
    assert IsTrimmed(d.firstName) && IsTrimmed(d.lastName) && IsTrimmed(d.email);
    assert NoUpper(d.email);
    assert d.email[3] == '@' && d.email[5] == '.';
    assert IsMobile(d.mobile);
  }

  /** The same happens in a concrete valid store: an update of its one
      record that brings a file but an empty first name. */
  lemma DanglingImageExample()
    ensures var db := Db([Ada()], {"/uploads/a.png"}, 1);
      var body := Body(Some(""), None, None, None, None, None, None);
      var r := UpdateUser(db, WellFormed(0), body, Some("b.png"), 2);
      && ValidDb(db)
      && r.out.Thrown?
      && r.db.users[0].profileImage == Some("/uploads/a.png")
      && "/uploads/a.png" !in r.db.images
  {
    AdaValid();
    var db := Db([Ada()], {"/uploads/a.png"}, 1);
    var body := Body(Some(""), None, None, None, None, None, None);
    assert Trim("") == "";
    assert FirstNameErrors(Some(""), false) != [];
    assert ValidateUpdate(body).Failed?;
    assert UploadPath("b.png")[9] == 'b';
    RefusedUpdateLosesImage(db, 0, body, "b.png", 2);
  }

  /** An update that changes the email to one another record has is
      refused with 400 "Email already exists"; its own email is no
      conflict. */
  lemma UpdateDuplicateEmail(db: Db, k: nat, other: nat, body: Body, now: int, development: bool)
    requires DistinctKeys(db.users) && k < |db.users| && other < |db.users| && other != k
    requires ValidateUpdate(body).Ok? && ValidateUpdate(body).value.email == Some(db.users[other].email)
    ensures var r := UpdateUser(db, WellFormed(db.users[k].id), body, None, now);
      && r.out == Thrown(200, DuplicateKeyFailure("email"))
      && r.db == db
      && HandleError(r.out.err, r.out.status, development).Respond?
      && HandleError(r.out.err, r.out.status, development).body.message == "Email" + " already exists"
  {
    GetFinds(db, k);
    var u := Updated(db.users[k], ValidateUpdate(body).value, None, now);
    assert Conflict(db.users, u, Some(db.users[k].id)) == Some("email") by {
      assert u.email == db.users[other].email;
      assert EmailTaken(db.users, u.email, Some(db.users[k].id));
    }
    var r := UpdateUser(db, WellFormed(db.users[k].id), body, None, now);
    assert r == Step(db, Thrown(200, DuplicateKeyFailure("email")));
    DuplicateKeyResponse("email", "Email", development);
  }

  /** Re-sending a stored document's own fields (as the inline status
      control does with a new status) is accepted and changes only the
      status and the update time. */
  lemma UpdateStatusOnly(db: Db, k: nat, s: Status, now: int)
    requires ValidDb(db) && k < |db.users|
    ensures var u := db.users[k];
      var r := UpdateUser(db, WellFormed(u.id), BodyOf(DraftOf(u).(status := s)), None, now);
      && r.out.Done?
      && r.out.value == u.(status := s, updatedAt := now)
  {
    var u := db.users[k];
    GetFinds(db, k);
    var v := u.(status := s);
    assert ValidUser(v);
    UpdateRoundTrip(v);
    assert DraftOf(v) == DraftOf(u).(status := s);
    var p := ValidateUpdate(BodyOf(DraftOf(v))).value;
    var w := Updated(u, p, None, now);
    assert ApplyPatch(u, p) == ApplyPatch(v, p);
    assert w == v.(updatedAt := now);
    forall j | 0 <= j < |db.users| && db.users[j].id != u.id
      ensures db.users[j].email != w.email && db.users[j].mobile != w.mobile
    {
      assert j != k;
    }
    assert !EmailTaken(db.users, w.email, Some(u.id));
    assert !MobileTaken(db.users, w.mobile, Some(u.id));
  }

  // ---------------------------------------------------------------------
  // Delete

  /** Deleting a stored record removes exactly that record, keeps the
      others in order, removes its image file if it had one, and a later
      get of the id fails with 404. */
  lemma DeleteRemoves(db: Db, k: nat)
    requires DistinctKeys(db.users) && k < |db.users|
    ensures var r := DeleteUser(db, WellFormed(db.users[k].id));
      && r.out.Done?
      && r.db.users == db.users[..k] + db.users[k + 1..]
      && (HasImage(db.users[k]) ==> r.db.images == db.images - {db.users[k].profileImage.value})
      && (!HasImage(db.users[k]) ==> r.db.images == db.images)
      && GetUserById(r.db, WellFormed(db.users[k].id)) == Thrown(404, PlainError(NotFoundMessage))
  {
    GetFinds(db, k);
    var s := db.users[..k] + db.users[k + 1..];
    forall j | 0 <= j < |s| ensures s[j].id != db.users[k].id {
      assert s[j] == db.users[if j < k then j else j + 1];
    }
  }

  // ---------------------------------------------------------------------
  // Export

  /** Exporting an empty store fails with 404 "No users found to export";
      otherwise every record is exported, one row each, newest first. */
  lemma ExportRows(db: Db, development: bool)
    ensures db.users == [] ==> ExportToCsv(db) == Thrown(404, PlainError(NoUsersMessage))
    ensures db.users == [] ==> HandleError(PlainError(NoUsersMessage), 404, development).status == 404
    ensures db.users == [] ==> HandleError(PlainError(NoUsersMessage), 404, development).body.message == "No users found to export"
    ensures db.users != [] ==> ExportToCsv(db).Done?
    ensures db.users != [] ==> |ExportToCsv(db).value.rows| == |db.users|
    ensures db.users != [] ==> forall i :: 0 <= i < |db.users| ==>
              ExportToCsv(db).value.rows[i] == CsvExporter.Row(db.users[|db.users| - 1 - i])
  {}

  // ---------------------------------------------------------------------
  // List

  /** A list request is refused exactly when its skip is negative;
      otherwise it answers the page for the page, limit and search read
      from the query. */
  lemma ListRequest(db: Db, q: Query)
    ensures var page, limit := QueryInt(q.page, 1), QueryInt(q.limit, 10);
      && limit != 0
      && (GetUsers(db, q).Thrown? <==> Skip(page, limit) < 0)
      && (GetUsers(db, q).Thrown? ==> GetUsers(db, q) == Thrown(200, NegativeSkipFailure))
      && (GetUsers(db, q).Done? ==> GetUsers(db, q).value == PageOfUsers(db.users, page, limit, SearchOf(q)))
  {
    QueryIntNonZero(q.limit, 10);
  }

  /** A page holds at most |limit| records: those of the newest-first
      matching list from position (page-1)*limit, every one of them matching
      the search; totalRecords counts all matching records and totalPages is
      the ceiling of totalRecords/limit. */
  lemma ListPage(users: seq<User>, page: int, limit: int, search: string)
    requires limit != 0 && Skip(page, limit) >= 0
    ensures var r := PageOfUsers(users, page, limit, search);
      var matched := Filter(NewestFirst(users), search);
      && |r.data| <= Abs(limit)
      && (forall k :: 0 <= k < |r.data| ==> r.data[k] == matched[Skip(page, limit) + k])
      && (forall u :: u in r.data ==> u in users && Matches(u, search))
      && r.pagination.totalRecords == |matched|
      && r.pagination.totalPages == CeilDiv(|matched|, limit)
      && r.pagination.currentPage == page
      && r.pagination.pageSize == limit
  {
    FilterReverse(users, search);
    var r := PageOfUsers(users, page, limit, search);
    var matched := Filter(NewestFirst(users), search);
    forall u | u in r.data ensures u in users && Matches(u, search) {
      var k :| 0 <= k < |r.data| && r.data[k] == u;
      assert u in matched;
    }
  }

  /** The records of a page are in descending order of creation time. */
  lemma ListPageNewestFirst(users: seq<User>, page: int, limit: int, search: string)
    requires Chronological(users)
    requires limit != 0 && Skip(page, limit) >= 0
    ensures Descending(PageOfUsers(users, page, limit, search).data)
  {
    var f := Filter(users, search);
    FilterReverse(users, search);
    FilterChronological(users, search);
    NewestFirstSorted(f);
    WindowDescending(Filter(NewestFirst(users), search), Skip(page, limit), limit);
  }

  lemma {:induction false} FilterChronological(users: seq<User>, search: string)
    requires Chronological(users)
    ensures Chronological(Filter(users, search))
  {
    if users != [] {
      FilterChronological(users[1..], search);
      var rest := Filter(users[1..], search);
      forall u | u in rest ensures users[0].createdAt <= u.createdAt {
        var k :| 0 <= k < |users[1..]| && users[1..][k] == u;
        assert users[k + 1] == u;
      }
    }
  }

  /** An empty search on an empty store answers the first page with no
      records, no pages and the default page size. */
  lemma EmptyStoreListing(images: set<string>, nextId: nat)
    ensures GetUsers(Db([], images, nextId), Query(None, None, None))
            == Done(Listing([], PageInfo(0, 0, 1, 10)))
  {}

  /** A negative page is used as given: with a positive limit the skip is
      negative and the store's refusal reaches the client as a 500. */
  lemma NegativePage(db: Db, n: nat, development: bool)
    requires n > 0
    ensures GetUsers(db, Query(Some("-" + Decimal(n)), None, None)) == Thrown(200, NegativeSkipFailure)
    ensures HandleError(NegativeSkipFailure, 200, development).Respond?
    ensures HandleError(NegativeSkipFailure, 200, development).status == 500
  {
    QueryIntFallback(n, 1);
  }

  /** A negative limit is used as given: the first page holds up to |limit|
      records and the page count is not positive. */
  lemma NegativeLimit(users: seq<User>, n: nat, search: string)
    requires n > 0
    ensures var r := PageOfUsers(users, 1, -(n as int), search);
      && |r.data| <= n
      && r.pagination.pageSize == -(n as int)
      && r.pagination.totalPages <= 0
  {
    var total := |Filter(users, search)|;
    assert CeilDiv(total, -(n as int)) == -(total / n);
    DivNonNegative(total, n);
  }

  lemma DivNonNegative(a: nat, b: nat)
    requires b > 0
    ensures a / b >= 0
  {}

  /** A query of `limit=-n` is read as the limit -n. */
  lemma NegativeLimitRead(n: nat)
    requires n > 0
    ensures QueryInt(Some("-" + Decimal(n)), 10) == -(n as int)
  {
    QueryIntFallback(n, 10);
  }
}
