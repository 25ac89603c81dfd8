/** The CSV export of the user directory: a fixed list of labelled columns,
    each naming a field of the user document, projected from every record in
    the order given. The rendering of cells as quoted CSV text is not part of
    this model. */
module CsvExporter {
  import opened Common
  import opened UserModel

  /** A cell before it is rendered: text, the record id, a timestamp, a
      `null` value, or nothing (a key the document does not have). */
  datatype Cell = Text(text: string) | Id(id: nat) | Time(time: int) | Null | Missing

  /** One entry of the field list: the header label and the document key it reads. */
  datatype Column = Column(heading: string, key: string)

  const Columns: seq<Column> := [
    Column("ID", "_id"),
    Column("First Name", "firstName"),
    Column("Last Name", "lastName"),
    Column("Email", "email"),
    Column("Mobile", "mobile"),
    Column("Gender", "gender"),
    Column("Status", "status"),
    Column("Location", "location"),
    Column("Created At", "createdAt"),
    Column("Updated At", "updatedAt")
  ]

  /** `user[key]`: the value a stored document holds under a key. */
  function Lookup(u: User, key: string): Cell {
    if key == "_id" then Id(u.id)
    else if key == "firstName" then Text(u.firstName)
    else if key == "lastName" then Text(u.lastName)
    else if key == "email" then Text(u.email)
    else if key == "mobile" then Text(u.mobile)
    else if key == "gender" then Text(GenderName(u.gender))
    else if key == "status" then Text(StatusName(u.status))
    else if key == "location" then Text(u.location)
    else if key == "profileImage" then (if u.profileImage.Some? then Text(u.profileImage.value) else Null)
    else if key == "createdAt" then Time(u.createdAt)
    else if key == "updatedAt" then Time(u.updatedAt)
    else Missing
  }

  /** The header line: the labels, in column order. */
  function Header(): seq<string> {
    seq(|Columns|, i requires 0 <= i < |Columns| => Columns[i].heading)
  }

  /** The row of one record, written out column by column. */
  function Row(u: User): seq<Cell> {
    [Id(u.id), Text(u.firstName), Text(u.lastName), Text(u.email), Text(u.mobile),
     Text(GenderName(u.gender)), Text(StatusName(u.status)), Text(u.location),
     Time(u.createdAt), Time(u.updatedAt)]
  }

  /** The parsed table: the header and one row per record. */
  datatype Csv = Csv(header: seq<string>, rows: seq<seq<Cell>>)

  /** `exportUsersToCSV`: one row per record, in the order given, under a
      header that does not depend on the records. */
  function ExportUsersToCsv(users: seq<User>): (r: Csv)
    ensures r.header == Header()
    ensures |r.rows| == |users|
    ensures forall i :: 0 <= i < |users| ==> r.rows[i] == Row(users[i])
  {
    Csv(Header(), seq(|users|, i requires 0 <= i < |users| => Row(users[i])))
  }

  /** The header is exactly these ten labels, in this order. */
  lemma HeaderLabels()
    ensures Header() == ["ID", "First Name", "Last Name", "Email", "Mobile", "Gender",
                         "Status", "Location", "Created At", "Updated At"]
  {}

  /** Column i of a row is the document field named by the i-th key, and
      every key names a field the document has. */
  lemma RowFollowsColumns(u: User)
    ensures |Row(u)| == |Columns|
    ensures forall i :: 0 <= i < |Columns| ==> Row(u)[i] == Lookup(u, Columns[i].key)
    ensures forall i :: 0 <= i < |Columns| ==> Lookup(u, Columns[i].key) != Missing
  {}

  /** The profile image is never exported: no column names it, and records
      differing only in their image give the same row. */
  lemma NoProfileImage(u: User, image: Option<string>)
    ensures forall c :: c in Columns ==> c.key != "profileImage"
    ensures Row(u.(profileImage := image)) == Row(u)
  {}

  /** The export of a concatenation is the concatenation of the rows: each
      row depends on its own record only. */
  lemma ExportAppend(a: seq<User>, b: seq<User>)
    ensures ExportUsersToCsv(a + b).rows == ExportUsersToCsv(a).rows + ExportUsersToCsv(b).rows
  {
    var l, r := ExportUsersToCsv(a + b).rows, ExportUsersToCsv(a).rows + ExportUsersToCsv(b).rows;
    assert |l| == |r|;
    forall k | 0 <= k < |l| ensures l[k] == r[k] {
      if k < |a| {
        assert (a + b)[k] == a[k];
      } else {
        assert (a + b)[k] == b[k - |a|];
      }
    }
  }
}
