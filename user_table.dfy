/** The user table's interactive state: which row's action menu and which
    row's status dropdown are open, which row awaits delete confirmation,
    and whether a delete is in flight. Each handler is a step on that state;
    the request a handler sends and whether the list is refreshed afterwards
    are its results, with the server's answer given as a parameter. */
module UserTable {
  import opened Common
  import opened UserModel
  import opened FormData

  datatype Menus = Menus(
    openMenuId: Option<nat>,
    openStatusId: Option<nat>,
    deleteTarget: Option<User>,
    deleting: bool)

  const Closed := Menus(None, None, None, false)

  /** The choices of the inline status dropdown. */
  const StatusChoices := ["Active", "Inactive"]

  /** Opens the given row, or closes it when it is the open one. */
  function Toggle(prev: Option<nat>, id: nat): (r: Option<nat>)
    ensures r == None <==> prev == Some(id)
    ensures r != None ==> r == Some(id)
  {
    if prev == Some(id) then None else Some(id)
  }

  /** The user actions and request completions that change the state. */
  datatype Event =
    | ToggleMenuOf(id: nat)
    | ToggleStatusOf(id: nat)
    | ClickOutside
    | ViewOrEdit          // navigating away from the menu
    | ChooseDelete(row: User)
    | CancelDelete
    | BeginDelete
    | FinishDelete(refreshed: bool)
    | StatusSettled(refreshed: bool)   // the end of a status change, whatever its outcome

  /** One event. The dialog's two buttons are disabled while the delete is
      in flight, so Cancel and Confirm do nothing then. A request that
      succeeded makes the page reload the list; the page shows a loader in
      the table's place while it loads, so the table comes back freshly
      mounted, with everything closed. */
  function Step(s: Menus, e: Event): Menus {
    match e
    case ToggleMenuOf(id) => s.(openMenuId := Toggle(s.openMenuId, id), openStatusId := None)
    case ToggleStatusOf(id) => s.(openStatusId := Toggle(s.openStatusId, id), openMenuId := None)
    case ClickOutside => s.(openMenuId := None, openStatusId := None)
    case ViewOrEdit => s.(openMenuId := None)
    case ChooseDelete(row) => s.(deleteTarget := Some(row), openMenuId := None)
    case CancelDelete => if s.deleting then s else s.(deleteTarget := None)
    case BeginDelete => if s.deleteTarget.None? || s.deleting then s else s.(deleting := true)
    case FinishDelete(refreshed) => if refreshed then Closed else s.(deleting := false, deleteTarget := None)
    case StatusSettled(refreshed) => if refreshed then Closed else s.(openStatusId := None)
  }

  function Run(s: Menus, events: seq<Event>): Menus
    decreases |events|
  {
    if events == [] then s else Run(Step(s, events[0]), events[1..])
  }

  /** An action menu and a status dropdown are not open together. */
  predicate Exclusive(s: Menus) {
    s.openMenuId.None? || s.openStatusId.None?
  }

  /** The delete confirmation dialog is shown exactly when a target is set. */
  predicate ModalOpen(s: Menus) {
    s.deleteTarget.Some?
  }

  /** Toggling a menu opens exactly that menu unless it was the open one,
      and always closes the status dropdown; toggling a dropdown is the
      mirror image. */
  lemma ToggleSpec(s: Menus, id: nat)
    ensures Step(s, ToggleMenuOf(id)).openStatusId.None?
    ensures Step(s, ToggleMenuOf(id)).openMenuId == (if s.openMenuId == Some(id) then None else Some(id))
    ensures Step(s, ToggleStatusOf(id)).openMenuId.None?
    ensures Step(s, ToggleStatusOf(id)).openStatusId == (if s.openStatusId == Some(id) then None else Some(id))
  {}

  lemma StepKeepsExclusive(s: Menus, e: Event)
    requires Exclusive(s)
    ensures Exclusive(Step(s, e))
  {}

  /** From any state with at most one of the two open, whatever the user
      does, never both are open. */
  lemma {:induction false} NeverBothOpen(s: Menus, events: seq<Event>)
    requires Exclusive(s)
    ensures Exclusive(Run(s, events))
    decreases |events|
  {
    if events != [] {
      StepKeepsExclusive(s, events[0]);
      NeverBothOpen(Step(s, events[0]), events[1..]);
    }
  }

  /** Toggling the same row twice closes it again, and closes the other
      kind of popup on the way. */
  lemma DoubleToggle(s: Menus, id: nat)
    requires s.openMenuId != Some(id) && s.openStatusId != Some(id)
    ensures Step(Step(s, ToggleMenuOf(id)), ToggleMenuOf(id)) == s.(openMenuId := None, openStatusId := None)
    ensures Step(Step(s, ToggleStatusOf(id)), ToggleStatusOf(id)) == s.(openMenuId := None, openStatusId := None)
  {}

  /** A click outside closes both popups and touches nothing else. */
  lemma OutsideClickCloses(s: Menus)
    ensures var t := Step(s, ClickOutside);
      t.openMenuId.None? && t.openStatusId.None? && t.deleteTarget == s.deleteTarget && t.deleting == s.deleting
  {}

  /** Choosing Delete opens the dialog for that row and closes the menu;
      cancelling closes the dialog unless a delete is in flight. */
  lemma DeleteDialog(s: Menus, row: User)
    ensures ModalOpen(Step(s, ChooseDelete(row))) && Step(s, ChooseDelete(row)).deleteTarget == Some(row)
    ensures Step(s, ChooseDelete(row)).openMenuId.None?
    ensures !ModalOpen(Step(s, CancelDelete)) <==> !s.deleting || !ModalOpen(s)
  {}

  /** While a delete is in flight both dialog buttons are inert. */
  lemma DeleteInFlightLocked(s: Menus)
    requires s.deleting
    ensures Step(s, CancelDelete) == s && Step(s, BeginDelete) == s
  {}

  /** A confirmation without a target, or during another delete, changes
      nothing; otherwise it starts the delete. Whatever the outcome, the
      delete ends not in flight and with the dialog closed. */
  lemma ConfirmDeleteEnds(s: Menus, refreshed: bool)
    ensures s.deleteTarget.None? || s.deleting ==> Step(s, BeginDelete) == s
    ensures s.deleteTarget.Some? && !s.deleting ==> Step(s, BeginDelete) == s.(deleting := true)
    ensures var t := Step(Step(s, BeginDelete), FinishDelete(refreshed)); !t.deleting && !ModalOpen(t)
  {}

  /** After a successful delete or status change the table is remounted
      with nothing open; after a failed status change only the dropdown
      closes. */
  lemma RefreshRemounts(s: Menus)
    ensures Step(s, FinishDelete(true)) == Closed && Step(s, StatusSettled(true)) == Closed
    ensures Step(s, StatusSettled(false)) == s.(openStatusId := None)
  {}

  /** A delete is in flight only with its dialog open. */
  predicate InFlightShown(s: Menus) {
    s.deleting ==> ModalOpen(s)
  }

  lemma StepKeepsInFlightShown(s: Menus, e: Event)
    requires InFlightShown(s)
    ensures InFlightShown(Step(s, e))
  {}

  /** From a fresh table, whatever happens, a delete in flight always has
      its dialog on screen. */
  lemma {:induction false} InFlightAlwaysShown(s: Menus, events: seq<Event>)
    requires InFlightShown(s)
    ensures InFlightShown(Run(s, events))
    decreases |events|
  {
    if events != [] {
      StepKeepsInFlightShown(s, events[0]);
      InFlightAlwaysShown(Step(s, events[0]), events[1..]);
    }
  }

  /** `users.find`: the first row with the id, if any. */
  function FindRow(rows: seq<User>, id: nat): (r: Option<User>)
    ensures r.None? <==> forall i :: 0 <= i < |rows| ==> rows[i].id != id
    ensures r.Some? ==> exists i :: 0 <= i < |rows| && rows[i] == r.value && r.value.id == id
                                    && forall j :: 0 <= j < i ==> rows[j].id != id
  {
    if rows == [] then None
    else if rows[0].id == id then Some(rows[0])
    else
      var r := FindRow(rows[1..], id);
      assert forall i :: 0 < i < |rows| ==> rows[i] == rows[1..][i - 1];
      if r.Some? then
        ghost var k :| 0 <= k < |rows| - 1 && rows[1..][k] == r.value && r.value.id == id
                       && forall j :: 0 <= j < k ==> rows[1..][j].id != id;
        assert rows[k + 1] == r.value && forall j :: 0 <= j < k + 1 ==> rows[j].id != id;
        r
      else r
  }

  /** The fields the inline status change sends, in this order: the row's
      own values with the new status. */
  function StatusEntries(row: User, newStatus: string): seq<Part> {
    [Text("firstName", row.firstName), Text("lastName", row.lastName), Text("email", row.email),
     Text("mobile", row.mobile), Text("gender", GenderName(row.gender)), Text("location", row.location),
     Text("status", newStatus)]
  }

  /** The server reads the status change's fields as the row's own fields
      with the new status. */
  lemma StatusEntriesBody(row: User, newStatus: string)
    ensures BodyOfForm(StatusEntries(row, newStatus))
         == Body(Some(row.firstName), Some(row.lastName), Some(row.email), Some(row.mobile),
                 Some(GenderName(row.gender)), Some(newStatus), Some(row.location))
  {
    var e := StatusEntries(row, newStatus);
    assert TextValue(e, "firstName") == Some(row.firstName) by { TextValueAt(e, 0); }
    assert TextValue(e, "lastName") == Some(row.lastName) by { TextValueAt(e, 1); }
    assert TextValue(e, "email") == Some(row.email) by { TextValueAt(e, 2); }
    assert TextValue(e, "mobile") == Some(row.mobile) by { TextValueAt(e, 3); }
    assert TextValue(e, "gender") == Some(GenderName(row.gender)) by { TextValueAt(e, 4); }
    assert TextValue(e, "location") == Some(row.location) by {
      assert e[5].name == "location";
      TextValueAt(e, 5);
    }
    assert TextValue(e, "status") == Some(newStatus) by {
      assert e[6].name == "status";
      TextValueAt(e, 6);
    }
  }

  /** The status change of a stored valid row passes the server's update
      validation and changes the status and nothing else. */
  lemma StatusChangeAccepted(row: User, st: Status)
    requires ValidUser(row)
    ensures var b := BodyOfForm(StatusEntries(row, StatusName(st)));
      ValidateUpdate(b).Ok? && ApplyPatch(row, ValidateUpdate(b).value) == row.(status := st)
  {
    var changed := row.(status := st);
    StatusEntriesBody(row, StatusName(st));
    assert BodyOfForm(StatusEntries(row, StatusName(st))) == BodyOf(DraftOf(changed));
    assert ValidUser(changed);
    UpdateRoundTrip(changed);
  }

  /** The gender column: "M", "F", or the value itself. */
  function GenderLabel(gender: string): (r: string)
    ensures gender == "Male" ==> r == "M"
    ensures gender == "Female" ==> r == "F"
    ensures gender != "Male" && gender != "Female" ==> r == gender
  {
    if gender == "Male" then "M" else if gender == "Female" then "F" else gender
  }

  /** The three genders keep distinct labels. */
  lemma GenderLabelsDistinct(a: Gender, b: Gender)
    requires GenderLabel(GenderName(a)) == GenderLabel(GenderName(b))
    ensures a == b
  {}

  /** The table component's state. */
  class UserTableState {
    var openMenuId: Option<nat>
    var openStatusId: Option<nat>
    var deleteTarget: Option<User>
    var deleting: bool

    function State(): Menus
      reads this
    {
      Menus(openMenuId, openStatusId, deleteTarget, deleting)
    }

    constructor ()
      ensures State() == Closed
    {
      openMenuId := None;
      openStatusId := None;
      deleteTarget := None;
      deleting := false;
    }

    method ToggleMenu(id: nat)
      modifies this
      ensures State() == Step(old(State()), ToggleMenuOf(id))
      ensures old(Exclusive(State())) ==> Exclusive(State())
    {
      openMenuId := if openMenuId == Some(id) then None else Some(id);
      openStatusId := None;
    }

    method ToggleStatus(id: nat)
      modifies this
      ensures State() == Step(old(State()), ToggleStatusOf(id))
      ensures old(Exclusive(State())) ==> Exclusive(State())
    {
      openStatusId := if openStatusId == Some(id) then None else Some(id);
      openMenuId := None;
    }

    method HandleOutsideClick()
      modifies this
      ensures State() == Step(old(State()), ClickOutside)
    {
      openMenuId := None;
      openStatusId := None;
    }

    /** The View and Edit menu items close the menu before navigating. */
    method CloseMenu()
      modifies this
      ensures State() == Step(old(State()), ViewOrEdit)
    {
      openMenuId := None;
    }

    method ChooseDeleteRow(row: User)
      modifies this
      ensures State() == Step(old(State()), ChooseDelete(row))
    {
      deleteTarget := Some(row);
      openMenuId := None;
    }

    /** The Cancel button, disabled while a delete is in flight. */
    method CancelDeleteDialog()
      modifies this
      ensures State() == Step(old(State()), CancelDelete)
    {
      if !deleting {
        deleteTarget := None;
      }
    }

    /** The first half of `confirmDelete`, behind the Confirm button that
        is disabled while a delete is in flight: the id whose delete is
        requested, or nothing without a target. */
    method BeginConfirmDelete() returns (request: Option<nat>)
      modifies this
      ensures request == (if old(deleteTarget).Some? && !old(deleting) then Some(old(deleteTarget).value.id) else None)
      ensures State() == Step(old(State()), BeginDelete)
    {
      if deleteTarget.None? || deleting {
        return None;
      }
      deleting := true;
      request := Some(deleteTarget.value.id);
    }

    /** The second half, once the request has settled: the list is
        refreshed only when it succeeded, and the state is reset either
        way (by the remount that follows a refresh). */
    method FinishConfirmDelete(succeeded: bool) returns (refresh: bool)
      modifies this
      ensures refresh == succeeded
      ensures State() == Step(old(State()), FinishDelete(refresh))
    {
      refresh := succeeded;
      if refresh {
        openMenuId, openStatusId := None, None;
      }
      deleting := false;
      deleteTarget := None;
    }

    /** `handleStatusChange`: the update request for the row (none when the
        row is not in the list, which throws inside the handler), a refresh
        only after a request that succeeded, and the dropdown closed in
        every case (by the remount that follows a refresh). */
    method HandleStatusChange(rows: seq<User>, userId: nat, newStatus: string, succeeded: bool)
      returns (request: Option<seq<Part>>, refresh: bool)
      modifies this
      ensures FindRow(rows, userId).None? ==> request.None?
      ensures FindRow(rows, userId).Some? ==> request == Some(StatusEntries(FindRow(rows, userId).value, newStatus))
      ensures refresh <==> request.Some? && succeeded
      ensures State() == Step(old(State()), StatusSettled(refresh))
    {
      var row := FindRow(rows, userId);
      if row.None? {
        request, refresh := None, false;
      } else {
        var form := AppendAll([], StatusEntries(row.value, newStatus));
        assert [] + StatusEntries(row.value, newStatus) == StatusEntries(row.value, newStatus);
        request, refresh := Some(form), succeeded;
      }
      if refresh {
        openMenuId, deleteTarget, deleting := None, None, false;
      }
      openStatusId := None;
    }
  }
}
