/** Selection state machines: the Library keeps a set of ids and offers
    select-all (src/pages/Library.jsx), the Dashboard keeps a list of ids
    plus a bulk-mode flag (src/pages/Dashboard.jsx). Store writes are
    returned as requests; whether they all succeed is a parameter. */
module Selection {

  import opened Seqs
  import opened Items
  import opened Query

  /** A store write issued by a bulk action. */
  datatype Request = SetCompleted(id: string, value: bool) | DeleteItem(id: string)

  /** Whether every promise of a `Promise.all` resolved. */
  datatype Outcome = AllSucceeded | SomeFailed

  // ---------------------------------------------------------------------
  // Library: a set of ids

  function LibraryToggle(selected: set<string>, id: string): (r: set<string>)
    ensures id in r <==> id !in selected
    ensures forall x :: x != id ==> (x in r <==> x in selected)
  {
    if id in selected then selected - {id} else selected + {id}
  }

  lemma LibraryToggleTwice(selected: set<string>, id: string)
    ensures LibraryToggle(LibraryToggle(selected, id), id) == selected
  {
  }

  function LibraryClear(selected: set<string>): (r: set<string>)
    ensures r == {}
  {
    {}
  }

  /** The select-all button: clears when the set is as large as the visible
      list, otherwise selects exactly the visible ids. */
  function LibrarySelectAll(selected: set<string>, visible: seq<Item>): (r: set<string>)
    ensures |selected| == |visible| ==> r == {}
    ensures |selected| != |visible| ==> forall x :: x in r <==> x in Ids(visible)
  {
    if |selected| == |visible| then LibraryClear(selected) else ToSet(Ids(visible))
  }

  /** With distinct visible ids, pressing select-all twice from a partial
      selection ends with nothing selected. */
  lemma LibrarySelectAllTwice(selected: set<string>, visible: seq<Item>)
    requires NoDup(Ids(visible))
    requires |selected| != |visible|
    ensures LibrarySelectAll(LibrarySelectAll(selected, visible), visible) == {}
  {
    NoDupToSetSize(Ids(visible));
  }

  /** The Library selection after a bulk action and the writes it issued. */
  datatype LibraryBulk = LibraryBulk(requests: set<Request>, selected: set<string>)

  /** `handleBulkMarkComplete(status)`: one write per selected id; the
      selection is cleared only when every write succeeded. */
  function LibraryBulkMarkComplete(selected: set<string>, status: bool, outcome: Outcome): (r: LibraryBulk)
    ensures forall q :: q in r.requests <==> q.SetCompleted? && q.id in selected && q.value == status
    ensures outcome == AllSucceeded ==> r.selected == {}
    ensures outcome == SomeFailed ==> r.selected == selected
  {
    var requests := set id | id in selected :: SetCompleted(id, status);
    LibraryBulk(requests, if outcome == AllSucceeded then LibraryClear(selected) else selected)
  }

  /** `handleBulkDelete`: nothing happens unless the user confirms. */
  function LibraryBulkDelete(selected: set<string>, confirmed: bool, outcome: Outcome): (r: LibraryBulk)
    ensures !confirmed ==> r == LibraryBulk({}, selected)
    ensures confirmed ==> forall q :: q in r.requests <==> q.DeleteItem? && q.id in selected
    ensures confirmed && outcome == AllSucceeded ==> r.selected == {}
    ensures outcome == SomeFailed ==> r.selected == selected
  {
    if !confirmed then LibraryBulk({}, selected)
    else
      var requests := set id | id in selected :: DeleteItem(id);
      LibraryBulk(requests, if outcome == AllSucceeded then LibraryClear(selected) else selected)
  }

  // ---------------------------------------------------------------------
  // Dashboard: a list of ids plus bulk mode

  datatype DashboardState = DashboardState(selected: seq<string>, bulkMode: bool, viewMode: ViewMode)

  /** `toggleSelection(id)`: bulk mode on, membership of `id` flipped. */
  function DashboardToggle(st: DashboardState, id: string): (r: DashboardState)
    ensures r.bulkMode && r.viewMode == st.viewMode
    ensures id in r.selected <==> id !in st.selected
    ensures forall x :: x != id ==> (x in r.selected <==> x in st.selected)
    ensures NoDup(st.selected) ==> NoDup(r.selected)
  {
    ToggleKeepsNoDup(st.selected, id);
    var selected := if id in st.selected then RemoveAll(st.selected, id) else st.selected + [id];
    st.(selected := selected, bulkMode := true)
  }

  lemma ToggleKeepsNoDup(s: seq<string>, id: string)
    ensures NoDup(s) && id in s ==> NoDup(RemoveAll(s, id))
    ensures NoDup(s) && id !in s ==> NoDup(s + [id])
  {
    if NoDup(s) && id in s {
      RemoveAllKeepsNoDup(s, id);
    }
  }

  /** Toggling an unselected id twice restores the list exactly; toggling a
      selected one twice restores its membership. */
  lemma DashboardToggleTwice(st: DashboardState, id: string)
    ensures forall x :: x in DashboardToggle(DashboardToggle(st, id), id).selected <==> x in st.selected
    ensures id !in st.selected ==> DashboardToggle(DashboardToggle(st, id), id).selected == st.selected
  {
    if id !in st.selected {
      RemoveAllAppended(st.selected, id);
    }
  }

  /** `clearSelection`: nothing selected and bulk mode off. */
  function DashboardClear(st: DashboardState): (r: DashboardState)
    ensures r.selected == [] && !r.bulkMode
    ensures r.viewMode == st.viewMode
  {
    st.(selected := [], bulkMode := false)
  }

  /** The Active/Completed buttons set the view and always clear. */
  function SwitchView(st: DashboardState, mode: ViewMode): (r: DashboardState)
    ensures r.viewMode == mode
    ensures r == DashboardClear(st).(viewMode := mode)
  {
    DashboardClear(st).(viewMode := mode)
  }

  /** The All/None button of the bulk bar. */
  function DashboardSelectAll(st: DashboardState, visible: seq<Item>): (r: DashboardState)
    ensures |st.selected| == |visible| ==> r.selected == []
    ensures |st.selected| != |visible| ==> r.selected == Ids(visible)
    ensures r.bulkMode == st.bulkMode && r.viewMode == st.viewMode
  {
    st.(selected := if |st.selected| == |visible| then [] else Ids(visible))
  }

  /** From a partial selection the button selects everything shown; a
      second press clears it again. */
  lemma DashboardSelectAllTwice(st: DashboardState, visible: seq<Item>)
    requires |st.selected| != |visible|
    ensures DashboardSelectAll(DashboardSelectAll(st, visible), visible).selected == []
  {
  }

  /** The new state after a bulk action and the writes it issued, in
      selection order. */
  datatype DashboardBulk = DashboardBulk(requests: seq<Request>, state: DashboardState)

  /** One `isCompleted` write per id, in order. */
  function StatusRequests(ids: seq<string>, status: bool): (r: seq<Request>)
    ensures |r| == |ids|
    ensures forall k :: 0 <= k < |ids| ==> r[k] == SetCompleted(ids[k], status)
  {
    seq(|ids|, k requires 0 <= k < |ids| => SetCompleted(ids[k], status))
  }

  /** `handleBulkStatusChange`: every selected id is written with
      `isCompleted = (viewMode != 'completed')`, whatever its prior state;
      the selection is cleared only on full success. */
  function DashboardBulkStatus(st: DashboardState, outcome: Outcome): (r: DashboardBulk)
    ensures |r.requests| == |st.selected|
    ensures forall k :: 0 <= k < |st.selected| ==>
      r.requests[k] == SetCompleted(st.selected[k], st.viewMode != CompletedView)
    ensures outcome == AllSucceeded ==> r.state == DashboardClear(st)
    ensures outcome == SomeFailed ==> r.state == st
  {
    var status := st.viewMode != CompletedView;
    var requests := StatusRequests(st.selected, status);
    DashboardBulk(requests, if outcome == AllSucceeded then DashboardClear(st) else st)
  }

  function DeleteRequests(ids: seq<string>): (r: seq<Request>)
    ensures |r| == |ids|
    ensures forall k :: 0 <= k < |ids| ==> r[k] == DeleteItem(ids[k])
  {
    seq(|ids|, k requires 0 <= k < |ids| => DeleteItem(ids[k]))
  }

  /** `handleBulkDelete`: only after confirmation; clears on full success. */
  function DashboardBulkDelete(st: DashboardState, confirmed: bool, outcome: Outcome): (r: DashboardBulk)
    ensures !confirmed ==> r == DashboardBulk([], st)
    ensures confirmed ==> |r.requests| == |st.selected|
    ensures confirmed ==> forall k :: 0 <= k < |st.selected| ==> r.requests[k] == DeleteItem(st.selected[k])
    ensures confirmed && outcome == AllSucceeded ==> r.state == DashboardClear(st)
    ensures outcome == SomeFailed ==> r.state == st
  {
    if !confirmed then DashboardBulk([], st)
    else
      var requests := DeleteRequests(st.selected);
      DashboardBulk(requests, if outcome == AllSucceeded then DashboardClear(st) else st)
  }

  /** The effect of the writes on the item list, one after another. */
  function ApplyRequests(items: seq<Item>, requests: seq<Request>): (r: seq<Item>)
    decreases |requests|
  {
    if requests == [] then items
    else
      var q := requests[0];
      var next := match q
        case SetCompleted(id, value) => SetStatus(items, id, value)
        case DeleteItem(id) => Filter(items, HasOtherId(id));
      ApplyRequests(next, requests[1..])
  }

  /** One `isCompleted` write: the item with that id takes the value. */
  function SetStatus(items: seq<Item>, id: string, value: bool): (r: seq<Item>)
    ensures |r| == |items|
    ensures forall k :: 0 <= k < |items| ==> r[k].id == items[k].id
    ensures forall k :: 0 <= k < |items| ==>
      r[k].isCompleted == if items[k].id == id then value else items[k].isCompleted
    ensures forall k :: 0 <= k < |items| ==> r[k] == items[k].(isCompleted := r[k].isCompleted)
  {
    seq(|items|, k requires 0 <= k < |items| => if items[k].id == id then items[k].(isCompleted := value) else items[k])
  }

  /** Once the status writes have landed, no selected item is left in the
      view they were selected from. */
  lemma BulkStatusEmptiesView(items: seq<Item>, st: DashboardState, outcome: Outcome)
    ensures var after := ApplyRequests(items, DashboardBulkStatus(st, outcome).requests);
      forall x :: x in BaseItems(after, st.viewMode) ==> x.id !in st.selected
  {
    var status := st.viewMode != CompletedView;
    var requests := StatusRequests(st.selected, status);
    var after := ApplyRequests(items, requests);
    StatusWritesLand(items, st.selected, status);
    ActiveCompletedPartition(after);
    forall x | x in BaseItems(after, st.viewMode)
      ensures x.id !in st.selected
    {
      assert x in after && (x.isCompleted <==> st.viewMode == CompletedView);
      var k :| 0 <= k < |after| && after[k] == x;
      assert after[k].id == items[k].id;
      assert x.id in st.selected ==> x.isCompleted == status;
    }
  }

  lemma {:induction false} StatusWritesLand(items: seq<Item>, ids: seq<string>, status: bool)
    ensures var after := ApplyRequests(items, StatusRequests(ids, status));
      && |after| == |items|
      && (forall k :: 0 <= k < |after| ==> after[k].id == items[k].id)
      && (forall k :: 0 <= k < |after| ==>
            after[k] == items[k].(isCompleted := if items[k].id in ids then status else items[k].isCompleted))
    decreases |ids|
  {
    if ids != [] {
      var next := SetStatus(items, ids[0], status);
      ApplyFirstStatus(items, ids, status);
      StatusWritesLand(next, ids[1..], status);
      MembersOfCons(ids);
      var after := ApplyRequests(next, StatusRequests(ids[1..], status));
      forall k | 0 <= k < |after|
        ensures after[k] == items[k].(isCompleted := if items[k].id in ids then status else items[k].isCompleted)
      {
        StatusStep(items[k], next[k], after[k], ids, status);
      }
    }
  }

  /** The first status write lands before the rest. */
  lemma ApplyFirstStatus(items: seq<Item>, ids: seq<string>, status: bool)
    requires ids != []
    ensures ApplyRequests(items, StatusRequests(ids, status))
      == ApplyRequests(SetStatus(items, ids[0], status), StatusRequests(ids[1..], status))
  {
    assert StatusRequests(ids, status)[1..] == StatusRequests(ids[1..], status);
  }

  lemma MembersOfCons(ids: seq<string>)
    requires ids != []
    ensures forall x :: x in ids <==> x == ids[0] || x in ids[1..]
  {
    assert ids == [ids[0]] + ids[1..];
  }

  /** Composing the first write with the rest, for one item. */
  lemma StatusStep(item: Item, mid: Item, fin: Item, ids: seq<string>, status: bool)
    requires ids != []
    requires forall x :: x in ids <==> x == ids[0] || x in ids[1..]
    requires mid == item.(isCompleted := if item.id == ids[0] then status else item.isCompleted)
    requires fin == mid.(isCompleted := if mid.id in ids[1..] then status else mid.isCompleted)
    ensures fin == item.(isCompleted := if item.id in ids then status else item.isCompleted)
  {
  }

  /** Once confirmed deletions have landed, the remaining items are
      exactly the old ones whose id was not selected. */
  lemma {:induction false} DeleteWritesLand(items: seq<Item>, ids: seq<string>)
    ensures forall x :: x in ApplyRequests(items, DeleteRequests(ids)) <==> x in items && x.id !in ids
    decreases |ids|
  {
    if ids != [] {
      var next := Filter(items, HasOtherId(ids[0]));
      assert DeleteRequests(ids)[1..] == DeleteRequests(ids[1..]);
      assert ApplyRequests(items, DeleteRequests(ids)) == ApplyRequests(next, DeleteRequests(ids[1..]));
      DeleteWritesLand(next, ids[1..]);
      MembersOfCons(ids);
      forall x ensures x in next <==> x in items && x.id != ids[0] {
        assert HasOtherId(ids[0])(x) == (x.id != ids[0]);
      }
    }
  }
}
