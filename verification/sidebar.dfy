/** The sidebar's counters and navigation (src/components/layout/Sidebar.jsx):
    the active, completed and total counts kept from the live snapshot, the
    badge rule, and the tab the New Item button asks for. */
module Sidebar {

  import opened Options
  import opened Seqs
  import opened Items
  import opened Query
  import Capture

  datatype Counts = Counts(active: nat, completed: nat, total: nat)

  /** The counts before any snapshot (and for ever without a user). */
  const NoCounts := Counts(0, 0, 0)

  /** The counts one snapshot yields. */
  function SnapshotCounts(items: seq<Item>): (c: Counts)
    ensures c.total == |items|
    ensures c.active + c.completed == c.total
    ensures c.active == |ActiveItems(items)| && c.completed == |CompletedItems(items)|
  {
    ActiveCompletedPartition(items);
    Counts(|Filter(items, IsActiveItem)|, |Filter(items, IsCompletedItem)|, |items|)
  }

  /** No active items means every item is completed, and the other way
      round. */
  lemma NoActiveMeansAllCompleted(items: seq<Item>)
    ensures SnapshotCounts(items).active == 0 <==> forall k :: 0 <= k < |items| ==> items[k].isCompleted
  {
    ActiveCompletedPartition(items);
    if SnapshotCounts(items).active == 0 {
      forall k | 0 <= k < |items|
        ensures items[k].isCompleted
      {
        assert items[k] in items;
      }
    } else {
      var x := ActiveItems(items)[0];
      assert x in ActiveItems(items);
      var k :| 0 <= k < |items| && items[k] == x;
    }
  }

  /** The counters as the effect keeps them: unchanged without a user,
      otherwise those of the latest snapshot. */
  function Listen(current: Counts, uid: Option<string>, snapshot: seq<Item>): (c: Counts)
    ensures uid.None? || uid.value == [] ==> c == current
    ensures uid.Some? && uid.value != [] ==> c.total == |snapshot| && c.active + c.completed == |snapshot|
    ensures uid.Some? && uid.value != [] ==>
      c.active == |ActiveItems(snapshot)| && c.completed == |CompletedItems(snapshot)|
  {
    if uid.None? || uid.value == [] then current else SnapshotCounts(snapshot)
  }

  /** A navigation badge shows only in the expanded sidebar and only for a
      positive count; a link without a count never shows one. */
  function ShowsBadge(badge: Option<nat>, collapsed: bool): (b: bool)
    ensures b ==> badge.Some? && badge.value > 0
    ensures !collapsed && badge.Some? && badge.value > 0 ==> b
  {
    !collapsed && badge.Some? && badge.value > 0
  }

  /** The "Everything" link's badge is the active count. */
  lemma EverythingBadge(items: seq<Item>)
    ensures ShowsBadge(Some(SnapshotCounts(items).active), false) <==> exists k :: 0 <= k < |items| && !items[k].isCompleted
  {
    NoActiveMeansAllCompleted(items);
  }

  /** The tab the New Item button requests. */
  const NewItemTab: ItemType := Video

  /** New Item opens the capture modal on the video tab. */
  lemma NewItemOpensVideoTab(d: Capture.Draft)
    ensures Capture.OpenChanged(d, true, Some(NewItemTab)).tab == Video
  {
  }
}
