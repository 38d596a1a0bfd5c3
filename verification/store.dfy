/** The item operations of the document store wrapper (src/lib/firestore.js)
    against an abstract collection: what `createItem` writes, which
    documents a user's query returns, how each becomes a record, and their
    client-side order. The store itself (ids, timestamps, failures) is a
    parameter. */
module Store {

  import opened Options
  import opened Seqs

  /** A field value as far as these operations look at it. A server
      timestamp reads as `Pending` until the server has set it. */
  datatype Value = Str(s: string) | Bool(b: bool) | Num(n: int) | Timestamp(millis: int) | Pending | Other

  type Fields = map<string, Value>

  /** A document: its id in the collection and its data. */
  datatype Document = Document(docId: string, data: Fields)

  /** What a call to the store came to. */
  datatype Outcome<T> = Done(value: T) | Failed

  /** The fields `createItem` forces, whatever the caller passed. */
  function Defaults(uid: string): (d: Fields)
    ensures d.Keys == {"userId", "status", "isPinned", "isCompleted", "createdAt", "updatedAt"}
  {
    map["userId" := Str(uid), "status" := Str("active"), "isPinned" := Bool(false), "isCompleted" := Bool(false),
        "createdAt" := Pending, "updatedAt" := Pending]
  }

  /** `createItem`: a new document holding the caller's fields overlaid
      with the defaults. `newId` is the id the store allocates and
      `written` whether the write went through; a failure is rethrown. */
  function CreateItem(collection: seq<Document>, uid: string, itemData: Fields, newId: string, written: bool)
    : (r: (seq<Document>, Outcome<string>))
    ensures !written ==> r == (collection, Failed)
    ensures written ==> r.1 == Done(newId) && |r.0| == |collection| + 1 && r.0[..|collection|] == collection
    ensures written ==> var data := r.0[|collection|].data;
      && data.Keys == itemData.Keys + Defaults(uid).Keys
      && r.0[|collection|].docId == newId
      && data["userId"] == Str(uid) && data["status"] == Str("active")
      && data["isPinned"] == Bool(false) && data["isCompleted"] == Bool(false)
      && data["createdAt"] == Pending && data["updatedAt"] == Pending
      && (forall k :: k in itemData && k !in Defaults(uid) ==> data[k] == itemData[k])
  {
    if !written then (collection, Failed)
    else (collection + [Document(newId, itemData + Defaults(uid))], Done(newId))
  }

  /** The query's `where` clauses: the owner, and the completion flag when
      the filter gives one. A missing field matches no equality. */
  predicate Matches(doc: Document, uid: string, isCompleted: Option<bool>) {
    && "userId" in doc.data && doc.data["userId"] == Str(uid)
    && (isCompleted.Some? ==> "isCompleted" in doc.data && doc.data["isCompleted"] == Bool(isCompleted.value))
  }

  /** `{ id: doc.id, ...doc.data() }`: a stored `id` field wins. */
  function Record(doc: Document): (r: Fields)
    ensures r.Keys == doc.data.Keys + {"id"}
    ensures r["id"] == (if "id" in doc.data then doc.data["id"] else Str(doc.docId))
    ensures forall k :: k in doc.data ==> r[k] == doc.data[k]
  {
    map["id" := Str(doc.docId)] + doc.data
  }

  /** `createdAt?.toMillis?.() || 0`. */
  function CreatedMillis(r: Fields): (m: int)
    ensures "createdAt" in r && r["createdAt"].Timestamp? ==> m == r["createdAt"].millis
    ensures !("createdAt" in r && r["createdAt"].Timestamp?) ==> m == 0
  {
    if "createdAt" in r && r["createdAt"].Timestamp? then r["createdAt"].millis else 0
  }

  /** The comparator `dateB - dateA` as an order: newer first. */
  function NewerFirst(a: Fields, b: Fields): bool {
    CreatedMillis(a) >= CreatedMillis(b)
  }

  lemma NewerFirstIsTotalPreorder()
    ensures TotalPreorder(NewerFirst)
  {
  }

  function MatchesQuery(uid: string, isCompleted: Option<bool>): Document -> bool {
    (doc: Document) => Matches(doc, uid, isCompleted)
  }

  function Records(docs: seq<Document>): (r: seq<Fields>)
    ensures |r| == |docs|
    ensures forall k :: 0 <= k < |docs| ==> r[k] == Record(docs[k])
  {
    seq(|docs|, k requires 0 <= k < |docs| => Record(docs[k]))
  }

  /** What `getUserItems` hands its callback and `fetchUserItemsOnce`
      returns: the matching documents as records, newest first. */
  function UserItems(collection: seq<Document>, uid: string, isCompleted: Option<bool>): (r: seq<Fields>)
    ensures multiset(r) == multiset(Records(Filter(collection, MatchesQuery(uid, isCompleted))))
  {
    StableSort(Records(Filter(collection, MatchesQuery(uid, isCompleted))), NewerFirst)
  }

  lemma RecordsMembership(docs: seq<Document>, x: Fields)
    ensures x in Records(docs) <==> exists d :: d in docs && x == Record(d)
  {
    if x in Records(docs) {
      var k :| 0 <= k < |docs| && Records(docs)[k] == x;
      assert docs[k] in docs;
    }
    if d :| d in docs && x == Record(d) {
      var k :| 0 <= k < |docs| && docs[k] == d;
      assert Records(docs)[k] == x;
    }
  }

  /** The result holds exactly the records of the user's documents that
      pass the filter. */
  lemma UserItemsMembers(collection: seq<Document>, uid: string, isCompleted: Option<bool>, x: Fields)
    ensures x in UserItems(collection, uid, isCompleted) <==>
      exists d :: d in collection && Matches(d, uid, isCompleted) && x == Record(d)
  {
    var kept := Filter(collection, MatchesQuery(uid, isCompleted));
    var r := UserItems(collection, uid, isCompleted);
    assert x in r <==> x in multiset(r);
    assert x in Records(kept) <==> x in multiset(Records(kept));
    RecordsMembership(kept, x);
    assert forall d :: d in kept <==> d in collection && Matches(d, uid, isCompleted);
  }

  /** The result is newest first. */
  lemma UserItemsOrdered(collection: seq<Document>, uid: string, isCompleted: Option<bool>)
    ensures var r := UserItems(collection, uid, isCompleted);
      forall i, j :: 0 <= i < j < |r| ==> CreatedMillis(r[i]) >= CreatedMillis(r[j])
  {
    var recs := Records(Filter(collection, MatchesQuery(uid, isCompleted)));
    var r := UserItems(collection, uid, isCompleted);
    NewerFirstIsTotalPreorder();
    StableSortSorted(recs, NewerFirst);
    forall i, j | 0 <= i < j < |r|
      ensures CreatedMillis(r[i]) >= CreatedMillis(r[j])
    {
      assert NewerFirst(r[i], r[j]);
    }
  }

  /** A document created by a user shows up in that user's unfiltered
      result and in no other user's. */
  lemma CreatedItemIsListed(collection: seq<Document>, uid: string, other: string, itemData: Fields, newId: string)
    requires other != uid
    ensures var after := CreateItem(collection, uid, itemData, newId, true).0;
      && Record(after[|collection|]) in UserItems(after, uid, None)
      && Record(after[|collection|]) !in UserItems(after, other, None)
  {
    var after := CreateItem(collection, uid, itemData, newId, true).0;
    var doc := after[|collection|];
    assert doc in after;
    UserItemsMembers(after, uid, None, Record(doc));
    UserItemsMembers(after, other, None, Record(doc));
    forall d | d in after && Matches(d, other, None)
      ensures Record(d) != Record(doc)
    {
      assert Record(d)["userId"] == Str(other);
      assert Record(doc)["userId"] == Str(uid);
    }
  }

  /** `updateItem`: the fields are merged into the document when the
      store accepts the write; a failure is rethrown and nothing changes. */
  function UpdateItem(collection: seq<Document>, itemId: string, updates: Fields, written: bool)
    : (r: (seq<Document>, Outcome<()>))
    ensures !written ==> r == (collection, Failed)
    ensures written ==> r.1 == Done(()) && |r.0| == |collection|
    ensures written ==> forall k :: 0 <= k < |collection| ==>
      && r.0[k].docId == collection[k].docId
      && (collection[k].docId == itemId ==> r.0[k].data == collection[k].data + updates)
      && (collection[k].docId != itemId ==> r.0[k] == collection[k])
  {
    if !written then (collection, Failed)
    else (seq(|collection|, k requires 0 <= k < |collection| =>
            if collection[k].docId == itemId then Document(itemId, collection[k].data + updates) else collection[k]),
          Done(()))
  }

  /** `deleteItem`: the document is gone when the store accepts the
      delete; a failure is rethrown and nothing changes. */
  function DeleteItem(collection: seq<Document>, itemId: string, written: bool): (r: (seq<Document>, Outcome<()>))
    ensures !written ==> r == (collection, Failed)
    ensures written ==> r.1 == Done(())
    ensures written ==> forall d :: d in r.0 <==> d in collection && d.docId != itemId
  {
    if !written then (collection, Failed)
    else (Filter(collection, HasOtherDocId(itemId)), Done(()))
  }

  function HasOtherDocId(itemId: string): Document -> bool {
    (d: Document) => d.docId != itemId
  }

  /** The names the store module exports. */
  const Exports: set<string> := {
    "createUser", "getUser", "updateUser", "createItem", "addItem", "getUserItems", "fetchUserItemsOnce",
    "updateItem", "deleteItem", "submitFeedback", "Timestamp", "serverTimestamp"
  }

  function NotOwnedBy(uid: string): Document -> bool {
    (d: Document) => !Matches(d, uid, None)
  }

  /** The bulk delete the settings page asks the store for, as its caller
      evidently expects it: every document of the user is removed when the
      store accepts the deletes, and nothing changes on a failure. The
      store module defines no such operation. */
  function DeleteAllUserItems(collection: seq<Document>, uid: string, written: bool): (r: (seq<Document>, Outcome<()>))
    ensures !written ==> r == (collection, Failed)
    ensures written ==> r.1 == Done(())
    ensures written ==> forall d :: d in r.0 <==> d in collection && !Matches(d, uid, None)
  {
    if !written then (collection, Failed)
    else (Filter(collection, NotOwnedBy(uid)), Done(()))
  }

  /** After the bulk delete the user's listing is empty, and every other
      user's listing holds the same records as before. */
  lemma DeleteAllEmptiesListing(collection: seq<Document>, uid: string, other: string, isCompleted: Option<bool>,
                                x: Fields)
    requires other != uid
    ensures UserItems(DeleteAllUserItems(collection, uid, true).0, uid, isCompleted) == []
    ensures x in UserItems(DeleteAllUserItems(collection, uid, true).0, other, isCompleted) <==>
      x in UserItems(collection, other, isCompleted)
  {
    var after := DeleteAllUserItems(collection, uid, true).0;
    var listed := UserItems(after, uid, isCompleted);
    if listed != [] {
      UserItemsMembers(after, uid, isCompleted, listed[0]);
      assert false;
    }
    UserItemsMembers(after, other, isCompleted, x);
    UserItemsMembers(collection, other, isCompleted, x);
  }

  /** After a delete, a user's listing holds exactly the records of that
      user's other documents; unless some document stores its own `id`
      field, no listed record carries the deleted id. */
  lemma DeletedItemLeavesListing(collection: seq<Document>, uid: string, isCompleted: Option<bool>, itemId: string,
                                 x: Fields)
    ensures var after := DeleteItem(collection, itemId, true).0;
      x in UserItems(after, uid, isCompleted) <==>
        exists d :: d in collection && d.docId != itemId && Matches(d, uid, isCompleted) && x == Record(d)
    ensures var after := DeleteItem(collection, itemId, true).0;
      (forall d :: d in collection ==> "id" !in d.data) && x in UserItems(after, uid, isCompleted) ==>
        x["id"] != Str(itemId)
  {
    var after := DeleteItem(collection, itemId, true).0;
    UserItemsMembers(after, uid, isCompleted, x);
  }

  /** The listed record `r2` stands where `r` stood: same `id`, same
      creation time, and either unchanged or overlaid with the updates. */
  predicate ListedAs(r: Fields, r2: Fields, updates: Fields) {
    && "id" in r && "id" in r2 && r2["id"] == r["id"]
    && CreatedMillis(r2) == CreatedMillis(r)
    && (r2 == r || r2 == r + updates)
  }

  function ListedAlike(updates: Fields): (Fields, Fields) -> bool {
    (r: Fields, r2: Fields) => ListedAs(r, r2, updates)
  }

  /** A document before and after `updateItem` accepted the updates. */
  function SameOrUpdated(itemId: string, updates: Fields): (Document, Document) -> bool {
    (d: Document, d2: Document) => d2 == d || (d.docId == itemId && d2 == Document(itemId, d.data + updates))
  }

  /** An update touching none of `userId`, `createdAt` and `id` (nor
      `isCompleted` when the listing filters on it) leaves the listing's
      entries where they were: the same ids in the same order, each entry
      unchanged or overlaid with the updates. */
  lemma UpdateKeepsListing(collection: seq<Document>, uid: string, isCompleted: Option<bool>, itemId: string,
                           updates: Fields)
    requires "userId" !in updates && "createdAt" !in updates && "id" !in updates
    requires isCompleted.Some? ==> "isCompleted" !in updates
    ensures var before := UserItems(collection, uid, isCompleted);
      var after := UserItems(UpdateItem(collection, itemId, updates, true).0, uid, isCompleted);
      |after| == |before| && forall k :: 0 <= k < |before| ==> ListedAs(before[k], after[k], updates)
  {
    var updated := UpdateItem(collection, itemId, updates, true).0;
    var q := MatchesQuery(uid, isCompleted);
    UpdatedPointwise(collection, itemId, updates);
    QueryBlindToUpdate(uid, isCompleted, itemId, updates);
    FilterPointwise(collection, updated, q, SameOrUpdated(itemId, updates));
    RecordsListedAlike(Filter(collection, q), Filter(updated, q), itemId, updates);
    ListedAlikeRespectsOrder(updates);
    StableSortPointwise(Records(Filter(collection, q)), Records(Filter(updated, q)), NewerFirst, ListedAlike(updates));
  }

  lemma UpdatedPointwise(collection: seq<Document>, itemId: string, updates: Fields)
    ensures Pointwise(collection, UpdateItem(collection, itemId, updates, true).0, SameOrUpdated(itemId, updates))
  {
  }

  /** The query cannot tell a document from its update. */
  lemma QueryBlindToUpdate(uid: string, isCompleted: Option<bool>, itemId: string, updates: Fields)
    requires "userId" !in updates
    requires isCompleted.Some? ==> "isCompleted" !in updates
    ensures forall a, b :: SameOrUpdated(itemId, updates)(a, b) ==>
      (MatchesQuery(uid, isCompleted)(a) <==> MatchesQuery(uid, isCompleted)(b))
  {
    forall a, b | SameOrUpdated(itemId, updates)(a, b)
      ensures MatchesQuery(uid, isCompleted)(a) <==> MatchesQuery(uid, isCompleted)(b)
    {
      if b != a {
        assert b.data == a.data + updates;
      }
    }
  }

  lemma RecordsListedAlike(kept: seq<Document>, kept2: seq<Document>, itemId: string, updates: Fields)
    requires "createdAt" !in updates && "id" !in updates
    requires Pointwise(kept, kept2, SameOrUpdated(itemId, updates))
    ensures Pointwise(Records(kept), Records(kept2), ListedAlike(updates))
  {
    forall k | 0 <= k < |kept|
      ensures ListedAlike(updates)(Records(kept)[k], Records(kept2)[k])
    {
      UpdatedRecord(kept[k], kept2[k], itemId, updates);
    }
  }

  lemma ListedAlikeRespectsOrder(updates: Fields)
    ensures RespectsOrder(ListedAlike(updates), NewerFirst)
  {
  }

  /** The record of an updated document is the old record overlaid with
      the updates. */
  lemma UpdatedRecord(d: Document, d2: Document, itemId: string, updates: Fields)
    requires "createdAt" !in updates && "id" !in updates
    requires SameOrUpdated(itemId, updates)(d, d2)
    ensures ListedAs(Record(d), Record(d2), updates)
  {
    if d2 != d {
      assert Record(d2) == Record(d) + updates;
    }
  }
}
