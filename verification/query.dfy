/** The item query engine: the filtered, sorted list the Library page and
    the Dashboard render (src/pages/Library.jsx `filteredItems`,
    src/pages/Dashboard.jsx `activeItems`, `completedItems`,
    `filteredAndSortedItems` and the FilterToolbar counts). */
module Query {

  import opened Options
  import opened Text
  import opened Seqs
  import opened Items

  datatype SortOrder = Newest | Oldest | AToZ | Unrecognised

  /** The type pill: 'all' or one item type. */
  datatype TypeFilter = AllTypes | OnlyType(t: ItemType)

  /** `localeCompare` is consistent: its sign flips when the arguments are
      swapped, and "not after" is transitive. */
  ghost predicate ConsistentCollation(localeCompare: (string, string) -> int) {
    && (forall a, b :: localeCompare(a, b) < 0 <==> localeCompare(b, a) > 0)
    && (forall a, b, c :: localeCompare(a, b) <= 0 && localeCompare(b, c) <= 0 ==> localeCompare(a, c) <= 0)
  }

  function PinRank(i: Item): int {
    if i.isPinned then 1 else 0
  }

  /** The sort callback both pages pass to `Array.prototype.sort`: negative
      means `a` goes first. */
  function ItemCompare(order: SortOrder, localeCompare: (string, string) -> int, a: Item, b: Item): int {
    if a.isPinned != b.isPinned then PinRank(b) - PinRank(a)
    else match order
      case Newest => DateOf(b) - DateOf(a)
      case Oldest => DateOf(a) - DateOf(b)
      case AToZ => localeCompare(TitleOf(a), TitleOf(b))
      case Unrecognised => 0
  }

  /** "a may stay in front of b": the comparator does not ask for a swap. */
  function ItemOrder(order: SortOrder, localeCompare: (string, string) -> int): (Item, Item) -> bool {
    (a: Item, b: Item) => ItemCompare(order, localeCompare, a, b) <= 0
  }

  lemma ItemOrderIsTotalPreorder(order: SortOrder, localeCompare: (string, string) -> int)
    requires ConsistentCollation(localeCompare)
    ensures TotalPreorder(ItemOrder(order, localeCompare))
  {
    var leq := ItemOrder(order, localeCompare);
    forall a, b
      ensures leq(a, b) || leq(b, a)
    {
      if order == AToZ && a.isPinned == b.isPinned {
        assert localeCompare(TitleOf(a), TitleOf(b)) < 0 <==> localeCompare(TitleOf(b), TitleOf(a)) > 0;
      }
    }
    forall a, b, c | leq(a, b) && leq(b, c)
      ensures leq(a, c)
    {
      if order == AToZ && a.isPinned == b.isPinned == c.isPinned {
        assert localeCompare(TitleOf(a), TitleOf(b)) <= 0 && localeCompare(TitleOf(b), TitleOf(c)) <= 0;
      }
    }
  }

  /** `result.sort(compare)`: a stable sort of the list by the comparator. */
  function SortItems(items: seq<Item>, order: SortOrder, localeCompare: (string, string) -> int): (r: seq<Item>)
    ensures multiset(r) == multiset(items)
    ensures forall x :: x in r <==> x in items
  {
    var r := StableSort(items, ItemOrder(order, localeCompare));
    assert forall x :: x in r <==> x in multiset(r);
    r
  }

  /** Pinned items come first; within equal pin status the chosen order
      holds: newest first, oldest first, or titles in collation order. */
  lemma SortItemsOrdered(items: seq<Item>, order: SortOrder, localeCompare: (string, string) -> int)
    requires ConsistentCollation(localeCompare)
    ensures var r := SortItems(items, order, localeCompare);
      forall i, j :: 0 <= i < j < |r| ==>
        && (r[j].isPinned ==> r[i].isPinned)
        && (r[i].isPinned == r[j].isPinned ==>
             && (order == Newest ==> DateOf(r[i]) >= DateOf(r[j]))
             && (order == Oldest ==> DateOf(r[i]) <= DateOf(r[j]))
             && (order == AToZ ==> localeCompare(TitleOf(r[i]), TitleOf(r[j])) <= 0))
  {
    ItemOrderIsTotalPreorder(order, localeCompare);
    StableSortSorted(items, ItemOrder(order, localeCompare));
    var r := SortItems(items, order, localeCompare);
    forall i, j | 0 <= i < j < |r|
      ensures ItemCompare(order, localeCompare, r[i], r[j]) <= 0
    {
      assert ItemOrder(order, localeCompare)(r[i], r[j]);
    }
  }

  function IsPinnedItem(i: Item): bool { i.isPinned }
  function IsUnpinnedItem(i: Item): bool { !i.isPinned }

  /** Under an unrecognised order, `a` may stay before `b` unless `b` is
      pinned and `a` is not. */
  lemma UnrecognisedOrderIsPinRule(lc: (string, string) -> int)
    ensures forall a, b :: ItemOrder(Unrecognised, lc)(a, b) == (a.isPinned || !b.isPinned)
  {
  }

  /** With an unrecognised sort order only the pin rule acts: the result is
      the pinned items, then the others, each group in input order. */
  lemma UnrecognisedOrderSplitsByPin(items: seq<Item>, lc: (string, string) -> int)
    ensures SortItems(items, Unrecognised, lc) == Filter(items, IsPinnedItem) + Filter(items, IsUnpinnedItem)
  {
    UnrecognisedOrderIsPinRule(lc);
    StableSortTwoBlocks(items, ItemOrder(Unrecognised, lc), IsPinnedItem, IsUnpinnedItem);
  }

  // ---------------------------------------------------------------------
  // Library: keyword table, whole-query field search, suppressed pill

  /** The platform keyword table, looked up by own key. */
  function PlatformTypes(key: string): (r: Option<set<ItemType>>)
    ensures r.Some? <==> key in PlatformKeys
  {
    if key == "youtube" then Some({Video, Playlist})
    else if key == "web" || key == "article" || key == "link" then Some({Link})
    else if key == "note" || key == "text" || key == "writing" then Some({Note})
    else if key == "video" then Some({Video})
    else if key == "playlist" then Some({Playlist})
    else None
  }

  const PlatformKeys: set<string> :=
    {"youtube", "web", "article", "link", "note", "text", "writing", "video", "playlist"}

  function HasTypeIn(ts: set<ItemType>): Item -> bool {
    (i: Item) => i.itemType in ts
  }

  function HasType(t: ItemType): Item -> bool {
    (i: Item) => i.itemType == t
  }

  /** The fields the Library search looks in, in order: title, description,
      url, channelTitle, domain, every tag, and for a note with content the
      content's plain text. */
  function SearchFields(i: Item, strip: string -> string): (r: seq<Option<string>>)
    ensures |r| >= 5
  {
    var tags := seq(|TagsOf(i)|, k requires 0 <= k < |TagsOf(i)| => Some(TagsOf(i)[k]));
    [i.title, i.description, i.url, i.channelTitle, i.domain] + tags
      + (if i.itemType == Note && Truthy(i.content) then [Some(strip(i.content.value))] else [])
  }

  /** Some non-empty field contains the whole query as one substring. */
  predicate FieldMatches(i: Item, q: string, strip: string -> string) {
    var fs := SearchFields(i, strip);
    exists k :: 0 <= k < |fs| && Truthy(fs[k]) && Contains(Lower(fs[k].value), q)
  }

  function MatchesQuery(q: string, strip: string -> string): Item -> bool {
    (i: Item) => FieldMatches(i, q, strip)
  }

  predicate HasSearchableField(i: Item, strip: string -> string) {
    var fs := SearchFields(i, strip);
    exists k :: 0 <= k < |fs| && Truthy(fs[k])
  }

  /** The step that narrows the list when the search box is not empty. */
  function SearchStep(items: seq<Item>, searchQuery: string, strip: string -> string): seq<Item> {
    if searchQuery == [] then items
    else
      var q := Trim(Lower(searchQuery));
      match PlatformTypes(q)
      case Some(ts) => Filter(items, HasTypeIn(ts))
      case None => Filter(items, MatchesQuery(q, strip))
  }

  function TypeFiltered(items: seq<Item>, filter: TypeFilter): seq<Item> {
    match filter
    case AllTypes => items
    case OnlyType(t) => Filter(items, HasType(t))
  }

  /** The Library's `filteredItems`. */
  function LibraryItems(items: seq<Item>, searchQuery: string, filter: TypeFilter, order: SortOrder,
                        localeCompare: (string, string) -> int, strip: string -> string): seq<Item>
  {
    var searched := SearchStep(items, searchQuery, strip);
    var typed := if searchQuery == [] then TypeFiltered(searched, filter) else searched;
    SortItems(typed, order, localeCompare)
  }

  /** A query that is a platform keyword keeps exactly the items of the
      mapped types, from all items, whatever the type pill says. */
  lemma LibraryKeywordQuery(items: seq<Item>, searchQuery: string, filter: TypeFilter, order: SortOrder,
                            lc: (string, string) -> int, strip: string -> string, ts: set<ItemType>)
    requires searchQuery != [] && PlatformTypes(Trim(Lower(searchQuery))) == Some(ts)
    ensures multiset(LibraryItems(items, searchQuery, filter, order, lc, strip)) == multiset(Filter(items, HasTypeIn(ts)))
    ensures forall x :: x in LibraryItems(items, searchQuery, filter, order, lc, strip) <==> x in items && x.itemType in ts
  {
    var searched := Filter(items, HasTypeIn(ts));
    assert SearchStep(items, searchQuery, strip) == searched;
    assert LibraryItems(items, searchQuery, filter, order, lc, strip) == SortItems(searched, order, lc);
  }

  /** Any other non-empty query keeps exactly the items with a non-empty
      field containing the lowered, trimmed query as one substring. */
  lemma LibraryTextQuery(items: seq<Item>, searchQuery: string, filter: TypeFilter, order: SortOrder,
                         lc: (string, string) -> int, strip: string -> string)
    requires searchQuery != [] && PlatformTypes(Trim(Lower(searchQuery))).None?
    ensures forall x :: x in LibraryItems(items, searchQuery, filter, order, lc, strip) <==>
      x in items && FieldMatches(x, Trim(Lower(searchQuery)), strip)
  {
    var q := Trim(Lower(searchQuery));
    var searched := Filter(items, MatchesQuery(q, strip));
    assert SearchStep(items, searchQuery, strip) == searched;
    assert LibraryItems(items, searchQuery, filter, order, lc, strip) == SortItems(searched, order, lc);
    forall x
      ensures x in searched <==> x in items && FieldMatches(x, q, strip)
    {
      assert MatchesQuery(q, strip)(x) == FieldMatches(x, q, strip);
    }
  }

  /** A query of white space only keeps every item with some non-empty
      searchable field, and still switches the type pill off. */
  lemma LibraryBlankQuery(items: seq<Item>, searchQuery: string, filter: TypeFilter, order: SortOrder,
                          lc: (string, string) -> int, strip: string -> string)
    requires searchQuery != [] && AllSpace(searchQuery)
    ensures forall x :: x in LibraryItems(items, searchQuery, filter, order, lc, strip) <==>
      x in items && HasSearchableField(x, strip)
  {
    var q := Trim(Lower(searchQuery));
    LowerKeepsSpaces(searchQuery);
    TrimEmptyIffAllSpace(Lower(searchQuery));
    assert q == [];
    assert PlatformTypes(q).None?;
    LibraryTextQuery(items, searchQuery, filter, order, lc, strip);
    forall x
      ensures FieldMatches(x, q, strip) <==> HasSearchableField(x, strip)
    {
      var fs := SearchFields(x, strip);
      forall k | 0 <= k < |fs| && Truthy(fs[k])
        ensures Contains(Lower(fs[k].value), q)
      {
        EmptyIsContained(Lower(fs[k].value));
      }
    }
  }

  /** With an empty search box the pill keeps exactly its type, or
      everything for 'all'. */
  lemma LibraryEmptyQuery(items: seq<Item>, filter: TypeFilter, order: SortOrder,
                          lc: (string, string) -> int, strip: string -> string)
    ensures forall x :: x in LibraryItems(items, [], filter, order, lc, strip) <==>
      x in items && (filter.OnlyType? ==> x.itemType == filter.t)
    ensures filter == AllTypes ==> multiset(LibraryItems(items, [], filter, order, lc, strip)) == multiset(items)
  {
    var typed := TypeFiltered(items, filter);
    assert LibraryItems(items, [], filter, order, lc, strip) == SortItems(typed, order, lc);
    TypeFilteredMembership(items, filter);
  }

  lemma TypeFilteredMembership(items: seq<Item>, filter: TypeFilter)
    ensures forall x :: x in TypeFiltered(items, filter) <==> x in items && (filter.OnlyType? ==> x.itemType == filter.t)
  {
    if filter.OnlyType? {
      forall x
        ensures x in TypeFiltered(items, filter) <==> x in items && x.itemType == filter.t
      {
        assert HasType(filter.t)(x) == (x.itemType == filter.t);
      }
    }
  }

  // ---------------------------------------------------------------------
  // The keyword table as written: a plain object literal

  /** What `platformMap[key]` yields for an object literal: one of the nine
      own arrays, a member inherited from `Object.prototype` (not an array),
      or `undefined`. */
  datatype KeywordLookup = OwnTypes(types: set<ItemType>) | InheritedMember | Absent

  /** The inherited members of `Object.prototype` whose names are lower
      case, so a lowered query can reach them. */
  const InheritedLowerNames: set<string> := {"constructor", "__proto__"}

  function PlatformLookupAsWritten(key: string): (r: KeywordLookup)
    ensures r.InheritedMember? <==> key in InheritedLowerNames
  {
    match PlatformTypes(key)
    case Some(ts) => OwnTypes(ts)
    case None => if key in InheritedLowerNames then InheritedMember else Absent
  }

  /** The memo either yields a list or throws a TypeError while filtering. */
  datatype Outcome = Rendered(items: seq<Item>) | Thrown

  /** `filteredItems` exactly as written: an inherited member is truthy, so
      the keyword branch runs and calls `.includes` on something that has
      none, for the first item it meets. */
  function LibraryItemsAsWritten(items: seq<Item>, searchQuery: string, filter: TypeFilter, order: SortOrder,
                                 localeCompare: (string, string) -> int, strip: string -> string): Outcome
  {
    if searchQuery != [] && PlatformLookupAsWritten(Trim(Lower(searchQuery))).InheritedMember? then
      if items == [] then Rendered([]) else Thrown
    else Rendered(LibraryItems(items, searchQuery, filter, order, localeCompare, strip))
  }

  /** The only queries on which the written code differs from the corrected
      lookup are the two inherited names. */
  lemma AsWrittenAgreesOffInheritedNames(items: seq<Item>, searchQuery: string, filter: TypeFilter, order: SortOrder,
                                          lc: (string, string) -> int, strip: string -> string)
    requires searchQuery == [] || Trim(Lower(searchQuery)) !in InheritedLowerNames
    ensures LibraryItemsAsWritten(items, searchQuery, filter, order, lc, strip)
      == Rendered(LibraryItems(items, searchQuery, filter, order, lc, strip))
  {
  }

  /** Typing "constructor" into the Library search with any item loaded
      throws instead of searching the text. */
  lemma ConstructorQueryThrows(items: seq<Item>, filter: TypeFilter, order: SortOrder,
                               lc: (string, string) -> int, strip: string -> string)
    requires items != []
    ensures LibraryItemsAsWritten(items, "constructor", filter, order, lc, strip) == Thrown
  {
    ConstructorIsInherited();
    InheritedQueryThrows(items, "constructor", filter, order, lc, strip);
  }

  /** "constructor" reaches the inherited member after lowering and trimming. */
  lemma ConstructorIsInherited()
    ensures PlatformLookupAsWritten(Trim(Lower("constructor"))).InheritedMember?
  {
    var q := "constructor";
    assert Lower(q) == q;
    TrimOfUnpadded(q);
  }

  /** Any query that reaches an inherited member throws once an item is loaded. */
  lemma InheritedQueryThrows(items: seq<Item>, searchQuery: string, filter: TypeFilter, order: SortOrder,
                             lc: (string, string) -> int, strip: string -> string)
    requires items != [] && searchQuery != []
    requires PlatformLookupAsWritten(Trim(Lower(searchQuery))).InheritedMember?
    ensures LibraryItemsAsWritten(items, searchQuery, filter, order, lc, strip) == Thrown
  {
  }

  // ---------------------------------------------------------------------
  // Dashboard: active/completed partition, pill, same sort

  datatype ViewMode = ActiveView | CompletedView

  function IsActiveItem(i: Item): bool { !i.isCompleted }
  function IsCompletedItem(i: Item): bool { i.isCompleted }

  function ActiveItems(items: seq<Item>): seq<Item> { Filter(items, IsActiveItem) }
  function CompletedItems(items: seq<Item>): seq<Item> { Filter(items, IsCompletedItem) }

  /** Every item is in exactly one of the two lists, by `isCompleted`. */
  lemma ActiveCompletedPartition(items: seq<Item>)
    ensures multiset(ActiveItems(items)) + multiset(CompletedItems(items)) == multiset(items)
    ensures |ActiveItems(items)| + |CompletedItems(items)| == |items|
    ensures forall x :: x in ActiveItems(items) <==> x in items && !x.isCompleted
    ensures forall x :: x in CompletedItems(items) <==> x in items && x.isCompleted
  {
    FilterSplits(items, IsActiveItem, IsCompletedItem);
  }

  function BaseItems(items: seq<Item>, mode: ViewMode): seq<Item> {
    if mode == CompletedView then CompletedItems(items) else ActiveItems(items)
  }

  /** The Dashboard's `filteredAndSortedItems`. */
  function DashboardItems(items: seq<Item>, mode: ViewMode, filter: TypeFilter, order: SortOrder,
                          localeCompare: (string, string) -> int): seq<Item>
  {
    SortItems(TypeFiltered(BaseItems(items, mode), filter), order, localeCompare)
  }

  /** The visible list draws only from the chosen partition and keeps only
      the pill's type, and nothing that qualifies is dropped. */
  lemma DashboardItemsMembership(items: seq<Item>, mode: ViewMode, filter: TypeFilter, order: SortOrder,
                                 lc: (string, string) -> int)
    ensures forall x :: x in DashboardItems(items, mode, filter, order, lc) <==>
      && x in items
      && (x.isCompleted <==> mode == CompletedView)
      && (filter.OnlyType? ==> x.itemType == filter.t)
  {
    var base := BaseItems(items, mode);
    ActiveCompletedPartition(items);
    TypeFilteredMembership(base, filter);
    assert DashboardItems(items, mode, filter, order, lc) == SortItems(TypeFiltered(base, filter), order, lc);
  }

  /** The FilterToolbar pills: 'all', then video, link, note, playlist. */
  datatype ToolbarCounts = ToolbarCounts(all: nat, video: nat, link: nat, note: nat, playlist: nat)

  /** The count a type's pill shows. */
  function PillCount(c: ToolbarCounts, t: ItemType): nat {
    match t
    case Video => c.video
    case Link => c.link
    case Note => c.note
    case Playlist => c.playlist
  }

  /** The toolbar's counts: the size of the chosen partition, and for each
      type the number of its items of that type. */
  function TypeCounts(items: seq<Item>, mode: ViewMode): (c: ToolbarCounts)
    ensures c.all == |BaseItems(items, mode)|
    ensures c.video == |Filter(BaseItems(items, mode), HasType(Video))|
    ensures c.link == |Filter(BaseItems(items, mode), HasType(Link))|
    ensures c.note == |Filter(BaseItems(items, mode), HasType(Note))|
    ensures c.playlist == |Filter(BaseItems(items, mode), HasType(Playlist))|
    ensures c.video + c.link + c.note + c.playlist == c.all
  {
    var base := BaseItems(items, mode);
    CountsSplit(base);
    ToolbarCounts(|base|, |Filter(base, HasType(Video))|, |Filter(base, HasType(Link))|,
                  |Filter(base, HasType(Note))|, |Filter(base, HasType(Playlist))|)
  }

  /** Each pill's count is the length of the list shown when that pill is
      chosen, whatever the sort order; the "All" count likewise. */
  lemma PillCountIsShownCount(items: seq<Item>, mode: ViewMode, t: ItemType, order: SortOrder,
                              lc: (string, string) -> int)
    ensures |DashboardItems(items, mode, OnlyType(t), order, lc)| == PillCount(TypeCounts(items, mode), t)
    ensures |DashboardItems(items, mode, AllTypes, order, lc)| == TypeCounts(items, mode).all
  {
    var base := BaseItems(items, mode);
    var shown := DashboardItems(items, mode, OnlyType(t), order, lc);
    assert |shown| == |multiset(shown)| == |multiset(Filter(base, HasType(t)))| == |Filter(base, HasType(t))|;
    var all := DashboardItems(items, mode, AllTypes, order, lc);
    assert |all| == |multiset(all)| == |multiset(base)| == |base|;
  }

  lemma {:induction false} CountsSplit(s: seq<Item>)
    ensures |Filter(s, HasType(Video))| + |Filter(s, HasType(Link))| + |Filter(s, HasType(Note))|
      + |Filter(s, HasType(Playlist))| == |s|
  {
    if s != [] {
      CountsSplit(s[1..]);
    }
  }

  /** A pinned active item overtakes an unpinned one listed before it,
      whatever the sort order and however old it is. */
  lemma PinnedOvertakesUnpinned(a: Item, b: Item, order: SortOrder, lc: (string, string) -> int)
    requires !a.isCompleted && !b.isCompleted
    requires b.isPinned && !a.isPinned
    ensures DashboardItems([a, b], ActiveView, AllTypes, order, lc) == [b, a]
  {
    assert forall k :: 0 <= k < |[a, b]| ==> IsActiveItem([a, b][k]);
    ActiveDashboardSortsAll([a, b], order, lc);
    SortTwoPinned(a, b, order, lc);
  }

  /** Over active items, the unfiltered active view is just the sort. */
  lemma ActiveDashboardSortsAll(items: seq<Item>, order: SortOrder, lc: (string, string) -> int)
    requires forall k :: 0 <= k < |items| ==> IsActiveItem(items[k])
    ensures DashboardItems(items, ActiveView, AllTypes, order, lc) == SortItems(items, order, lc)
  {
    FilterKeepsAll(items, IsActiveItem);
  }

  lemma SortTwoPinned(a: Item, b: Item, order: SortOrder, lc: (string, string) -> int)
    requires b.isPinned && !a.isPinned
    ensures SortItems([a, b], order, lc) == [b, a]
  {
    var leq := ItemOrder(order, lc);
    assert [a, b][..1] == [a];
    assert StableSort([a, b], leq) == Insert(b, StableSort([a], leq), leq);
    assert StableSort([a], leq) == [a] by {
      assert [a][..0] == [];
    }
    assert !leq(a, b);
  }
}
