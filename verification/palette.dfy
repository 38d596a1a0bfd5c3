/** The command palette (src/components/modals/GlobalSearch.jsx): the
    results memo with its `>` command mode, multi-term item matching over a
    derived haystack and result caps; the recent history; and the
    grid keyboard navigation. `new URL(url).hostname` is the parameter
    `hostname`, which yields `None` where the constructor throws. */
module Palette {

  import opened Options
  import opened Text
  import opened Seqs
  import opened Items

  datatype Command = Command(id: string, title: string, keywords: seq<string>)

  const SystemCommands: seq<Command> := [
    Command("cmd-theme", "Toggle Theme", ["theme", "mode", "dark", "light"]),
    Command("cmd-capture", "Quick Capture", ["add", "new", "create", "capture"]),
    Command("cmd-settings", "Settings", ["settings", "config", "preferences"]),
    Command("cmd-library", "Go to Everything", ["home", "library", "dashboard", "all"])
  ]

  const CommandCap: nat := 12
  const ItemCap: nat := 40
  const HistoryCap: nat := 4

  /** One entry of the results grid. */
  datatype Hit = CommandHit(command: Command) | ItemHit(item: Item)

  /** A command is kept when the remainder is empty, or its lowered title or
      one of its keywords contains it. */
  predicate CommandMatches(c: Command, clean: string) {
    || clean == []
    || Contains(Lower(c.title), clean)
    || exists k :: 0 <= k < |c.keywords| && Contains(c.keywords[k], clean)
  }

  function MatchesCommand(clean: string): Command -> bool {
    (c: Command) => CommandMatches(c, clean)
  }

  /** The first label of the host once the first `www.` is removed. */
  function HostLabel(host: string): (r: string)
    ensures r <= ReplaceFirst(host, "www.", "")
    ensures '.' !in r
    ensures |r| == |ReplaceFirst(host, "www.", "")| || ReplaceFirst(host, "www.", "")[|r|] == '.'
  {
    BeforeFirst(ReplaceFirst(host, "www.", ""), '.')
  }

  /** A `www.` host yields the label right after it. */
  lemma HostLabelAfterWww(first: string, rest: string)
    requires '.' !in first
    ensures HostLabel("www." + first + "." + rest) == first
  {
    var h := "www." + first + "." + rest;
    IndexOfPrefix(h, "www.");
    var d := ReplaceFirst(h, "www.", "");
    assert d == first + "." + rest;
    BeforeFirstOfConcat(first, '.', rest);
  }

  /** The fields the palette searches, in order: title, description, url,
      channelTitle, type, then every tag. */
  function HaystackParts(i: Item): (r: seq<string>)
    ensures |r| == 5 + |TagsOf(i)| && r[0] == i.title.GetOr([])
  {
    [i.title.GetOr([]), i.description.GetOr([]), i.url.GetOr([]), i.channelTitle.GetOr([]),
     TypeName(i.itemType)] + TagsOf(i)
  }

  /** What the url adds: the host label, then "youtube video" for YouTube
      hosts; nothing when there is no url or it does not parse. */
  function HostSuffix(i: Item, hostname: string -> Option<string>): string {
    if Truthy(i.url) && hostname(i.url.value).Some? then
      var h := hostname(i.url.value).value;
      " " + HostLabel(h) + (if Contains(h, "youtu.be") || Contains(h, "youtube") then " youtube video" else "")
    else []
  }

  /** The searchable text of an item: its non-empty fields and tags joined
      by spaces and lowered, then the host suffix. */
  function Haystack(i: Item, hostname: string -> Option<string>): string {
    Lower(JoinNonEmpty(HaystackParts(i), " ")) + HostSuffix(i, hostname)
  }

  predicate HasAllTerms(i: Item, terms: seq<string>, hostname: string -> Option<string>) {
    forall k :: 0 <= k < |terms| ==> Contains(Haystack(i, hostname), terms[k])
  }

  function MatchesTerms(terms: seq<string>, hostname: string -> Option<string>): Item -> bool {
    (i: Item) => HasAllTerms(i, terms, hostname)
  }

  function CommandHits(cs: seq<Command>): (r: seq<Hit>)
    ensures |r| == |cs|
    ensures forall k :: 0 <= k < |cs| ==> r[k] == CommandHit(cs[k])
  {
    seq(|cs|, k requires 0 <= k < |cs| => CommandHit(cs[k]))
  }

  function ItemHits(items: seq<Item>): (r: seq<Hit>)
    ensures |r| == |items|
    ensures forall k :: 0 <= k < |items| ==> r[k] == ItemHit(items[k])
  {
    seq(|items|, k requires 0 <= k < |items| => ItemHit(items[k]))
  }

  /** True when the lowered, trimmed query asks for commands. */
  predicate IsCommandQuery(query: string) {
    StartsWith(Trim(Lower(query)), ">")
  }

  /** The text after `>`, trimmed. */
  function CommandRemainder(query: string): string
    requires IsCommandQuery(query)
  {
    Trim(Trim(Lower(query))[1..])
  }

  /** The items matching every term of a non-command query, before the cap. */
  function MatchedItems(items: seq<Item>, query: string, hostname: string -> Option<string>): seq<Item> {
    Filter(items, MatchesTerms(Terms(Trim(Lower(query))), hostname))
  }

  /** The `results` memo. */
  function Results(query: string, items: seq<Item>, hostname: string -> Option<string>): (r: seq<Hit>)
    ensures query == [] ==> r == []
  {
    if query == [] then []
    else if IsCommandQuery(query) then CommandResults(CommandRemainder(query))
    else ItemResults(items, Terms(Trim(Lower(query))), hostname)
  }

  /** The command branch of the memo, given the cleaned remainder. */
  function CommandResults(clean: string): seq<Hit> {
    CommandHits(Take(Filter(SystemCommands, MatchesCommand(clean)), CommandCap))
  }

  /** The item branch of the memo, given the query's terms. */
  function ItemResults(items: seq<Item>, terms: seq<string>, hostname: string -> Option<string>): seq<Hit> {
    ItemHits(Take(Filter(items, MatchesTerms(terms, hostname)), ItemCap))
  }

  lemma CommandBranch(query: string, items: seq<Item>, hostname: string -> Option<string>)
    requires query != [] && IsCommandQuery(query)
    ensures Results(query, items, hostname) == CommandResults(CommandRemainder(query))
  {
  }

  lemma ItemBranch(query: string, items: seq<Item>, hostname: string -> Option<string>)
    requires query != [] && !IsCommandQuery(query)
    ensures Results(query, items, hostname) == ItemResults(items, Terms(Trim(Lower(query))), hostname)
  {
  }

  lemma CommandHitsMembership(cs: seq<Command>)
    ensures forall c :: CommandHit(c) in CommandHits(cs) <==> c in cs
    ensures forall h :: h in CommandHits(cs) ==> h.CommandHit?
  {
    var r := CommandHits(cs);
    forall c | c in cs
      ensures CommandHit(c) in r
    {
      var k :| 0 <= k < |cs| && cs[k] == c;
      assert r[k] == CommandHit(c);
    }
  }

  /** A command query returns only commands, at most 12, exactly those
      that match the remainder after `>`. */
  lemma CommandQueryResults(query: string, items: seq<Item>, hostname: string -> Option<string>)
    requires query != [] && IsCommandQuery(query)
    ensures var r := Results(query, items, hostname);
      && |r| <= CommandCap
      && (forall h :: h in r ==> h.CommandHit?)
      && (forall c :: CommandHit(c) in r <==> c in SystemCommands && CommandMatches(c, CommandRemainder(query)))
  {
    CommandBranch(query, items, hostname);
    CommandResultsMembers(CommandRemainder(query));
  }

  /** The command branch keeps at most 12 commands, exactly the matching ones. */
  lemma CommandResultsMembers(clean: string)
    ensures var r := CommandResults(clean);
      && |r| <= CommandCap
      && (forall h :: h in r ==> h.CommandHit?)
      && (forall c :: CommandHit(c) in r <==> c in SystemCommands && CommandMatches(c, clean))
  {
    var kept := Filter(SystemCommands, MatchesCommand(clean));
    assert |SystemCommands| == 4;
    assert Take(kept, CommandCap) == kept;
    CommandHitsMembership(kept);
    assert forall c :: MatchesCommand(clean)(c) == CommandMatches(c, clean);
  }

  /** `>` alone, in any case and with any padding, keeps every command, in
      order. */
  lemma BareCommandPrefixListsAll(query: string, items: seq<Item>, hostname: string -> Option<string>)
    requires Trim(Lower(query)) == ">"
    ensures Results(query, items, hostname) == CommandHits(SystemCommands)
  {
    assert |Trim(Lower(query))| <= |query|;
    CommandRemainderOfBare(query);
    EmptyRemainderListsAll(query, items, hostname);
  }

  /** A command query with nothing after the `>` keeps every command. */
  lemma EmptyRemainderListsAll(query: string, items: seq<Item>, hostname: string -> Option<string>)
    requires query != [] && IsCommandQuery(query) && CommandRemainder(query) == []
    ensures Results(query, items, hostname) == CommandHits(SystemCommands)
  {
    CommandBranch(query, items, hostname);
    EmptyRemainderKeepsAll();
  }

  lemma EmptyRemainderKeepsAll()
    ensures CommandResults([]) == CommandHits(SystemCommands)
  {
    FilterKeepsAll(SystemCommands, MatchesCommand([]));
    assert |SystemCommands| <= CommandCap;
  }

  lemma CommandRemainderOfBare(query: string)
    requires Trim(Lower(query)) == ">"
    ensures IsCommandQuery(query) && CommandRemainder(query) == []
  {
    var t := Trim(Lower(query));
    assert t[1..] == [];
    TrimOfUnpadded([]);
  }

  /** Any other non-empty query returns only items, at most 40, in input
      order: the first 40 items that contain every term. */
  lemma ItemQueryResults(query: string, items: seq<Item>, hostname: string -> Option<string>)
    requires query != [] && !IsCommandQuery(query)
    ensures var r := Results(query, items, hostname);
      var matched := MatchedItems(items, query, hostname);
      && |r| <= ItemCap
      && |r| == (if |matched| <= ItemCap then |matched| else ItemCap)
      && (forall k :: 0 <= k < |r| ==> r[k] == ItemHit(matched[k]))
      && (forall x :: x in matched <==> x in items && HasAllTerms(x, Terms(Trim(Lower(query))), hostname))
  {
    ItemBranch(query, items, hostname);
    ItemResultsMembers(items, Terms(Trim(Lower(query))), hostname);
  }

  /** The item branch keeps the first 40 items holding every term, in order. */
  lemma ItemResultsMembers(items: seq<Item>, terms: seq<string>, hostname: string -> Option<string>)
    ensures var r := ItemResults(items, terms, hostname);
      var matched := Filter(items, MatchesTerms(terms, hostname));
      && |r| == (if |matched| <= ItemCap then |matched| else ItemCap)
      && (forall k :: 0 <= k < |r| ==> r[k] == ItemHit(matched[k]))
      && (forall x :: x in matched <==> x in items && HasAllTerms(x, terms, hostname))
  {
    forall x
      ensures MatchesTerms(terms, hostname)(x) == HasAllTerms(x, terms, hostname)
    {
    }
  }

  /** A query of white space only has no terms, so every item matches. */
  lemma BlankQueryMatchesAll(query: string, items: seq<Item>, hostname: string -> Option<string>)
    requires query != [] && AllSpace(query)
    ensures !IsCommandQuery(query)
    ensures MatchedItems(items, query, hostname) == items
    ensures Results(query, items, hostname) == ItemHits(Take(items, ItemCap))
  {
    LowerKeepsSpaces(query);
    TrimEmptyIffAllSpace(Lower(query));
    assert Trim(Lower(query)) == [];
    assert Terms([]) == [];
    FilterKeepsAll(items, MatchesTerms([], hostname));
    ItemBranch(query, items, hostname);
  }

  /** A single lower-case word with no `>` in front is one term. */
  lemma SingleWordQuery(w: string)
    requires w != [] && NoSpace(w) && Lower(w) == w && w[0] != '>'
    ensures !IsCommandQuery(w)
    ensures Terms(Trim(Lower(w))) == [w]
  {
    assert TrimStart(w) == w;
    assert TrimEnd(w) == w;
    TermsOfWord(w);
  }

  /** The lowered joined fields contain the lowered title. */
  lemma HaystackHasTitle(i: Item, hostname: string -> Option<string>)
    requires Truthy(i.title)
    ensures Contains(Haystack(i, hostname), Lower(i.title.value))
  {
    var joined := JoinNonEmpty(HaystackParts(i), " ");
    JoinNonEmptyContainsParts(HaystackParts(i), " ", 0);
    LowerKeepsContains(joined, i.title.value);
    ContainsExtended(Lower(joined), HostSuffix(i, hostname), Lower(i.title.value));
  }

  lemma ContainsTransitive(a: string, b: string, c: string)
    requires Contains(a, b) && Contains(b, c)
    ensures Contains(a, c)
  {
    var j :| 0 <= j <= |a| && b <= a[j..];
    var m :| 0 <= m <= |b| && c <= b[m..];
    assert c <= a[j + m..];
  }

  /** A single lower-case word found in an item's title finds the item. */
  lemma TitleWordFindsItem(i: Item, w: string, hostname: string -> Option<string>)
    requires w != [] && NoSpace(w) && Lower(w) == w && w[0] != '>'
    requires Truthy(i.title) && Contains(i.title.value, w)
    ensures !IsCommandQuery(w)
    ensures HasAllTerms(i, Terms(Trim(Lower(w))), hostname)
  {
    SingleWordQuery(w);
    HaystackHasTitle(i, hostname);
    LowerKeepsContains(i.title.value, w);
    ContainsTransitive(Haystack(i, hostname), Lower(i.title.value), w);
  }

  // ---------------------------------------------------------------------
  // Recent history

  /** `addToHistory`: the item first, no other entry with its id, at most
      four entries. */
  function AddToHistory(history: seq<Item>, item: Item): (r: seq<Item>)
    ensures 1 <= |r| <= HistoryCap && r[0] == item
    ensures forall k :: 1 <= k < |r| ==> r[k].id != item.id && r[k] in history
    ensures |r| == Min(|RemoveFromHistory(history, item.id)| + 1, HistoryCap)
  {
    var rest := RemoveFromHistory(history, item.id);
    var r := Take([item] + rest, HistoryCap);
    forall k | 1 <= k < |r|
      ensures r[k].id != item.id && r[k] in history
    {
      assert r[k] == rest[k - 1];
      assert rest[k - 1] in rest;
    }
    r
  }

  /** `removeFromHistory`: exactly the entries with another id stay. */
  function RemoveFromHistory(history: seq<Item>, id: string): (r: seq<Item>)
    ensures forall x :: x in r <==> x in history && x.id != id
    ensures |r| <= |history|
  {
    var r := Filter(history, HasOtherId(id));
    assert forall x :: HasOtherId(id)(x) == (x.id != id);
    r
  }

  /** Opening the same item again leaves the history as it is. */
  lemma AddToHistoryIdempotent(history: seq<Item>, item: Item)
    ensures AddToHistory(AddToHistory(history, item), item) == AddToHistory(history, item)
  {
    var h1 := AddToHistory(history, item);
    var rest := RemoveFromHistory(h1, item.id);
    var tail := h1[1..];
    assert h1 == [item] + tail;
    FilterConcat([item], tail, HasOtherId(item.id));
    assert Filter([item], HasOtherId(item.id)) == [] by {
      assert [item][1..] == [];
    }
    forall k | 0 <= k < |tail| ensures HasOtherId(item.id)(tail[k]) {
      assert tail[k] == h1[k + 1];
    }
    FilterKeepsAll(tail, HasOtherId(item.id));
    assert rest == tail;
  }

  /** Removing an item just added leaves the older entries, now at most
      three of them. */
  lemma RemoveAfterAdd(history: seq<Item>, item: Item)
    ensures RemoveFromHistory(AddToHistory(history, item), item.id) == Take(RemoveFromHistory(history, item.id), HistoryCap - 1)
  {
    var rest := RemoveFromHistory(history, item.id);
    var h1 := AddToHistory(history, item);
    var tail := h1[1..];
    assert h1 == [item] + tail;
    assert tail == Take(rest, HistoryCap - 1);
    FilterConcat([item], tail, HasOtherId(item.id));
    assert Filter([item], HasOtherId(item.id)) == [] by {
      assert [item][1..] == [];
    }
    forall k | 0 <= k < |tail| ensures HasOtherId(item.id)(tail[k]) {
      assert tail[k] == h1[k + 1];
    }
    FilterKeepsAll(tail, HasOtherId(item.id));
  }

  // ---------------------------------------------------------------------
  // Keyboard navigation

  datatype Key = ArrowRight | ArrowLeft | ArrowDown | ArrowUp | Enter | Escape | OtherKey

  /** Grid columns by window width: 2 from 640 px, 3 from 768 px unless the
      raw query starts with `>`. */
  function Columns(width: int, rawQuery: string): (c: nat)
    ensures 1 <= c <= 3
    ensures width < 640 ==> c == 1
    ensures c == 3 <==> width >= 768 && !StartsWith(rawQuery, ">")
  {
    var c := if width >= 640 then 2 else 1;
    if !StartsWith(rawQuery, ">") && width >= 768 then 3 else c
  }

  function Min(a: int, b: int): int { if a <= b then a else b }
  function Max(a: int, b: int): int { if a >= b then a else b }

  /** What a key press does: move the index, choose the entry at the index
      (which may be out of range), close, or nothing. */
  datatype KeyEffect = MoveTo(index: int) | Choose(index: int) | Close | NoEffect

  function HandleKey(key: Key, index: int, count: nat, width: int, rawQuery: string): (e: KeyEffect)
    ensures key == Enter ==> (e == if count > 0 then Choose(index) else NoEffect)
    ensures key == Escape ==> e == Close
    ensures key == OtherKey ==> e == NoEffect
    ensures key == ArrowRight ==> e == MoveTo(Min(index + 1, count - 1))
    ensures key == ArrowLeft ==> e == MoveTo(Max(index - 1, 0))
    ensures key == ArrowDown ==> e == MoveTo(Min(index + Columns(width, rawQuery), count - 1))
    ensures key == ArrowUp ==> e == MoveTo(Max(index - Columns(width, rawQuery), 0))
    ensures key in {ArrowRight, ArrowDown} ==>
      e.MoveTo? && e.index <= count - 1 && (e.index == count - 1 || e.index > index)
    ensures key in {ArrowLeft, ArrowUp} ==>
      e.MoveTo? && e.index >= 0 && (e.index == 0 || e.index < index)
  {
    match key
    case ArrowRight => MoveTo(Min(index + 1, count - 1))
    case ArrowLeft => MoveTo(Max(index - 1, 0))
    case ArrowDown => MoveTo(Min(index + Columns(width, rawQuery), count - 1))
    case ArrowUp => MoveTo(Max(index - Columns(width, rawQuery), 0))
    case Enter => if count > 0 then Choose(index) else NoEffect
    case Escape => Close
    case OtherKey => NoEffect
  }

  /** With results present, arrows keep a valid index valid. */
  lemma ArrowsStayInRange(key: Key, index: int, count: nat, width: int, rawQuery: string)
    requires count > 0 && 0 <= index < count
    requires key in {ArrowRight, ArrowLeft, ArrowDown, ArrowUp}
    ensures 0 <= HandleKey(key, index, count, width, rawQuery).index < count
  {
  }

  /** With no results, Right and Down drive the index to -1. */
  lemma ArrowsOnEmpty(index: int, width: int, rawQuery: string)
    requires index >= 0
    ensures HandleKey(ArrowRight, index, 0, width, rawQuery) == MoveTo(-1)
    ensures HandleKey(ArrowDown, index, 0, width, rawQuery) == MoveTo(-1)
  {
  }

  /** Palette state: the raw query, the selected index, and the history. */
  datatype PaletteState = PaletteState(query: string, index: int, history: seq<Item>)

  /** Typing: a changed query resets the index to 0. */
  function SetQuery(st: PaletteState, query: string): (r: PaletteState)
    ensures r.query == query && r.history == st.history
    ensures query != st.query ==> r.index == 0
    ensures query == st.query ==> r == st
  {
    if query == st.query then st else st.(query := query, index := 0)
  }

  /** Opening the palette clears the query and the index. */
  function Open(st: PaletteState): (r: PaletteState)
    ensures r.query == [] && r.index == 0 && r.history == st.history
  {
    st.(query := [], index := 0)
  }

  /** Right after the query changes, Enter on non-empty results chooses
      the first entry. */
  lemma EnterAfterTypingChoosesFirst(st: PaletteState, query: string, count: nat, width: int)
    requires query != st.query && count > 0
    ensures HandleKey(Enter, SetQuery(st, query).index, count, width, query) == Choose(0)
  {
  }
}
