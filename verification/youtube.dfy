/** The YouTube Data API helpers (src/lib/youtube.js): the ISO 8601
    duration parser and the mapping of an API response to the metadata the
    capture modal uses. The network call is a parameter: either it threw, or
    it produced a decoded body. */
module YouTube {

  import opened Options
  import opened Text

  // ---------------------------------------------------------------------
  // Durations: `/PT(\d+H)?(\d+M)?(\d+S)?/`

  /** One optional group `(\d+X)?` tried at the start of `t`: the greedy
      digit run must be followed by the designator, otherwise the group is
      skipped. Yields the group's value and how much it consumed. */
  function GroupAt(t: string, designator: char): (r: (nat, nat))
    requires !IsDigit(designator)
    ensures r.1 <= |t|
    ensures r.1 == 0 ==> r.0 == 0
  {
    ScanGroup(t, designator, 0, 0)
  }

  /** The scan behind `GroupAt`, having read `n` digits worth `acc`: digits
      are consumed greedily, and the group matches only if the designator
      follows at least one of them. */
  function ScanGroup(t: string, designator: char, acc: nat, n: nat): (r: (nat, nat))
    requires !IsDigit(designator)
    ensures r.1 <= n + |t|
    ensures r.1 == 0 ==> r.0 == 0
    decreases |t|
  {
    if t == [] then (0, 0)
    else if IsDigit(t[0]) then ScanGroup(t[1..], designator, acc * 10 + DigitValue(t[0]), n + 1)
    else if n > 0 && t[0] == designator then (acc, n + 1)
    else (0, 0)
  }

  /** Digits read most significant first onto `acc`. */
  function FoldDigits(acc: nat, ds: string): nat
    requires AllDigits(ds)
    decreases |ds|
  {
    if ds == [] then acc else FoldDigits(acc * 10 + DigitValue(ds[0]), ds[1..])
  }

  /** One more digit at the end shifts the fold by one place. */
  lemma {:induction false} FoldDigitsSnoc(acc: nat, ds: string, x: char)
    requires AllDigits(ds) && IsDigit(x)
    ensures AllDigits(ds + [x])
    ensures FoldDigits(acc, ds + [x]) == FoldDigits(acc, ds) * 10 + DigitValue(x)
    decreases |ds|
  {
    if ds != [] {
      assert (ds + [x])[1..] == ds[1..] + [x];
      FoldDigitsSnoc(acc * 10 + DigitValue(ds[0]), ds[1..], x);
    }
  }

  /** Folding from 0 reads the digits as `DigitsValue` does. */
  lemma {:induction false} FoldDigitsIsValue(ds: string)
    requires AllDigits(ds)
    ensures FoldDigits(0, ds) == DigitsValue(ds)
  {
    if ds != [] {
      var init := ds[..|ds| - 1];
      FoldDigitsIsValue(init);
      FoldDigitsSnoc(0, init, ds[|ds| - 1]);
      assert init + [ds[|ds| - 1]] == ds;
    }
  }

  /** Scanning a digit string and the character after it: a group exactly
      when some digit was read and that character is the designator. */
  lemma {:induction false} ScanPastDigits(ds: string, x: char, tail: string, c: char, acc: nat, n: nat)
    requires AllDigits(ds) && !IsDigit(x) && !IsDigit(c)
    ensures ScanGroup(ds + ([x] + tail), c, acc, n)
      == if n + |ds| > 0 && x == c then (FoldDigits(acc, ds), n + |ds| + 1) else (0, 0)
    decreases |ds|
  {
    if ds == [] {
      assert ds + ([x] + tail) == [x] + tail;
    } else {
      assert (ds + ([x] + tail))[1..] == ds[1..] + ([x] + tail);
      ScanPastDigits(ds[1..], x, tail, c, acc * 10 + DigitValue(ds[0]), n + 1);
    }
  }

  /** `parseDuration`: 0 for a falsy input or one without `PT`; otherwise
      the three optional groups after the first `PT`, in that order. */
  function ParseDuration(iso: Option<string>): nat {
    if !Truthy(iso) then 0
    else
      var s := iso.value;
      match IndexOf(s, "PT")
      case None => 0
      case Some(i) => TimeGroups(s[i + 2..])
  }

  /** The hours, minutes and seconds groups read in order from the start of
      `t`, each continuing where the previous one stopped, as seconds. */
  function TimeGroups(t: string): nat {
    var h := GroupAt(t, 'H');
    var t1 := t[h.1..];
    var m := GroupAt(t1, 'M');
    var sec := GroupAt(t1[m.1..], 'S');
    h.0 * 3600 + m.0 * 60 + sec.0
  }

  /** One designator part of a duration: `<n><c>`, or nothing. */
  function Part(n: Option<nat>, c: char): string {
    match n
    case None => []
    case Some(v) => NatToString(v) + [c]
  }

  /** The "format with designators" restricted to the time components:
      `PT[nH][nM][nS]`. */
  function DesignatorDuration(h: Option<nat>, m: Option<nat>, s: Option<nat>): string {
    "PT" + Part(h, 'H') + Part(m, 'M') + Part(s, 'S')
  }

  /** What follows cannot be read as a `(\d+X)?` group for designator `c`. */
  predicate SkipsGroup(rest: string, c: char)
    requires !IsDigit(c)
  {
    GroupAt(rest, c).1 == 0
  }

  /** A part with another designator is not a group for `c`. */
  lemma OtherPartSkips(n: nat, c': char, tail: string, c: char)
    requires c' != c && !IsDigit(c') && !IsDigit(c)
    ensures SkipsGroup(Part(Some(n), c') + tail, c)
  {
    var ds := NatToString(n);
    assert Part(Some(n), c') + tail == ds + ([c'] + tail);
    ScanPastDigits(ds, c', tail, c, 0, 0);
  }

  /** Reading one part: its value when present, nothing consumed when absent. */
  lemma GroupOfPart(p: Option<nat>, c: char, rest: string)
    requires !IsDigit(c)
    requires p.None? ==> SkipsGroup(rest, c)
    ensures GroupAt(Part(p, c) + rest, c) == (p.GetOr(0), |Part(p, c)|)
  {
    if p.Some? {
      var ds := NatToString(p.value);
      assert Part(p, c) + rest == ds + ([c] + rest);
      ScanPastDigits(ds, c, rest, c, 0, 0);
      FoldDigitsIsValue(ds);
      NatToStringRoundTrip(p.value);
    } else {
      assert Part(p, c) + rest == rest;
    }
  }

  /** The parts after the hours cannot be read as an hours group. */
  lemma TailSkips(m: Option<nat>, s: Option<nat>)
    ensures SkipsGroup(Part(m, 'M') + Part(s, 'S'), 'H')
    ensures SkipsGroup(Part(s, 'S'), 'M')
    ensures SkipsGroup([], 'S')
  {
    if m.Some? {
      OtherPartSkips(m.value, 'M', Part(s, 'S'), 'H');
    } else if s.Some? {
      assert Part(m, 'M') + Part(s, 'S') == Part(s, 'S') + [];
      OtherPartSkips(s.value, 'S', [], 'H');
    }
    if s.Some? {
      assert Part(s, 'S') == Part(s, 'S') + [];
      OtherPartSkips(s.value, 'S', [], 'M');
    }
  }

  /** Parsing a time-only designator duration gives back its seconds, with
      omitted parts counting 0. */
  lemma ParseDesignatorDuration(h: Option<nat>, m: Option<nat>, s: Option<nat>)
    ensures ParseDuration(Some(DesignatorDuration(h, m, s)))
      == h.GetOr(0) * 3600 + m.GetOr(0) * 60 + s.GetOr(0)
  {
    DesignatorSplit(h, m, s);
    ParseAfterPT(DesignatorDuration(h, m, s));
    TimeGroupsOfParts(h, m, s);
  }

  /** A designator duration is `PT` followed by its parts. */
  lemma DesignatorSplit(h: Option<nat>, m: Option<nat>, s: Option<nat>)
    ensures "PT" <= DesignatorDuration(h, m, s)
    ensures DesignatorDuration(h, m, s)[2..] == Part(h, 'H') + (Part(m, 'M') + Part(s, 'S'))
  {
    var t := Part(h, 'H') + (Part(m, 'M') + Part(s, 'S'));
    assert DesignatorDuration(h, m, s) == "PT" + t;
  }

  /** A value that starts with `PT` is read from just after it. */
  lemma ParseAfterPT(d: string)
    requires "PT" <= d
    ensures ParseDuration(Some(d)) == TimeGroups(d[2..])
  {
    IndexOfPrefix(d, "PT");
  }

  /** The groups read from the parts of a designator duration. */
  lemma TimeGroupsOfParts(h: Option<nat>, m: Option<nat>, s: Option<nat>)
    ensures TimeGroups(Part(h, 'H') + (Part(m, 'M') + Part(s, 'S')))
      == h.GetOr(0) * 3600 + m.GetOr(0) * 60 + s.GetOr(0)
  {
    var ph, pm, ps := Part(h, 'H'), Part(m, 'M'), Part(s, 'S');
    TailSkips(m, s);
    GroupOfPart(h, 'H', pm + ps);
    assert (ph + (pm + ps))[|ph|..] == pm + ps;
    GroupOfPart(m, 'M', ps);
    assert (pm + ps)[|pm|..] == ps + [];
    GroupOfPart(s, 'S', []);
  }

  /** A date component before `T` breaks the literal `PT`, so the whole
      value reads as 0 rather than the time part alone. */
  lemma DayComponentGivesZero()
    ensures ParseDuration(Some("P1DT2H")) == 0
  {
    var s := "P1DT2H";
    assert !Contains(s, "PT") by {
      forall i | 0 <= i <= |s|
        ensures !("PT" <= s[i..])
      {
        assert s[i..] == [] || s[i] != 'P' || s[i + 1] != 'T';
      }
    }
  }

  // ---------------------------------------------------------------------
  // Response mapping

  /** `thumbnails.{maxres,high,default}?.url`. */
  datatype Thumbnails = Thumbnails(maxres: Option<string>, high: Option<string>, defaultUrl: Option<string>)

  datatype Snippet = Snippet(
    title: string,
    description: Option<string>,
    thumbnails: Thumbnails,
    channelTitle: string,
    publishedAt: string,
    tags: Option<seq<string>>)

  datatype VideoResource = VideoResource(snippet: Snippet, duration: Option<string>)
  datatype PlaylistResource = PlaylistResource(snippet: Snippet, itemCount: Option<int>)

  /** What the awaited fetch produced: a thrown error, or a body whose
      `items` may be missing. */
  datatype Response<T> = Threw | Body(items: Option<seq<T>>)

  datatype VideoDetails = VideoDetails(
    title: string, description: Option<string>, thumbnail: Option<string>,
    channelTitle: string, publishedAt: string, duration: nat, tags: seq<string>)

  datatype PlaylistDetails = PlaylistDetails(
    title: string, description: Option<string>, thumbnail: Option<string>,
    channelTitle: string, publishedAt: string, videoCount: Option<int>, tags: seq<string>)

  /** Whether a request went out, and what the helper resolved to
      (`None` for `null`). */
  datatype Fetched<T> = Fetched(requested: bool, details: Option<T>)

  /** `maxres || high || default`. */
  function PickThumbnail(t: Thumbnails): (r: Option<string>)
    ensures Truthy(t.maxres) ==> r == t.maxres
    ensures !Truthy(t.maxres) && Truthy(t.high) ==> r == t.high
    ensures !Truthy(t.maxres) && !Truthy(t.high) ==> r == t.defaultUrl
  {
    OrElse(OrElse(t.maxres, t.high), t.defaultUrl)
  }

  /** The first resource of a usable body, if any. */
  function FirstItem<T>(response: Response<T>): (r: Option<T>)
    ensures r.Some? <==> response.Body? && response.items.Some? && response.items.value != []
  {
    match response
    case Threw => None
    case Body(items) => if items.Some? && items.value != [] then Some(items.value[0]) else None
  }

  /** `fetchVideoDetails`. */
  function FetchVideoDetails(apiKey: Option<string>, response: Response<VideoResource>): (r: Fetched<VideoDetails>)
    ensures r.requested <==> Truthy(apiKey)
    ensures r.details.Some? <==> Truthy(apiKey) && FirstItem(response).Some?
    ensures r.details.Some? ==> var v := FirstItem(response).value;
      && r.details.value.thumbnail == PickThumbnail(v.snippet.thumbnails)
      && r.details.value.duration == ParseDuration(v.duration)
      && r.details.value.tags == v.snippet.tags.GetOr([])
      && r.details.value.title == v.snippet.title
      && r.details.value.description == v.snippet.description
      && r.details.value.channelTitle == v.snippet.channelTitle
      && r.details.value.publishedAt == v.snippet.publishedAt
  {
    if !Truthy(apiKey) then Fetched(false, None)
    else match FirstItem(response)
      case None => Fetched(true, None)
      case Some(v) =>
        var sn := v.snippet;
        Fetched(true, Some(VideoDetails(sn.title, sn.description, PickThumbnail(sn.thumbnails), sn.channelTitle,
                                        sn.publishedAt, ParseDuration(v.duration), sn.tags.GetOr([]))))
  }

  /** `fetchPlaylistDetails`. */
  function FetchPlaylistDetails(apiKey: Option<string>, response: Response<PlaylistResource>): (r: Fetched<PlaylistDetails>)
    ensures r.requested <==> Truthy(apiKey)
    ensures r.details.Some? <==> Truthy(apiKey) && FirstItem(response).Some?
    ensures r.details.Some? ==> var p := FirstItem(response).value;
      && r.details.value.thumbnail == PickThumbnail(p.snippet.thumbnails)
      && r.details.value.videoCount == p.itemCount
      && r.details.value.tags == p.snippet.tags.GetOr([])
      && r.details.value.title == p.snippet.title
      && r.details.value.description == p.snippet.description
      && r.details.value.channelTitle == p.snippet.channelTitle
      && r.details.value.publishedAt == p.snippet.publishedAt
  {
    if !Truthy(apiKey) then Fetched(false, None)
    else match FirstItem(response)
      case None => Fetched(true, None)
      case Some(p) =>
        var sn := p.snippet;
        Fetched(true, Some(PlaylistDetails(sn.title, sn.description, PickThumbnail(sn.thumbnails), sn.channelTitle,
                                           sn.publishedAt, p.itemCount, sn.tags.GetOr([]))))
  }

  /** A thrown request resolves to `null` in both helpers. */
  lemma ThrownRequestGivesNull(apiKey: Option<string>)
    ensures FetchVideoDetails(apiKey, Threw).details.None?
    ensures FetchPlaylistDetails(apiKey, Threw).details.None?
  {
  }
}
