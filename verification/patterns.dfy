/** The handful of regular expressions the capture modal and the cards use
    on URLs, each hand-coded as the match it finds: where the match starts,
    what its capture group holds, and whether there is one at all.

    - the capture video pattern `(?:youtube\.com\/watch\?v=|youtu\.be\/)([a-zA-Z0-9_-]{11})`
      (leftmost match);
    - the playlist pattern `[?&]list=([a-zA-Z0-9_-]+)` (leftmost match,
      greedy capture);
    - the web-address pattern `^https?:\/\/.+`;
    - the card's video pattern
      `^.*(youtu.be\/|v\/|u\/\w\/|embed\/|watch\?v=|&v=)([^#&?]*).*`, whose
      greedy `^.*` makes the RIGHTMOST alternative on the first line win. */
module Patterns {

  import opened Options
  import opened Text

  // ---------------------------------------------------------------------
  // Character classes and runs

  /** `[a-zA-Z0-9_-]`. */
  predicate IdChar(c: char) {
    ('a' <= c <= 'z') || ('A' <= c <= 'Z') || ('0' <= c <= '9') || c == '_' || c == '-'
  }

  /** `\w`. */
  predicate WordChar(c: char) {
    ('a' <= c <= 'z') || ('A' <= c <= 'Z') || ('0' <= c <= '9') || c == '_'
  }

  /** `[^#&?]`: anything, line terminators included, but the three URL
      delimiters. */
  predicate NotDelimiter(c: char) {
    c != '#' && c != '&' && c != '?'
  }

  predicate All(t: string, p: char -> bool) {
    forall k :: 0 <= k < |t| ==> p(t[k])
  }

  /** How many leading characters of `t` satisfy `p`: what a greedy `[...]*`
      consumes. */
  function RunWhile(t: string, p: char -> bool): (n: nat)
    ensures n <= |t| && All(t[..n], p)
    ensures n < |t| ==> !p(t[n])
  {
    if t == [] || !p(t[0]) then 0
    else
      var n := 1 + RunWhile(t[1..], p);
      assert t[..n] == [t[0]] + t[1..][..n - 1];
      n
  }

  /** A run followed by a character outside the class stops exactly there. */
  lemma {:induction false} RunWhileOf(a: string, rest: string, p: char -> bool)
    requires All(a, p)
    requires rest == [] || !p(rest[0])
    ensures RunWhile(a + rest, p) == |a|
  {
    if a == [] {
      assert a + rest == rest;
    } else {
      assert (a + rest)[1..] == a[1..] + rest;
      RunWhileOf(a[1..], rest, p);
    }
  }

  // ---------------------------------------------------------------------
  // Match positions

  /** The first position in `from..end` where `found` holds. */
  function Leftmost(found: nat -> bool, from: nat, end: nat): (r: Option<nat>)
    ensures r.Some? ==> from <= r.value <= end && found(r.value)
    ensures r.Some? ==> forall q: nat :: from <= q < r.value ==> !found(q)
    ensures r.None? ==> forall q: nat :: from <= q <= end ==> !found(q)
    decreases end + 1 - from
  {
    if from > end then None
    else if found(from) then Some(from)
    else Leftmost(found, from + 1, end)
  }

  /** The search from the left stops at `p` when nothing before it qualifies. */
  lemma LeftmostIs(found: nat -> bool, p: nat, end: nat)
    requires p <= end && found(p)
    requires forall q: nat :: q < p ==> !found(q)
    ensures Leftmost(found, 0, end) == Some(p)
  {
    var r := Leftmost(found, 0, end);
    assert r.Some? && r.value <= p;
  }

  /** The last position in `0..upto` where `found` holds. */
  function Rightmost(found: nat -> bool, upto: nat): (r: Option<nat>)
    ensures r.Some? ==> r.value <= upto && found(r.value)
    ensures r.Some? ==> forall q: nat :: r.value < q <= upto ==> !found(q)
    ensures r.None? ==> forall q: nat :: q <= upto ==> !found(q)
  {
    if found(upto) then Some(upto)
    else if upto == 0 then None
    else Rightmost(found, upto - 1)
  }

  // ---------------------------------------------------------------------
  // Capture-modal video pattern

  const WatchPrefix: string := "youtube.com/watch?v="
  const ShortPrefix: string := "youtu.be/"
  const VideoIdLength: nat := 11

  /** Where the capture group starts if one of the two literal prefixes is
      at `p` (at most one can be: they differ at their sixth character). */
  function VideoPrefixEnd(s: string, p: nat): (r: Option<nat>)
    ensures r.Some? ==> p < r.value <= |s|
  {
    if p > |s| then None
    else if WatchPrefix <= s[p..] then Some(p + |WatchPrefix|)
    else if ShortPrefix <= s[p..] then Some(p + |ShortPrefix|)
    else None
  }

  /** The video id the pattern captures when its match starts at `p`. */
  function VideoIdAt(s: string, p: nat): (r: Option<string>)
    ensures r.Some? ==> |r.value| == VideoIdLength && All(r.value, IdChar)
  {
    match VideoPrefixEnd(s, p)
    case None => None
    case Some(e) =>
      if e + VideoIdLength <= |s| && All(s[e..e + VideoIdLength], IdChar)
      then Some(s[e..e + VideoIdLength]) else None
  }

  function VideoAt(s: string): nat -> bool {
    (p: nat) => VideoIdAt(s, p).Some?
  }

  /** `url.match(videoPattern)?.[1]`: the id at the leftmost match. */
  function CaptureVideoId(s: string): (r: Option<string>)
    ensures r.Some? ==> |r.value| == VideoIdLength && All(r.value, IdChar)
    ensures r.Some? <==> exists p: nat :: p <= |s| && VideoIdAt(s, p).Some?
  {
    assert forall p: nat :: VideoAt(s)(p) == VideoIdAt(s, p).Some?;
    match Leftmost(VideoAt(s), 0, |s|)
    case None => None
    case Some(p) => VideoIdAt(s, p)
  }

  /** A `y` begins both prefixes, so no match starts before the first one. */
  lemma NoVideoBefore(s: string, p: nat)
    requires p <= |s| && 'y' !in s[..p]
    ensures forall q: nat :: q < p ==> VideoIdAt(s, q).None?
  {
    forall q: nat | q < p
      ensures VideoIdAt(s, q).None?
    {
      assert s[..p][q] == s[q];
    }
  }

  /** The id right after either literal prefix is what the match at the
      prefix captures. */
  lemma VideoIdAfterPrefix(s: string, p: nat, prefix: string, id: string, rest: string)
    requires prefix == WatchPrefix || prefix == ShortPrefix
    requires p <= |s| && s[p..] == prefix + id + rest
    requires |id| == VideoIdLength && All(id, IdChar)
    ensures VideoIdAt(s, p) == Some(id)
  {
    var e := p + |prefix|;
    if prefix == ShortPrefix {
      assert s[p..][5] == '.';
      assert !(WatchPrefix <= s[p..]);
    }
    assert VideoPrefixEnd(s, p) == Some(e);
    MiddleOfConcat(prefix, id, rest);
    SliceOfSuffix(s, p, prefix + id + rest, |prefix|, |prefix| + VideoIdLength);
  }

  /** The middle part of a concatenation, by position. */
  lemma MiddleOfConcat(a: string, b: string, c: string)
    ensures (a + b + c)[|a|..|a| + |b|] == b
  {
  }

  /** A slice of a suffix is a slice of the whole string, shifted. */
  lemma SliceOfSuffix(s: string, p: nat, u: string, i: nat, j: nat)
    requires p <= |s| && s[p..] == u && i <= j <= |u|
    ensures s[p + i..p + j] == u[i..j]
  {
    forall k | 0 <= k < j - i
      ensures s[p + i..p + j][k] == u[i..j][k]
    {
      assert s[p + i + k] == s[p..][i + k];
    }
  }

  /** A canonical watch or short address yields the id written in it,
      whatever precedes it (as long as that has no `y`) or follows it. */
  lemma CanonicalAddressId(pre: string, prefix: string, id: string, rest: string)
    requires prefix == WatchPrefix || prefix == ShortPrefix
    requires 'y' !in pre
    requires |id| == VideoIdLength && All(id, IdChar)
    ensures CaptureVideoId(pre + prefix + id + rest) == Some(id)
  {
    var s := pre + prefix + id + rest;
    var p := |pre|;
    assert s[..p] == pre;
    NoVideoBefore(s, p);
    assert s[p..] == prefix + id + rest;
    VideoIdAfterPrefix(s, p, prefix, id, rest);
    LeftmostIs(VideoAt(s), p, |s|);
  }

  // ---------------------------------------------------------------------
  // Playlist pattern

  const ListKey: string := "list="

  /** The playlist id the pattern captures when its match starts at `p`:
      `?` or `&`, then `list=`, then the greedy id run, at least one long. */
  function PlaylistIdAt(s: string, p: nat): (r: Option<string>)
    ensures r.Some? ==> r.value != [] && All(r.value, IdChar)
    ensures r.Some? ==> p + 6 + |r.value| <= |s| && s[p + 6..p + 6 + |r.value|] == r.value
    ensures r.Some? ==> p + 6 + |r.value| == |s| || !IdChar(s[p + 6 + |r.value|])
  {
    if p + 6 < |s| && (s[p] == '?' || s[p] == '&') && ListKey <= s[p + 1..] && IdChar(s[p + 6]) then
      var n := RunWhile(s[p + 6..], IdChar);
      assert s[p + 6..][..n] == s[p + 6..p + 6 + n];
      Some(s[p + 6..p + 6 + n])
    else None
  }

  function PlaylistAt(s: string): nat -> bool {
    (p: nat) => PlaylistIdAt(s, p).Some?
  }

  /** `url.match(playlistPattern)?.[1]`. */
  function PlaylistId(s: string): (r: Option<string>)
    ensures r.Some? ==> r.value != [] && All(r.value, IdChar)
    ensures r.Some? <==> exists p: nat :: p <= |s| && PlaylistIdAt(s, p).Some?
  {
    assert forall p: nat :: PlaylistAt(s)(p) == PlaylistIdAt(s, p).Some?;
    match Leftmost(PlaylistAt(s), 0, |s|)
    case None => None
    case Some(p) => PlaylistIdAt(s, p)
  }

  /** `getPlaylistId`: `null` for a falsy address, else the capture. */
  function CardPlaylistId(url: Option<string>): (r: Option<string>)
    ensures !Truthy(url) ==> r.None?
    ensures Truthy(url) ==> r == PlaylistId(url.value)
  {
    if Truthy(url) then PlaylistId(url.value) else None
  }

  /** The id after the first `?list=` or `&list=` is read up to the first
      character that cannot be part of it. */
  lemma ListParameterId(pre: string, sep: char, id: string, rest: string)
    requires '?' !in pre && '&' !in pre
    requires sep == '?' || sep == '&'
    requires id != [] && All(id, IdChar)
    requires rest == [] || !IdChar(rest[0])
    ensures PlaylistId(pre + [sep] + ListKey + id + rest) == Some(id)
  {
    var s := pre + [sep] + ListKey + id + rest;
    var p := |pre|;
    assert s[p..] == [sep] + ListKey + id + rest;
    ListMatchAt(s, p, sep, id, rest);
    assert s[..p] == pre;
    NoListBefore(s, p);
    LeftmostIs(PlaylistAt(s), p, |s|);
  }

  /** `?list=` or `&list=` at `p`, then an id run, captures that run. */
  lemma ListMatchAt(s: string, p: nat, sep: char, id: string, rest: string)
    requires sep == '?' || sep == '&'
    requires id != [] && All(id, IdChar)
    requires rest == [] || !IdChar(rest[0])
    requires p <= |s| && s[p..] == [sep] + ListKey + id + rest
    ensures PlaylistIdAt(s, p) == Some(id)
  {
    assert s[p + 1..] == ListKey + id + rest;
    assert s[p + 6..] == id + rest;
    assert s[p + 6] == id[0];
    RunWhileOf(id, rest, IdChar);
    assert s[p + 6..p + 6 + |id|] == id;
  }

  /** No match starts before the first `?` or `&`. */
  lemma NoListBefore(s: string, p: nat)
    requires p <= |s| && '?' !in s[..p] && '&' !in s[..p]
    ensures forall q: nat :: q < p ==> !PlaylistAt(s)(q)
  {
    forall q: nat | q < p
      ensures !PlaylistAt(s)(q)
    {
      assert s[q] == s[..p][q];
    }
  }

  // ---------------------------------------------------------------------
  // Web-address pattern

  /** `/^https?:\/\/.+/.test(s)`: the scheme, then at least one character
      that is not a line terminator. */
  predicate IsWebAddress(s: string) {
    || ("http://" <= s && |s| > 7 && !IsLineTerminator(s[7]))
    || ("https://" <= s && |s| > 8 && !IsLineTerminator(s[8]))
  }

  /** What the pattern promises, stated without reference to backtracking:
      the address starts with one of the two schemes and has more after it. */
  lemma WebAddressShape(s: string)
    ensures IsWebAddress(s) ==> |s| > 7 && ("http://" <= s || "https://" <= s)
    ensures forall host: string :: host != [] && !IsLineTerminator(host[0]) ==>
      IsWebAddress("https://" + host) && IsWebAddress("http://" + host)
  {
    forall host: string | host != [] && !IsLineTerminator(host[0])
      ensures IsWebAddress("https://" + host) && IsWebAddress("http://" + host)
    {
      assert ("https://" + host)[8] == host[0];
      assert ("http://" + host)[7] == host[0];
    }
  }

  // ---------------------------------------------------------------------
  // Card video pattern

  /** Where the first alternative of group 1 that matches at `p` ends.
      The six alternatives begin with different characters, so at most one
      can match at a position. */
  function CardAlternativeEnd(s: string, p: nat): (r: Option<nat>)
    ensures r.Some? ==> p < r.value <= |s|
  {
    if p > |s| then None
    else
      var t := s[p..];
      if |t| >= 9 && t[..5] == "youtu" && !IsLineTerminator(t[5]) && t[6..9] == "be/" then Some(p + 9)
      else if "v/" <= t then Some(p + 2)
      else if |t| >= 4 && t[..2] == "u/" && WordChar(t[2]) && t[3] == '/' then Some(p + 4)
      else if "embed/" <= t then Some(p + 6)
      else if "watch?v=" <= t then Some(p + 8)
      else if "&v=" <= t then Some(p + 3)
      else None
  }

  function CardAlternativeAt(s: string): nat -> bool {
    (p: nat) => CardAlternativeEnd(s, p).Some?
  }

  /** Where `^.*` must stop: the first line terminator, or the end. */
  function FirstLineEnd(s: string): (n: nat)
    ensures n <= |s| && All(s[..n], (c: char) => !IsLineTerminator(c))
    ensures n < |s| ==> IsLineTerminator(s[n])
  {
    RunWhile(s, (c: char) => !IsLineTerminator(c))
  }

  /** Group 2 of the card pattern: the greedy `[^#&?]*` after the rightmost
      alternative on the first line, or `None` when nothing matches. */
  function CardCapture(s: string): (r: Option<string>)
    ensures r.Some? <==> exists p: nat :: p <= FirstLineEnd(s) && CardAlternativeEnd(s, p).Some?
    ensures r.Some? ==> All(r.value, NotDelimiter)
  {
    assert forall p: nat :: CardAlternativeAt(s)(p) == CardAlternativeEnd(s, p).Some?;
    match Rightmost(CardAlternativeAt(s), FirstLineEnd(s))
    case None => None
    case Some(p) =>
      var e := CardAlternativeEnd(s, p).value;
      var n := RunWhile(s[e..], NotDelimiter);
      assert s[e..][..n] == s[e..e + n];
      Some(s[e..e + n])
  }

  /** `getYouTubeId`: `null` for a falsy address; otherwise the capture,
      but only when it is exactly 11 characters long. */
  function CardVideoId(url: Option<string>): (r: Option<string>)
    ensures r.Some? ==> Truthy(url) && |r.value| == VideoIdLength
    ensures r.Some? <==> Truthy(url) && CardCapture(url.value).Some? && |CardCapture(url.value).value| == VideoIdLength
  {
    if !Truthy(url) then None
    else match CardCapture(url.value)
      case None => None
      case Some(c) => if |c| == VideoIdLength then Some(c) else None
  }

  /** Every alternative contains `/`, `?` or `&`, so none can start in a
      stretch free of them. */
  lemma NoAlternativeWithoutDelimiters(s: string, q: nat)
    requires q <= |s|
    requires forall k :: q <= k < |s| ==> s[k] != '/' && s[k] != '?' && s[k] != '&'
    ensures CardAlternativeEnd(s, q).None?
  {
    var t := s[q..];
    assert |t| >= 9 ==> t[8] == s[q + 8];
    assert |t| >= 6 ==> t[5] == s[q + 5];
    assert |t| >= 2 ==> t[1] == s[q + 1];
    assert |t| >= 1 ==> t[0] == s[q];
  }

  /** No alternative starts at a character other than their six first
      characters, nor at a `v` not followed by `/`. */
  lemma NoAlternativeAtChar(s: string, q: nat)
    requires q < |s|
    requires s[q] !in {'y', 'u', 'e', 'w', '&'}
    requires s[q] == 'v' ==> q + 1 < |s| && s[q + 1] != '/'
    ensures CardAlternativeEnd(s, q).None?
  {
    var t := s[q..];
    assert t[0] == s[q];
    assert |t| >= 2 ==> t[1] == s[q + 1];
  }

  /** `watch?v=` at `p` is the fifth alternative. */
  lemma WatchAlternative(s: string, p: nat, rest: string)
    requires p <= |s| && s[p..] == "watch?v=" + rest
    ensures CardAlternativeEnd(s, p) == Some(p + 8)
    ensures forall q: nat :: p < q < p + 8 ==> CardAlternativeEnd(s, q).None?
  {
    assert s[p..][0] == 'w';
    forall q: nat | p < q < p + 8
      ensures CardAlternativeEnd(s, q).None?
    {
      assert s[q] == s[p..][q - p] == "watch?v="[q - p];
      if q < p + 7 {
        assert s[q + 1] == s[p..][q + 1 - p];
      }
      NoAlternativeAtChar(s, q);
    }
  }

  /** The match found by a search from the right is the one at `p` when
      nothing after it qualifies. */
  lemma RightmostIs(found: nat -> bool, p: nat, upto: nat)
    requires p <= upto && found(p)
    requires forall q: nat :: p < q <= upto ==> !found(q)
    ensures Rightmost(found, upto) == Some(p)
  {
  }

  predicate FreeOfSeparators(id: string) {
    forall k :: 0 <= k < |id| ==> id[k] != '/' && id[k] != '?' && id[k] != '&' && id[k] != '#'
  }

  predicate OneLine(s: string) {
    forall k :: 0 <= k < |s| ==> !IsLineTerminator(s[k])
  }

  lemma OneLineEnd(s: string)
    requires OneLine(s)
    ensures FirstLineEnd(s) == |s|
  {
  }

  /** After `head`, a separator-free tail holds no `/`, `?` or `&`. */
  lemma SuffixFreeOfSeparators(head: string, id: string)
    requires FreeOfSeparators(id)
    ensures forall k :: |head| <= k < |head + id| ==>
      (head + id)[k] != '/' && (head + id)[k] != '?' && (head + id)[k] != '&'
  {
    forall k | |head| <= k < |head + id|
      ensures (head + id)[k] != '/' && (head + id)[k] != '?' && (head + id)[k] != '&'
    {
      assert (head + id)[k] == id[k - |head|];
    }
  }

  /** On a one-line address ending in `watch?v=` and an id free of `/`,
      `?`, `&` and `#`, the rightmost alternative is that `watch?v=`. */
  lemma CardWatchMatch(pre: string, id: string)
    requires FreeOfSeparators(id)
    ensures Rightmost(CardAlternativeAt(pre + "watch?v=" + id), |pre + "watch?v=" + id|) == Some(|pre|)
  {
    var s := pre + "watch?v=" + id;
    var p := |pre|;
    var e := p + 8;
    assert s[p..] == "watch?v=" + id;
    WatchAlternative(s, p, id);
    assert s == (pre + "watch?v=") + id;
    SuffixFreeOfSeparators(pre + "watch?v=", id);
    forall q: nat | e <= q <= |s|
      ensures CardAlternativeEnd(s, q).None?
    {
      NoAlternativeWithoutDelimiters(s, q);
    }
    RightmostIs(CardAlternativeAt(s), p, |s|);
  }

  /** A one-line watch address ending in an 11-character id yields it. */
  lemma CardWatchAddressId(pre: string, id: string)
    requires OneLine(pre + "watch?v=" + id)
    requires |id| == VideoIdLength && FreeOfSeparators(id)
    ensures CardVideoId(Some(pre + "watch?v=" + id)) == Some(id)
  {
    var s := pre + "watch?v=" + id;
    var p := |pre|;
    var e := p + 8;
    OneLineEnd(s);
    CardWatchMatch(pre, id);
    assert s[p..] == "watch?v=" + id;
    WatchAlternative(s, p, id);
    assert s[e..] == id + [];
    RunWhileOf(id, [], NotDelimiter);
    assert s[e..e + |id|] == id;
  }
}
