/** String helpers shared by the whole model: the JavaScript string methods
    the application calls (trim, toLowerCase, includes, startsWith, split on
    whitespace, replace, slice, padStart) and decimal rendering of numbers.
    A character is a Unicode scalar value; JavaScript counts UTF-16 code
    units, and the two agree on text inside the Basic Multilingual Plane. */
module Text {

  import opened Options

  /** The characters JavaScript's `trim` and the regex class `\s` treat as
      white space: WhiteSpace plus LineTerminator of ECMA-262. */
  predicate IsSpace(c: char) {
    || c == ' ' || c == '\t' || c == '\n' || c == '\U{000B}' || c == '\U{000C}'
    || c == '\r' || c == '\U{00A0}' || c == '\U{1680}' || ('\U{2000}' <= c <= '\U{200A}')
    || c == '\U{2028}' || c == '\U{2029}' || c == '\U{202F}' || c == '\U{205F}'
    || c == '\U{3000}' || c == '\U{FEFF}'
  }

  /** The characters a regex `.` refuses to match. */
  predicate IsLineTerminator(c: char) {
    c == '\n' || c == '\r' || c == '\U{2028}' || c == '\U{2029}'
  }

  predicate AllSpace(s: string) {
    forall i :: 0 <= i < |s| ==> IsSpace(s[i])
  }

  function TrimStart(s: string): (r: string)
    ensures |r| <= |s| && r == s[|s| - |r|..]
    ensures AllSpace(s[..|s| - |r|])
    ensures r == [] || !IsSpace(r[0])
  {
    if s != [] && IsSpace(s[0]) then
      var r := TrimStart(s[1..]);
      DropLeadingSpace(s, r);
      r
    else s
  }

  /** One more leading space before what trimming the rest cut. */
  lemma DropLeadingSpace(s: string, r: string)
    requires s != [] && IsSpace(s[0])
    requires |r| <= |s| - 1 && r == s[1..][|s| - 1 - |r|..] && AllSpace(s[1..][..|s| - 1 - |r|])
    ensures r == s[|s| - |r|..] && AllSpace(s[..|s| - |r|])
  {
    assert s[..|s| - |r|] == [s[0]] + s[1..][..|s| - 1 - |r|];
  }

  function TrimEnd(s: string): (r: string)
    ensures |r| <= |s| && r == s[..|r|]
    ensures AllSpace(s[|r|..])
    ensures r == [] || !IsSpace(r[|r| - 1])
  {
    if s != [] && IsSpace(s[|s| - 1]) then
      var r := TrimEnd(s[..|s| - 1]);
      DropTrailingSpace(s, r);
      r
    else s
  }

  /** One more trailing space after what trimming the rest cut. */
  lemma DropTrailingSpace(s: string, r: string)
    requires s != [] && IsSpace(s[|s| - 1])
    requires |r| <= |s| - 1 && r == s[..|s| - 1][..|r|] && AllSpace(s[..|s| - 1][|r|..])
    ensures r == s[..|r|] && AllSpace(s[|r|..])
  {
    assert s[|r|..] == s[..|s| - 1][|r|..] + [s[|s| - 1]];
  }

  /** `String.prototype.trim`: the slice of `s` left once leading and
      trailing white space is removed. */
  function Trim(s: string): (r: string)
    ensures exists i, j :: 0 <= i <= j <= |s| && r == s[i..j] && AllSpace(s[..i]) && AllSpace(s[j..])
    ensures r == [] || (!IsSpace(r[0]) && !IsSpace(r[|r| - 1]))
  {
    var t := TrimStart(s);
    var r := TrimEnd(t);
    TrimSlices(s, t, r);
    r
  }

  /** Where the two trims cut `s`: `t` is what is left after the leading
      white space, and `r` what is left of `t` before the trailing. */
  lemma TrimSlices(s: string, t: string, r: string)
    requires |t| <= |s| && t == s[|s| - |t|..] && AllSpace(s[..|s| - |t|])
    requires |r| <= |t| && r == t[..|r|] && AllSpace(t[|r|..])
    ensures exists i, j :: 0 <= i <= j <= |s| && r == s[i..j] && AllSpace(s[..i]) && AllSpace(s[j..])
  {
    var i := |s| - |t|;
    assert r == s[i..i + |r|];
    assert s[i + |r|..] == t[|r|..];
  }

  /** A string with no white space at either end is its own trim. */
  lemma TrimOfUnpadded(s: string)
    requires s == [] || (!IsSpace(s[0]) && !IsSpace(s[|s| - 1]))
    ensures Trim(s) == s
  {
    assert TrimStart(s) == s;
    assert TrimEnd(s) == s;
  }

  lemma {:induction false} TrimStartOfAllSpace(s: string)
    requires AllSpace(s)
    ensures TrimStart(s) == []
  {
    if s != [] {
      TrimStartOfAllSpace(s[1..]);
    }
  }

  lemma TrimEmptyIffAllSpace(s: string)
    ensures Trim(s) == [] <==> AllSpace(s)
  {
    var t := TrimStart(s);
    var i := |s| - |t|;
    if AllSpace(s) {
      TrimStartOfAllSpace(s);
    }
    if Trim(s) == [] {
      assert AllSpace(t) by { assert t[0..] == t; }
      assert s == s[..i] + t;
      assert AllSpace(s[..i] + t);
    }
  }

  /** `toLowerCase`, for the ASCII letters. */
  function LowerChar(c: char): (r: char)
    ensures 'A' <= c <= 'Z' ==> 'a' <= r <= 'z' && r as int - c as int == 32
    ensures !('A' <= c <= 'Z') ==> r == c
  {
    if 'A' <= c <= 'Z' then (c as int + 32) as char else c
  }

  function Lower(s: string): (r: string)
    ensures |r| == |s|
    ensures forall i :: 0 <= i < |s| ==> r[i] == LowerChar(s[i])
  {
    seq(|s|, i requires 0 <= i < |s| => LowerChar(s[i]))
  }

  lemma LowerIdempotent(s: string)
    ensures Lower(Lower(s)) == Lower(s)
  {
  }

  lemma LowerKeepsSpaces(s: string)
    ensures forall i :: 0 <= i < |s| ==> (IsSpace(Lower(s)[i]) <==> IsSpace(s[i]))
  {
  }

  /** `hay.includes(needle)`. */
  predicate Contains(hay: string, needle: string) {
    exists i :: 0 <= i <= |hay| && needle <= hay[i..]
  }

  lemma EmptyIsContained(hay: string)
    ensures Contains(hay, [])
  {
    assert [] <= hay[0..];
  }

  lemma ContainsSelf(s: string)
    ensures Contains(s, s)
  {
    assert s <= s[0..];
  }

  /** Lowering both sides keeps a match. */
  lemma LowerKeepsContains(hay: string, needle: string)
    requires Contains(hay, needle)
    ensures Contains(Lower(hay), Lower(needle))
  {
    var i :| 0 <= i <= |hay| && needle <= hay[i..];
    assert Lower(needle) <= Lower(hay)[i..];
  }

  /** Text appended after a match does not undo it. */
  lemma ContainsExtended(hay: string, more: string, needle: string)
    requires Contains(hay, needle)
    ensures Contains(hay + more, needle)
  {
    var i :| 0 <= i <= |hay| && needle <= hay[i..];
    assert (hay + more)[i..] == hay[i..] + more;
  }

  /** `s.startsWith(p)`. */
  predicate StartsWith(s: string, p: string) {
    p <= s
  }

  /** Index of the first occurrence of `pat` in `s` at or after `from`. */
  function IndexOfFrom(s: string, pat: string, from: nat): (r: Option<nat>)
    requires from <= |s|
    ensures r.Some? ==> from <= r.value <= |s| - |pat| && pat <= s[r.value..]
    ensures r.Some? ==> forall k :: from <= k < r.value ==> !(pat <= s[k..])
    ensures r.None? ==> forall k :: from <= k <= |s| ==> !(pat <= s[k..])
    decreases |s| - from
  {
    if pat <= s[from..] then Some(from)
    else if from == |s| then None
    else IndexOfFrom(s, pat, from + 1)
  }

  function IndexOf(s: string, pat: string): (r: Option<nat>)
    ensures r.Some? <==> Contains(s, pat)
    ensures r.Some? ==> r.value + |pat| <= |s| && s[r.value..r.value + |pat|] == pat
    ensures r.Some? ==> forall k :: 0 <= k < r.value ==> !(pat <= s[k..])
  {
    IndexOfFrom(s, pat, 0)
  }

  /** A string that starts with the pattern finds it at 0. */
  lemma IndexOfPrefix(s: string, pat: string)
    requires pat <= s
    ensures IndexOf(s, pat) == Some(0)
  {
    assert s[0..] == s;
  }

  /** `s.replace(pat, rep)` with a string pattern: only the first
      occurrence, wherever it is, is replaced. */
  function ReplaceFirst(s: string, pat: string, rep: string): (r: string)
    ensures !Contains(s, pat) ==> r == s
    ensures Contains(s, pat) ==>
      exists i :: 0 <= i <= |s| - |pat| && s[i..i + |pat|] == pat && r == s[..i] + rep + s[i + |pat|..]
        && forall k :: 0 <= k < i ==> !(pat <= s[k..])
  {
    match IndexOf(s, pat)
    case None => s
    case Some(i) => s[..i] + rep + s[i + |pat|..]
  }

  /** Replacing with nothing deletes the first occurrence. */
  lemma ReplaceFirstDeletes(s: string, pat: string)
    ensures Contains(s, pat) ==>
      exists i :: 0 <= i <= |s| - |pat| && s[i..i + |pat|] == pat && ReplaceFirst(s, pat, []) == s[..i] + s[i + |pat|..]
        && forall k :: 0 <= k < i ==> !(pat <= s[k..])
  {
    if Contains(s, pat) {
      var i := IndexOf(s, pat).value;
      var r := ReplaceFirst(s, pat, []);
      assert r == s[..i] + [] + s[i + |pat|..];
      assert s[..i] + [] + s[i + |pat|..] == s[..i] + s[i + |pat|..];
      assert 0 <= i <= |s| - |pat| && s[i..i + |pat|] == pat;
      assert forall k :: 0 <= k < i ==> !(pat <= s[k..]);
      assert r == s[..i] + s[i + |pat|..];
    }
  }

  /** `s.split(c)[0]`: everything before the first `c`. */
  function BeforeFirst(s: string, c: char): (r: string)
    ensures r <= s
    ensures c !in r
    ensures |r| < |s| ==> s[|r|] == c
  {
    if s == [] || s[0] == c then [] else [s[0]] + BeforeFirst(s[1..], c)
  }

  /** The part before the first `c` of `a + [c] + b` is `a` when `a` holds
      no `c`. */
  lemma {:induction false} BeforeFirstOfConcat(a: string, c: char, b: string)
    requires c !in a
    ensures BeforeFirst(a + [c] + b, c) == a
  {
    if a != [] {
      assert (a + [c] + b)[1..] == a[1..] + [c] + b;
      BeforeFirstOfConcat(a[1..], c, b);
    }
  }

  /** Number of leading characters of `s` that are not white space. */
  function WordLength(s: string): (n: nat)
    ensures n <= |s|
    ensures forall k :: 0 <= k < n ==> !IsSpace(s[k])
    ensures n < |s| ==> IsSpace(s[n])
  {
    if s == [] || IsSpace(s[0]) then 0 else 1 + WordLength(s[1..])
  }

  predicate NoSpace(w: string) {
    forall k :: 0 <= k < |w| ==> !IsSpace(w[k])
  }

  /** `s.split(/\s+/).filter(Boolean)`: the maximal runs of non-space
      characters, in order. */
  function Terms(s: string): (r: seq<string>)
    ensures forall k :: 0 <= k < |r| ==> r[k] != [] && NoSpace(r[k])
    decreases |s|
  {
    var t := TrimStart(s);
    if t == [] then []
    else
      var w := WordLength(t);
      LeadingWord(t);
      var r := [t[..w]] + Terms(t[w..]);
      WordsCons(t[..w], Terms(t[w..]));
      r
  }

  /** A word in front of a list of words is still a list of words. */
  lemma WordsCons(w: string, rest: seq<string>)
    requires w != [] && NoSpace(w)
    requires forall k :: 0 <= k < |rest| ==> rest[k] != [] && NoSpace(rest[k])
    ensures forall k :: 0 <= k < |[w] + rest| ==> ([w] + rest)[k] != [] && NoSpace(([w] + rest)[k])
  {
    forall k | 0 <= k < |[w] + rest|
      ensures ([w] + rest)[k] != [] && NoSpace(([w] + rest)[k])
    {
      if k > 0 {
        assert ([w] + rest)[k] == rest[k - 1];
      }
    }
  }

  /** A string that starts with a non-space character starts with a word. */
  lemma LeadingWord(t: string)
    requires t != [] && !IsSpace(t[0])
    ensures 0 < WordLength(t) <= |t| && NoSpace(t[..WordLength(t)])
  {
  }

  lemma {:induction false} TermsEmptyIffAllSpace(s: string)
    ensures Terms(s) == [] <==> AllSpace(s)
  {
    if AllSpace(s) {
      TrimStartOfAllSpace(s);
    }
    if TrimStart(s) == [] {
      assert s[..|s|] == s;
    }
  }

  /** A word without white space is read whole. */
  lemma {:induction false} WordLengthOfNoSpace(w: string)
    requires NoSpace(w)
    ensures WordLength(w) == |w|
  {
    if w != [] {
      assert !IsSpace(w[0]);
      WordLengthOfNoSpace(w[1..]);
    }
  }

  lemma {:induction false} TermsOfWord(w: string)
    requires w != [] && NoSpace(w)
    ensures Terms(w) == [w]
  {
    assert !IsSpace(w[0]);
    assert TrimStart(w) == w;
    WordLengthOfNoSpace(w);
    assert w[..|w|] == w && w[|w|..] == [];
    assert Terms([]) == [];
    assert Terms(w) == [w[..WordLength(w)]] + Terms(w[WordLength(w)..]);
  }

  function DigitChar(d: nat): (c: char)
    requires d < 10
    ensures IsDigit(c) && DigitValue(c) == d
  {
    ('0' as int + d) as char
  }

  predicate IsDigit(c: char) {
    '0' <= c <= '9'
  }

  function DigitValue(c: char): (d: nat)
    requires IsDigit(c)
    ensures d < 10
  {
    c as int - '0' as int
  }

  predicate AllDigits(s: string) {
    forall k :: 0 <= k < |s| ==> IsDigit(s[k])
  }

  /** The number a string of decimal digits denotes (`parseInt` on it). */
  function DigitsValue(s: string): nat
    requires AllDigits(s)
  {
    if s == [] then 0 else DigitsValue(s[..|s| - 1]) * 10 + DigitValue(s[|s| - 1])
  }

  /** Decimal rendering of a non-negative integer, as a template literal
      renders a JavaScript number. */
  function NatToString(n: nat): (r: string)
    ensures r != [] && AllDigits(r)
    ensures |r| == 1 <==> n < 10
    ensures |r| > 1 ==> r[0] != '0'
  {
    if n < 10 then [DigitChar(n)] else NatToString(n / 10) + [DigitChar(n % 10)]
  }

  /** Reading back the digits gives the number: rendering is injective. */
  lemma {:induction false} NatToStringRoundTrip(n: nat)
    ensures DigitsValue(NatToString(n)) == n
  {
    if n >= 10 {
      var r := NatToString(n);
      assert r[..|r| - 1] == NatToString(n / 10);
      NatToStringRoundTrip(n / 10);
    }
  }

  /** `s.padStart(2, '0')`. */
  function PadTwo(s: string): (r: string)
    ensures |s| >= 2 ==> r == s
    ensures |s| < 2 ==> |r| == 2 && r[2 - |s|..] == s && forall k :: 0 <= k < 2 - |s| ==> r[k] == '0'
  {
    if |s| >= 2 then s else seq(2 - |s|, _ => '0') + s
  }

  lemma DigitsValueLeadingZero(s: string)
    requires AllDigits(s)
    ensures AllDigits("0" + s) && DigitsValue("0" + s) == DigitsValue(s)
    decreases |s|
  {
    if s != [] {
      assert ("0" + s)[..|s|] == "0" + s[..|s| - 1];
      DigitsValueLeadingZero(s[..|s| - 1]);
    }
  }

  /** A two-digit-padded number reads back as the number. */
  lemma PadTwoRoundTrip(n: nat)
    requires n < 100
    ensures AllDigits(PadTwo(NatToString(n))) && |PadTwo(NatToString(n))| == 2
    ensures DigitsValue(PadTwo(NatToString(n))) == n
  {
    NatToStringRoundTrip(n);
    var s := NatToString(n);
    if n < 10 {
      assert PadTwo(s) == "0" + s;
      DigitsValueLeadingZero(s);
    } else {
      assert |s| == 2 by {
        assert s == NatToString(n / 10) + [DigitChar(n % 10)];
      }
    }
  }

  /** `parts.filter(Boolean).join(sep)` over strings. */
  function JoinNonEmpty(parts: seq<string>, sep: string): (r: string)
    ensures (forall k :: 0 <= k < |parts| ==> parts[k] == []) ==> r == []
  {
    if parts == [] then []
    else if parts[0] == [] then JoinNonEmpty(parts[1..], sep)
    else
      var rest := JoinNonEmpty(parts[1..], sep);
      if rest == [] then parts[0] else parts[0] + sep + rest
  }

  /** Every non-empty part occurs in the joined text. */
  lemma {:induction false} JoinNonEmptyContainsParts(parts: seq<string>, sep: string, k: nat)
    requires k < |parts|
    ensures Contains(JoinNonEmpty(parts, sep), parts[k])
  {
    var r := JoinNonEmpty(parts, sep);
    if parts[k] == [] {
      EmptyIsContained(r);
    } else if k == 0 {
      var rest := JoinNonEmpty(parts[1..], sep);
      assert parts[0] <= r[0..];
    } else {
      JoinNonEmptyContainsParts(parts[1..], sep, k - 1);
      var rest := JoinNonEmpty(parts[1..], sep);
      assert parts[1..][k - 1] == parts[k];
      if parts[0] != [] && rest != [] {
        var i :| 0 <= i <= |rest| && parts[k] <= rest[i..];
        var off := |parts[0]| + |sep|;
        assert r[off + i..] == rest[i..];
      }
    }
  }
}
