/** Clock-style renderings of a number of seconds: the focus view's
    `formatDuration` (M:SS, or H:MM:SS from one hour on) and the video
    card's (M:SS with unbounded minutes), together with the reading that
    inverts both. */
module Clock {

  import opened Options
  import opened Text

  /** `formatDuration` of the focus view. A falsy value (missing or 0)
      shows as `0:00`. */
  function FormatDuration(seconds: Option<nat>): (r: string)
    ensures seconds.None? || seconds.value == 0 ==> r == "0:00"
  {
    if seconds.None? || seconds.value == 0 then "0:00"
    else
      var n := seconds.value;
      var hours := n / 3600;
      var mins := n % 3600 / 60;
      var secs := n % 60;
      if hours > 0 then NatToString(hours) + ":" + PadTwo(NatToString(mins)) + ":" + PadTwo(NatToString(secs))
      else NatToString(mins) + ":" + PadTwo(NatToString(secs))
  }

  /** The video card's `formatDuration`: minutes are never folded into hours. */
  function MinutesAndSeconds(seconds: nat): (r: string) {
    NatToString(seconds / 60) + ":" + PadTwo(NatToString(seconds % 60))
  }

  // ---------------------------------------------------------------------
  // Reading a clock back

  /** `s.split(c)`. */
  function SplitOn(s: string, c: char): (r: seq<string>)
    ensures r != []
    decreases |s|
  {
    var head := BeforeFirst(s, c);
    if |head| == |s| then [s] else [head] + SplitOn(s[|head| + 1..], c)
  }

  lemma SplitOnFree(s: string, c: char)
    requires c !in s
    ensures SplitOn(s, c) == [s]
  {
  }

  lemma SplitOnFreeHead(a: string, c: char, b: string)
    requires c !in a
    ensures SplitOn(a + [c] + b, c) == [a] + SplitOn(b, c)
  {
    BeforeFirstOfConcat(a, c, b);
    assert (a + [c] + b)[|a| + 1..] == b;
  }

  /** Base-60 value of `parts`, read from the left onto `acc`, provided
      every entry is a digit string. */
  function SexagesimalValue(parts: seq<string>, acc: nat): (r: Option<nat>)
    ensures r.Some? <==> forall k :: 0 <= k < |parts| ==> AllDigits(parts[k])
  {
    if parts == [] then Some(acc)
    else if !AllDigits(parts[0]) then None
    else
      var r := SexagesimalValue(parts[1..], acc * 60 + DigitsValue(parts[0]));
      assert forall k :: 1 <= k < |parts| ==> parts[k] == parts[1..][k - 1];
      r
  }

  /** The number of seconds a clock string shows: its colon-separated
      fields read in base 60. */
  function ClockSeconds(s: string): (r: Option<nat>) {
    SexagesimalValue(SplitOn(s, ':'), 0)
  }

  lemma DigitsHaveNoColon(s: string)
    requires AllDigits(s)
    ensures ':' !in s
  {
    assert forall k :: 0 <= k < |s| ==> s[k] != ':';
  }

  lemma SplitTwo(a: string, b: string)
    requires ':' !in a && ':' !in b
    ensures SplitOn(a + ":" + b, ':') == [a, b]
  {
    SplitOnFreeHead(a, ':', b);
    SplitOnFree(b, ':');
    assert a + ":" + b == a + [':'] + b;
  }

  lemma SplitThree(a: string, b: string, c: string)
    requires ':' !in a && ':' !in b && ':' !in c
    ensures SplitOn(a + ":" + b + ":" + c, ':') == [a, b, c]
  {
    assert a + ":" + b + ":" + c == a + [':'] + (b + [':'] + c);
    SplitOnFreeHead(a, ':', b + [':'] + c);
    SplitOnFreeHead(b, ':', c);
    SplitOnFree(c, ':');
  }

  /** One base-60 step. */
  lemma SexagesimalCons(x: string, rest: seq<string>, acc: nat)
    requires AllDigits(x)
    ensures SexagesimalValue([x] + rest, acc) == SexagesimalValue(rest, acc * 60 + DigitsValue(x))
  {
    assert ([x] + rest)[1..] == rest;
  }

  /** The last two fields read onto `acc`. */
  lemma ValueTail(b: string, c: string, acc: nat, y: nat, z: nat)
    requires AllDigits(b) && AllDigits(c) && DigitsValue(b) == y && DigitsValue(c) == z
    ensures SexagesimalValue([b, c], acc) == Some((acc * 60 + y) * 60 + z)
  {
    SexagesimalCons(b, [c], acc);
    SexagesimalCons(c, [], acc * 60 + y);
    assert [b] + [c] == [b, c] && [c] + [] == [c];
  }

  /** Two digit fields read as `a * 60 + b`. */
  lemma TwoFields(a: string, b: string, x: nat, y: nat)
    requires AllDigits(a) && AllDigits(b) && DigitsValue(a) == x && DigitsValue(b) == y
    ensures ClockSeconds(a + ":" + b) == Some(x * 60 + y)
  {
    DigitsHaveNoColon(a);
    DigitsHaveNoColon(b);
    SplitTwo(a, b);
    SexagesimalCons(a, [b], 0);
    SexagesimalCons(b, [], x);
    assert [a] + [b] == [a, b] && [b] + [] == [b];
  }

  /** Three digit fields read as `(a * 60 + b) * 60 + c`. */
  lemma ThreeFields(a: string, b: string, c: string, x: nat, y: nat, z: nat)
    requires AllDigits(a) && AllDigits(b) && AllDigits(c)
    requires DigitsValue(a) == x && DigitsValue(b) == y && DigitsValue(c) == z
    ensures ClockSeconds(a + ":" + b + ":" + c) == Some((x * 60 + y) * 60 + z)
  {
    DigitsHaveNoColon(a);
    DigitsHaveNoColon(b);
    DigitsHaveNoColon(c);
    SplitThree(a, b, c);
    SexagesimalCons(a, [b, c], 0);
    ValueTail(b, c, x, y, z);
    assert [a] + [b, c] == [a, b, c];
  }

  /** The card's rendering reads back as the number of seconds. */
  lemma MinutesAndSecondsRoundTrip(seconds: nat)
    ensures ClockSeconds(MinutesAndSeconds(seconds)) == Some(seconds)
  {
    var m, s := seconds / 60, seconds % 60;
    PadTwoRoundTrip(s);
    NatToStringRoundTrip(m);
    TwoFields(NatToString(m), PadTwo(NatToString(s)), m, s);
  }

  /** Hours, minutes and seconds recombine to the whole. */
  lemma HoursMinutesSeconds(n: nat)
    ensures (n / 3600 * 60 + n % 3600 / 60) * 60 + n % 60 == n
  {
    var h, r := n / 3600, n % 3600;
    assert n == h * 3600 + r;
    assert r == r / 60 * 60 + r % 60;
    assert n % 60 == r % 60 by {
      assert n == (h * 60) * 60 + r;
    }
  }

  /** From an hour on, the focus view shows hours, then minutes and seconds
      padded to two digits. */
  lemma HoursForm(n: nat)
    requires n >= 3600
    ensures n % 3600 / 60 < 60 && n % 60 < 60
    ensures FormatDuration(Some(n)) ==
      NatToString(n / 3600) + ":" + PadTwo(NatToString(n % 3600 / 60)) + ":" + PadTwo(NatToString(n % 60))
  {
  }

  /** Below an hour, the focus view shows what the card shows. */
  lemma MinutesForm(n: nat)
    requires 0 < n < 3600
    ensures FormatDuration(Some(n)) == MinutesAndSeconds(n)
  {
    assert n % 3600 == n;
  }

  /** H:MM:SS reads back as `(h * 60 + m) * 60 + s`. */
  lemma ThreeFieldClock(h: nat, m: nat, s: nat)
    requires m < 100 && s < 100
    ensures ClockSeconds(NatToString(h) + ":" + PadTwo(NatToString(m)) + ":" + PadTwo(NatToString(s))) ==
      Some((h * 60 + m) * 60 + s)
  {
    NatToStringRoundTrip(h);
    PadTwoRoundTrip(m);
    PadTwoRoundTrip(s);
    ThreeFields(NatToString(h), PadTwo(NatToString(m)), PadTwo(NatToString(s)), h, m, s);
  }

  /** The three-field form, from an hour on. */
  lemma HoursRoundTrip(n: nat)
    requires n >= 3600
    ensures ClockSeconds(FormatDuration(Some(n))) == Some(n)
  {
    HoursForm(n);
    ThreeFieldClock(n / 3600, n % 3600 / 60, n % 60);
    HoursMinutesSeconds(n);
  }

  /** `0:00` reads as 0. */
  lemma ZeroRoundTrip()
    ensures ClockSeconds("0:00") == Some(0)
  {
    assert "0:00" == "0" + ":" + "00";
    assert DigitsValue("0") == 0;
    assert DigitsValue("00") == 0 by {
      assert "00"[..1] == "0";
    }
    TwoFields("0", "00", 0, 0);
  }

  /** The focus view's rendering reads back as the number of seconds, a
      falsy duration as 0. */
  lemma FormatDurationRoundTrip(seconds: Option<nat>)
    ensures ClockSeconds(FormatDuration(seconds)) == Some(seconds.GetOr(0))
  {
    if seconds.None? || seconds.value == 0 {
      ZeroRoundTrip();
    } else if seconds.value < 3600 {
      MinutesForm(seconds.value);
      MinutesAndSecondsRoundTrip(seconds.value);
    } else {
      HoursRoundTrip(seconds.value);
    }
  }

  /** Below an hour the two renderings agree; from an hour on the focus view
      switches to three fields. */
  lemma FormatsAgreeBelowAnHour(seconds: nat)
    requires 0 < seconds
    ensures seconds < 3600 <==> FormatDuration(Some(seconds)) == MinutesAndSeconds(seconds)
  {
    if seconds >= 3600 {
      HoursForm(seconds);
      ThreeFieldsAreNotTwo(seconds / 3600, seconds % 3600 / 60, seconds % 60, seconds / 60);
    } else {
      MinutesForm(seconds);
    }
  }

  /** An H:MM:SS string never equals an M:SS one. */
  lemma ThreeFieldsAreNotTwo(h: nat, m: nat, s: nat, minutes: nat)
    requires m < 100 && s < 100
    ensures NatToString(h) + ":" + PadTwo(NatToString(m)) + ":" + PadTwo(NatToString(s)) !=
      NatToString(minutes) + ":" + PadTwo(NatToString(s))
  {
    var hs, ms, ss, cs := NatToString(h), PadTwo(NatToString(m)), PadTwo(NatToString(s)), NatToString(minutes);
    PadTwoRoundTrip(m);
    PadTwoRoundTrip(s);
    DigitsHaveNoColon(hs);
    DigitsHaveNoColon(ms);
    DigitsHaveNoColon(ss);
    DigitsHaveNoColon(cs);
    SplitThree(hs, ms, ss);
    SplitTwo(cs, ss);
  }
}
