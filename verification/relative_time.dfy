/** `formatRelativeTime` (src/lib/utils.js): how long ago an item was
    saved, bucketed by nested floors of the elapsed seconds. The clock and
    the locale's date rendering are parameters. */
module RelativeTime {

  import opened Text

  /** The argument as the function sees it: falsy, a date that does not
      parse (its time value is NaN), or a time in milliseconds. */
  datatype DateInput = Falsy | InvalidDate | At(millis: int)

  datatype Bucket = JustNow | MinutesAgo(n: nat) | HoursAgo(n: nat) | Yesterday | DaysAgo(n: nat) | OnDate

  /** `Math.floor((now - date) / 1000)`: for a positive divisor Dafny's
      division already rounds toward negative infinity. */
  function ElapsedSeconds(nowMillis: int, millis: int): (s: int)
    ensures s * 1000 <= nowMillis - millis < s * 1000 + 1000
  {
    (nowMillis - millis) / 1000
  }

  /** The source's cascade: minutes, hours and days each floored from the
      previous unit. */
  function Bucketed(s: int): (b: Bucket)
    ensures b.JustNow? <==> s < 60
    ensures b.MinutesAgo? ==> 1 <= b.n <= 59
    ensures b.HoursAgo? ==> 1 <= b.n <= 23
    ensures b.DaysAgo? ==> 2 <= b.n <= 6
  {
    if s < 60 then JustNow
    else
      var minutes := s / 60;
      if minutes < 60 then MinutesAgo(minutes)
      else
        var hours := minutes / 60;
        if hours < 24 then HoursAgo(hours)
        else if hours < 48 then Yesterday
        else
          var days := hours / 24;
          if days < 7 then DaysAgo(days) else OnDate
  }

  /** The same buckets stated with thresholds in seconds. */
  function DirectBucket(s: int): Bucket {
    if s < 60 then JustNow
    else if s < 3600 then MinutesAgo(s / 60)
    else if s < 86400 then HoursAgo(s / 3600)
    else if s < 172800 then Yesterday
    else if s < 604800 then DaysAgo(s / 86400)
    else OnDate
  }

  /** Flooring minutes into hours, and hours into days, is flooring the
      seconds once. */
  lemma FloorsCompose(s: int)
    requires s >= 0
    ensures s / 60 / 60 == s / 3600
    ensures s / 3600 / 24 == s / 86400
  {
    assert s / 60 == 60 * (s / 3600) + s % 3600 / 60;
    assert s / 3600 == 24 * (s / 86400) + s % 86400 / 3600;
  }

  /** The cascade of floors agrees with the thresholds in seconds. */
  lemma BucketsAgree(s: int)
    ensures Bucketed(s) == DirectBucket(s)
  {
    if s >= 60 {
      FloorsCompose(s);
    }
  }

  /** Position of a bucket in time order. */
  function Rank(b: Bucket): nat {
    match b
    case JustNow => 0
    case MinutesAgo(_) => 1
    case HoursAgo(_) => 2
    case Yesterday => 3
    case DaysAgo(_) => 4
    case OnDate => 5
  }

  /** Older never reads as more recent: the bucket, and the count within
      one, never go down as the elapsed time grows. */
  lemma BucketMonotone(s: int, t: int)
    requires s <= t
    ensures Rank(Bucketed(s)) <= Rank(Bucketed(t))
    ensures Rank(Bucketed(s)) == Rank(Bucketed(t)) && Bucketed(s).MinutesAgo? ==> Bucketed(s).n <= Bucketed(t).n
    ensures Rank(Bucketed(s)) == Rank(Bucketed(t)) && Bucketed(s).HoursAgo? ==> Bucketed(s).n <= Bucketed(t).n
    ensures Rank(Bucketed(s)) == Rank(Bucketed(t)) && Bucketed(s).DaysAgo? ==> Bucketed(s).n <= Bucketed(t).n
  {
    BucketsAgree(s);
    BucketsAgree(t);
    assert s / 60 <= t / 60 && s / 3600 <= t / 3600 && s / 86400 <= t / 86400;
  }

  /** The text of a bucket; `localeDate` is `toLocaleDateString()`. */
  function Render(b: Bucket, localeDate: string): (r: string)
    ensures "Saved " <= r
  {
    match b
    case JustNow => "Saved just now"
    case MinutesAgo(n) => "Saved " + NatToString(n) + "m ago"
    case HoursAgo(n) => "Saved " + NatToString(n) + "h ago"
    case Yesterday => "Saved yesterday"
    case DaysAgo(n) => "Saved " + NatToString(n) + " days ago"
    case OnDate => "Saved on " + localeDate
  }

  /** `formatRelativeTime`. An unparseable date fails every comparison
      against NaN and falls through to the date rendering. */
  function FormatRelativeTime(input: DateInput, nowMillis: int, localeDate: string): (r: string)
    ensures input.Falsy? <==> r == []
    ensures input.InvalidDate? ==> r == "Saved on " + localeDate
    ensures input.At? ==> var s := ElapsedSeconds(nowMillis, input.millis);
      && (s < 60 ==> r == "Saved just now")
      && (60 <= s < 3600 ==> r == "Saved " + NatToString(s / 60) + "m ago")
      && (3600 <= s < 86400 ==> r == "Saved " + NatToString(s / 3600) + "h ago")
      && (86400 <= s < 172800 ==> r == "Saved yesterday")
      && (172800 <= s < 604800 ==> r == "Saved " + NatToString(s / 86400) + " days ago")
      && (604800 <= s ==> r == "Saved on " + localeDate)
  {
    match input
    case Falsy => []
    case InvalidDate => Render(OnDate, localeDate)
    case At(millis) =>
      var s := ElapsedSeconds(nowMillis, millis);
      BucketsAgree(s);
      Render(Bucketed(s), localeDate)
  }

  /** A time in the future reads as just now. */
  lemma FutureIsJustNow(nowMillis: int, millis: int, localeDate: string)
    requires millis > nowMillis
    ensures FormatRelativeTime(At(millis), nowMillis, localeDate) == "Saved just now"
  {
  }
}
