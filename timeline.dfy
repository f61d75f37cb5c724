// The timeline's relative times and the contribution graph's per-day commit
// counts and shading levels. Clock readings and commit dates come in as
// parameters; the locale date shown for anything a month old or more, and the
// calendar arithmetic that picks the graph's 84 days, are not modelled.

module Timeline {
  import opened Text

  const Minute: nat := 60000
  const Hour: nat := 60 * Minute
  const Day: nat := 24 * Hour
  const Week: nat := 7 * Day

  /** What `relativeTime` shows for a commit that is `diffMs` milliseconds old. */
  datatype Ago =
    | JustNow
    | MinutesAgo(n: nat)
    | HoursAgo(n: nat)
    | DaysAgo(n: nat)
    | WeeksAgo(n: nat)
    | OnDate

  /** Flooring to minutes and then to hours is flooring to hours. */
  lemma MinutesToHours(x: int)
    ensures x / Minute / 60 == x / Hour
  {
    var q, r := x / Minute, x % Minute;
    assert x == Hour * (q / 60) + (Minute * (q % 60) + r);
  }

  /** Flooring to hours and then to days is flooring to days. */
  lemma HoursToDays(x: int)
    ensures x / Hour / 24 == x / Day
  {
    var q, r := x / Hour, x % Hour;
    assert x == Day * (q / 24) + (Hour * (q % 24) + r);
  }

  /** Flooring to days and then to weeks is flooring to weeks. */
  lemma DaysToWeeks(x: int)
    ensures x / Day / 7 == x / Week
  {
    var q, r := x / Day, x % Day;
    assert x == Week * (q / 7) + (Day * (q % 7) + r);
  }

  /**
   * `relativeTime(dateStr)` for a commit `diffMs` old: the minutes, hours and
   * days are each floored from the unit before (`Math.floor`, which for a
   * positive divisor is Dafny's `/`), and each bucket covers exactly one
   * range of ages.
   */
  function RelativeTime(diffMs: int): (a: Ago)
    ensures a == JustNow <==> diffMs < Minute
    ensures a.MinutesAgo? <==> Minute <= diffMs < Hour
    ensures a.HoursAgo? <==> Hour <= diffMs < Day
    ensures a.DaysAgo? <==> Day <= diffMs < Week
    ensures a.WeeksAgo? <==> Week <= diffMs < 30 * Day
    ensures a == OnDate <==> diffMs >= 30 * Day
    ensures a.MinutesAgo? ==> a.n == diffMs / Minute && 1 <= a.n < 60
    ensures a.HoursAgo? ==> a.n == diffMs / Hour && 1 <= a.n < 24
    ensures a.DaysAgo? ==> a.n == diffMs / Day && 1 <= a.n < 7
    ensures a.WeeksAgo? ==> a.n == diffMs / Week && 1 <= a.n <= 4
  {
    var mins := diffMs / Minute;
    if mins < 1 then JustNow
    else if mins < 60 then MinutesAgo(mins)
    else
      var hrs := mins / 60;
      assert hrs == diffMs / Hour by { MinutesToHours(diffMs); }
      if hrs < 24 then HoursAgo(hrs)
      else
        var days := hrs / 24;
        assert days == diffMs / Day by { HoursToDays(diffMs); }
        if days < 7 then DaysAgo(days)
        else if days < 30 then
          assert days / 7 == diffMs / Week by { DaysToWeeks(diffMs); }
          WeeksAgo(days / 7)
        else OnDate
  }

  /** The text shown; `None` for the locale date, which is not modelled. */
  function AgoText(a: Ago): (s: Option<string>)
    ensures s.None? <==> a == OnDate
    ensures a.MinutesAgo? ==> s.value == NatToString(a.n) + "分前"
    ensures a.HoursAgo? ==> s.value == NatToString(a.n) + "時間前"
  {
    match a
    case JustNow => Some("たった今")
    case MinutesAgo(n) => Some(NatToString(n) + "分前")
    case HoursAgo(n) => Some(NatToString(n) + "時間前")
    case DaysAgo(n) => Some(NatToString(n) + "日前")
    case WeeksAgo(n) => Some(NatToString(n) + "週間前")
    case OnDate => None
  }

  /** How coarse a bucket is, from "just now" (0) to a date (5). */
  function Coarseness(a: Ago): nat
  {
    match a
    case JustNow => 0
    case MinutesAgo(_) => 1
    case HoursAgo(_) => 2
    case DaysAgo(_) => 3
    case WeeksAgo(_) => 4
    case OnDate => 5
  }

  /** An older commit never gets a finer bucket, nor a smaller count in the same bucket. */
  lemma {:induction false} RelativeTimeMonotone(d1: int, d2: int)
    requires d1 <= d2
    ensures Coarseness(RelativeTime(d1)) <= Coarseness(RelativeTime(d2))
    ensures (Coarseness(RelativeTime(d1)) == Coarseness(RelativeTime(d2)) && RelativeTime(d1) != JustNow
             && RelativeTime(d1) != OnDate) ==> RelativeTime(d1).n <= RelativeTime(d2).n
  {
    var a1, a2 := RelativeTime(d1), RelativeTime(d2);
    if Coarseness(a1) == Coarseness(a2) {
      match a1
      case MinutesAgo(_) => assert d1 / Minute <= d2 / Minute;
      case HoursAgo(_) => assert d1 / Hour <= d2 / Hour;
      case DaysAgo(_) => assert d1 / Day <= d2 / Day;
      case WeeksAgo(_) => assert d1 / Week <= d2 / Week;
      case _ =>
    }
  }

  // ---------------------------------------------------------------------
  // The contribution graph
  // ---------------------------------------------------------------------

  /** The day a commit date belongs to: `date.substring(0, 10)`. */
  function DayOf(date: string): string
  {
    Prefix(date, 10)
  }

  function DaysOf(dates: seq<string>): (ds: seq<string>)
    ensures |ds| == |dates|
    ensures forall i :: 0 <= i < |dates| ==> ds[i] == DayOf(dates[i])
  {
    seq(|dates|, i requires 0 <= i < |dates| => DayOf(dates[i]))
  }

  /**
   * The `counts` object `renderContribGraph` fills: one key per day that
   * has a commit, mapped to the number of commits on that day.
   */
  method CountPerDay(dates: seq<string>) returns (counts: map<string, nat>)
    ensures forall d :: d in counts <==> d in multiset(DaysOf(dates))
    ensures forall d :: d in counts ==> counts[d] == multiset(DaysOf(dates))[d]
  {
    counts := map[];
    var i := 0;
    while i < |dates|
      invariant i <= |dates|
      invariant forall d :: d in counts <==> d in multiset(DaysOf(dates)[..i])
      invariant forall d :: d in counts ==> counts[d] == multiset(DaysOf(dates)[..i])[d]
    {
      var d := DayOf(dates[i]);
      assert DaysOf(dates)[..i + 1] == DaysOf(dates)[..i] + [d];
      var seen := if d in counts then counts[d] else 0;
      counts := counts[d := seen + 1];
      i := i + 1;
    }
    assert DaysOf(dates)[..i] == DaysOf(dates);
  }

  /** The shading of a day with `count` commits: 0 for none, 4 for eight or more. */
  function ContributionLevel(count: nat): (level: nat)
    ensures level <= 4
    ensures level == 0 <==> count == 0
    ensures level == 4 <==> count >= 8
  {
    if count == 0 then 0
    else if count <= 2 then 1
    else if count <= 4 then 2
    else if count <= 7 then 3
    else 4
  }

  /** More commits never give a lighter cell. */
  lemma ContributionLevelMonotone(c1: nat, c2: nat)
    requires c1 <= c2
    ensures ContributionLevel(c1) <= ContributionLevel(c2)
  {
  }

  /** The cell for `day`: `counts[key] || 0` commits, shaded. */
  function CellLevel(counts: map<string, nat>, day: string): (level: nat)
    ensures level == 0 <==> day !in counts || counts[day] == 0
  {
    ContributionLevel(if day in counts then counts[day] else 0)
  }
}
