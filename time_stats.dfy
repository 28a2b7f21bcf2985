/**
 * The statistics cards of the dashboard: total hours, days worked, average hours per
 * day, projects, earnings, and whether the total is above or below the hours the
 * selected billing period expects.
 */
module TimeStats {
  import opened JsValues
  import opened Entries
  import Grouping
  import Decimals
  import Text

  const MsPerDay: int := 86400000

  /**
   * The UTC calendar day of an instant, as a day count since the epoch. Two instants give
   * the same `toISOString().split('T')[0]` exactly when they fall on the same UTC day;
   * `/` rounds towards negative infinity here, as calendar days before 1970 require.
   */
  function UtcDay(ms: int): int {
    ms / MsPerDay
  }

  function EntryDay(e: Entry): int {
    UtcDay(StartMs(e))
  }

  function ProjectNameOf(e: Entry): string {
    e.projectName
  }

  /** `new Set(timeEntries.map(entry => <UTC date of entry.timeInterval.start>))`. */
  function UniqueDays(es: seq<Entry>): set<int> {
    set d | d in Grouping.MapKey(es, EntryDay)
  }

  /** `new Set(timeEntries.map(entry => entry.projectName).filter(Boolean))`. */
  function UniqueProjects(es: seq<Entry>): set<string> {
    set n | n in Grouping.MapKey(es, ProjectNameOf) && n != ""
  }

  /**
   * The profile's rates; `None` when the profile or the rate is missing. A rate of
   * zero is falsy in JavaScript and is treated like a missing one.
   */
  datatype Profile = Profile(hourlyRate: Option<real>, usdToDopRate: Option<real>)

  predicate IsSet(rate: Option<real>) {
    rate.Some? && rate.value != 0.0
  }

  /**
   * The numbers behind the six cards. The cards show `toFixed(2)` of the hours, the
   * average and the earnings (`Decimals.Fixed2`); the numbers here are exact.
   */
  datatype Stats = Stats(
    totalHours: real,
    averageHoursPerDay: real,
    totalDays: nat,
    uniqueProjects: nat,
    earningsUSD: real,
    earningsDOP: real)

  /** `profile?.hourlyRate ? totalHours * profile.hourlyRate : 0`. */
  function EarningsUsd(hours: real, p: Profile): real {
    if IsSet(p.hourlyRate) then hours * p.hourlyRate.value else 0.0
  }

  /** `profile?.usdToDopRate ? earningsUSD * profile.usdToDopRate : 0`. */
  function EarningsDop(usd: real, p: Profile): real {
    if IsSet(p.usdToDopRate) then usd * p.usdToDopRate.value else 0.0
  }

  /**
   * `calculateStats()`. `None` when the cards cannot be rendered: a non-empty list with an
   * entry that has no start makes `toISOString` throw.
   */
  function CalculateStats(es: seq<Entry>, p: Profile): (r: Option<Stats>)
    ensures r.None? <==> es != [] && !AllStarted(es)
    ensures es == [] ==> r == Some(Stats(0.0, 0.0, 0, 0, 0.0, 0.0))
    ensures r.Some? && es != [] ==>
      && r.value.totalHours == TotalDuration(es) as real / 3600000.0
      && 1 <= r.value.totalDays <= |es|
      && r.value.totalDays == |UniqueDays(es)|
      && r.value.averageHoursPerDay * r.value.totalDays as real == r.value.totalHours
      && r.value.uniqueProjects == |UniqueProjects(es)| <= |es|
    ensures r.Some? ==>
      && r.value.earningsUSD == (if IsSet(p.hourlyRate) then r.value.totalHours * p.hourlyRate.value else 0.0)
      && r.value.earningsDOP == (if IsSet(p.usdToDopRate) then r.value.earningsUSD * p.usdToDopRate.value else 0.0)
  {
    if es == [] then
      Some(Stats(0.0, 0.0, 0, 0, 0.0, 0.0))
    else if !AllStarted(es) then
      None
    else
      var totalHours := TotalDuration(es) as real / 3600000.0;
      var days := UniqueDays(es);
      DaysBounds(es);
      ProjectsBound(es);
      var usd := EarningsUsd(totalHours, p);
      Some(Stats(totalHours, totalHours / |days| as real, |days|, |UniqueProjects(es)|,
                 usd, EarningsDop(usd, p)))
  }

  /** A non-empty list has at least one day and no more days than entries. */
  lemma DaysBounds(es: seq<Entry>)
    requires es != []
    ensures 1 <= |UniqueDays(es)| <= |es|
  {
    assert EntryDay(es[0]) in UniqueDays(es);
    ElementsBound(Grouping.MapKey(es, EntryDay));
  }

  lemma ProjectsBound(es: seq<Entry>)
    ensures |UniqueProjects(es)| <= |es|
  {
    var names := Grouping.MapKey(es, ProjectNameOf);
    ElementsBound(names);
    var all := set n | n in names;
    assert UniqueProjects(es) == all - {""};
    if "" in all {
      assert |all - {""}| == |all| - 1;
    }
  }

  /** A list has at most as many distinct elements as it has elements. */
  lemma {:induction false} ElementsBound<T>(s: seq<T>)
    ensures |set x | x in s| <= |s|
  {
    if s != [] {
      var n := |s| - 1;
      ElementsBound(s[..n]);
      assert (set x | x in s) == (set x | x in s[..n]) + {s[n]} by {
        assert s == s[..n] + [s[n]];
      }
    }
  }

  /** Entries on the same UTC day count once; entries on different days count apart. */
  lemma SameDayCountsOnce(a: Entry, b: Entry)
    requires HasStart(a) && HasStart(b)
    ensures UniqueDays([a, b]) == {UtcDay(StartMs(a)), UtcDay(StartMs(b))}
    ensures |UniqueDays([a, b])| == 1 <==> UtcDay(StartMs(a)) == UtcDay(StartMs(b))
  {
    var s := UniqueDays([a, b]);
    assert Grouping.MapKey([a, b], EntryDay) == [EntryDay(a), EntryDay(b)];
    assert s == {UtcDay(StartMs(a)), UtcDay(StartMs(b))};
    if UtcDay(StartMs(a)) != UtcDay(StartMs(b)) {
      assert |s| == 2;
    }
  }

  // ---------------------------------------------------------------- target status

  /** Hours short of the target, or hours beyond it. */
  datatype Target = Below(shortfall: real) | Above(excess: real)

  /**
   * The status of the displayed total `total` (the two-decimal total read back with
   * `parseFloat`) against `expectedHours`, which is falsy when no period is selected.
   */
  function HoursStatus(total: real, expected: Option<real>): (r: Option<Target>)
    ensures r.Some? ==> IsSet(expected)
    ensures r.Some? && r.value.Below? <==> IsSet(expected) && total < expected.value
    ensures r.Some? && r.value.Above? <==> IsSet(expected) && total > expected.value
    ensures r.None? <==> !IsSet(expected) || total == expected.value
    ensures r.Some? && r.value.Below? ==> r.value.shortfall > 0.0 && total + r.value.shortfall == expected.value
    ensures r.Some? && r.value.Above? ==> r.value.excess > 0.0 && expected.value + r.value.excess == total
  {
    if IsSet(expected) then
      if total < expected.value then Some(Below(expected.value - total))
      else if total > expected.value then Some(Above(total - expected.value))
      else None
    else None
  }

  /** `hoursWarning`: the difference with two decimals, and the direction. */
  function HoursWarning(t: Target): string {
    match t
    case Below(d) => Decimals.Fixed2(d) + "h below target"
    case Above(d) => Decimals.Fixed2(d) + "h above target"
  }

  /** The total the status compares: `parseFloat(stats.totalHours)`. */
  function DisplayedTotal(s: Stats): real {
    Round2(s.totalHours)
  }

  /** Reading the card's text back gives the total rounded to hundredths. */
  lemma DisplayedTotalIsCardText(es: seq<Entry>, p: Profile)
    requires es != [] && AllStarted(es)
    requires TotalDuration(es) >= 0
    ensures var s := CalculateStats(es, p).value;
      Decimals.ParseFixed2(Decimals.Fixed2(s.totalHours)) == Some(DisplayedTotal(s))
  {
    Decimals.ParseFixed2OfFixed2(CalculateStats(es, p).value.totalHours);
  }

  /** Expecting 160 hours and logging 150 is ten hours below target. */
  lemma BelowTargetExample()
    ensures HoursStatus(150.0, Some(160.0)) == Some(Below(10.0))
    ensures HoursWarning(Below(10.0)) == "10.00h below target"
  {
    TenHoursText();
    var w := HoursWarning(Below(10.0));
    assert w == "10.00" + "h below target";
  }

  lemma TenHoursText()
    ensures Decimals.Fixed2(10.0) == "10.00"
  {
    assert Hundredths(10.0) == 1000;
    assert Text.NatStr(10) == "10" by {
      assert Text.NatStr(1) == "1";
    }
    assert Text.PadStart2(Text.NatStr(0)) == "00";
    assert Decimals.HundredthsText(1000) == "10.00";
  }
}
