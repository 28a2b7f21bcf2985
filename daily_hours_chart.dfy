/**
 * The bar chart of hours per day: entries are bucketed by a month-and-day day of their
 * start, each bucket keeps its hours and a detail line per entry for the tooltip, and the
 * bars are the labels in date order with the hours rounded to hundredths.
 */
module DailyHoursChart {
  import opened JsValues
  import opened Entries
  import opened Grouping
  import Sorting
  import Decimals

  /** A tooltip line's data: project, description and the entry's hours with two decimals. */
  datatype Detail = Detail(project: string, description: string, hours: string)

  /** One day of the reduce: `{ hours, details }`. */
  datatype DayHours = DayHours(day: string, hours: real, details: seq<Detail>)

  /** The bars: `labels` and the dataset's `data`. */
  datatype Chart = Chart(labels: seq<string>, data: seq<real>)

  function DetailOf(e: Entry): Detail {
    Detail(OrDefault(e.projectName, NoProject), OrDefault(e.description, "No Description"),
           Decimals.Fixed2(HoursOf(e)))
  }

  function Details(es: seq<Entry>): (ds: seq<Detail>)
    ensures |ds| == |es|
    ensures forall i :: 0 <= i < |es| ==> ds[i] == DetailOf(es[i])
  {
    seq(|es|, i requires 0 <= i < |es| => DetailOf(es[i]))
  }

  /**
   * The record the reduce holds for a bucket of entries. The bucket key is
   * `DateKey(fmt)` with `fmt` the 'MMM d' formatting, so the label has no year.
   */
  function DayOf(b: (string, seq<Entry>)): DayHours {
    DayHours(b.0, TotalHours(b.1), Details(b.1))
  }

  /** `dailyHours`, in order of each day's first entry. */
  function DailyHoursOf(es: seq<Entry>, fmt: int -> string): seq<DayHours> {
    MapView(GroupBy(es, DateKey(fmt)), DayOf)
  }

  function DayLabels(days: seq<DayHours>): (ls: seq<string>)
    ensures |ls| == |days|
    ensures forall i :: 0 <= i < |days| ==> ls[i] == days[i].day
  {
    seq(|days|, i requires 0 <= i < |days| => days[i].day)
  }

  /** `acc[date] = { hours: 0, details: [] }`. */
  function NewDay(day: string): DayHours {
    DayHours(day, 0.0, [])
  }

  /** `acc[date].hours += hours` and `acc[date].details.push(...)`. */
  function AddToDay(d: DayHours, e: Entry): DayHours {
    d.(hours := d.hours + HoursOf(e), details := d.details + [DetailOf(e)])
  }

  /** The days after one more entry, as the reduce callback leaves them. */
  function StepDays(days: seq<DayHours>, day: string, e: Entry): seq<DayHours> {
    var j := IndexOf(DayLabels(days), day);
    if j >= 0 then days[j := AddToDay(days[j], e)]
    else days + [AddToDay(NewDay(day), e)]
  }

  lemma ExtendDay(b: (string, seq<Entry>), e: Entry)
    ensures DayOf((b.0, b.1 + [e])) == AddToDay(if b.1 == [] then NewDay(b.0) else DayOf(b), e)
  {
    assert (b.1 + [e])[..|b.1|] == b.1;
    assert TotalHours(b.1 + [e]) == TotalHours(b.1) + HoursOf(e);
    assert Details(b.1 + [e]) == Details(b.1) + [DetailOf(e)];
    if b.1 == [] {
      assert TotalHours(b.1) == 0.0;
    }
  }

  lemma DayStep(es: seq<Entry>, fmt: int -> string, e: Entry)
    ensures DailyHoursOf(es + [e], fmt) == StepDays(DailyHoursOf(es, fmt), fmt(StartMs(e)), e)
  {
    var key := DateKey(fmt);
    DateKeyOf(fmt, e);
    GroupBySnoc(es, e, key);
    GroupByNonEmpty(es, key);
    InsertDays(GroupBy(es, key), fmt(StartMs(e)), e);
  }

  /** Inserting an entry into non-empty buckets is the callback's step on their day records. */
  lemma InsertDays(g: seq<(string, seq<Entry>)>, day: string, e: Entry)
    requires forall i :: 0 <= i < |g| ==> g[i].1 != []
    ensures MapView(Insert(g, day, e), DayOf) == StepDays(MapView(g, DayOf), day, e)
  {
    MapViewInsert(g, day, e, DayOf);
    assert DayLabels(MapView(g, DayOf)) == Keys(g);
    var k := IndexOf(Keys(g), day);
    if k >= 0 {
      ExtendDay(g[k], e);
    } else {
      ExtendDay((day, []), e);
      assert [] + [e] == [e];
    }
  }

  lemma DayPrefixStep(es: seq<Entry>, fmt: int -> string, i: nat)
    requires i < |es|
    ensures DailyHoursOf(es[..i + 1], fmt) == StepDays(DailyHoursOf(es[..i], fmt), fmt(StartMs(es[i])), es[i])
  {
    PrefixSnoc(es, i);
    DayStep(es[..i], fmt, es[i]);
  }

  /** The reduce callback: create the day when absent, then add the entry's hours and detail. */
  method AddToDays(days: seq<DayHours>, day: string, e: Entry) returns (days': seq<DayHours>)
    ensures days' == StepDays(days, day, e)
  {
    var j := IndexOf(DayLabels(days), day);
    days' := days;
    if j < 0 {
      days' := days' + [NewDay(day)];
      j := |days'| - 1;
    }
    days' := days'[j := AddToDay(days'[j], e)];
  }

  /** `timeEntries.reduce(callback, {})` by day. */
  method ReduceDays(es: seq<Entry>, fmt: int -> string) returns (days: seq<DayHours>)
    ensures days == DailyHoursOf(es, fmt)
  {
    days := [];
    var i := 0;
    while i < |es|
      invariant 0 <= i <= |es|
      invariant days == DailyHoursOf(es[..i], fmt)
    {
      DayPrefixStep(es, fmt, i);
      days := AddToDays(days, fmt(StartMs(es[i])), es[i]);
      i := i + 1;
    }
    WholePrefix(es);
  }

  /** The hours of a day's entries: what the bar for `day` shows before rounding. */
  function HoursOn(es: seq<Entry>, fmt: int -> string, day: string): real {
    TotalHours(Select(es, DateKey(fmt), day))
  }

  /** The chart the component hands to the bar element. */
  function ChartOf(es: seq<Entry>, fmt: int -> string, dateRank: string -> int): (c: Chart)
    ensures |c.labels| == |c.data|
  {
    var labels := Sorting.SortedKeys(es, DateKey(fmt), dateRank);
    Chart(labels, Bars(es, fmt, labels))
  }

  /** The milliseconds of a day's entries. */
  function DurationOn(es: seq<Entry>, fmt: int -> string, day: string): int {
    TotalDuration(Select(es, DateKey(fmt), day))
  }

  /**
   * The bar of each label: that day's hours rounded to hundredths, worked out on the
   * day's milliseconds (`DayBarIsRoundedHours` shows it is the rounded hours).
   */
  function Bars(es: seq<Entry>, fmt: int -> string, labels: seq<string>): (data: seq<real>)
    ensures |data| == |labels|
  {
    seq(|labels|, i requires 0 <= i < |labels| => RoundedHours(DurationOn(es, fmt, labels[i])))
  }

  /** A day's bar is the day's hours, summed as the reduce sums them, rounded to hundredths. */
  lemma DayBarIsRoundedHours(es: seq<Entry>, fmt: int -> string, day: string)
    ensures RoundedHours(DurationOn(es, fmt, day)) == Round2(HoursOn(es, fmt, day))
  {
    RoundedTotalHours(Select(es, DateKey(fmt), day));
  }

  /** `dailyHours[date].hours`: the hours of the day record with that day. */
  function LookUp(days: seq<DayHours>, day: string): real {
    var j := IndexOf(DayLabels(days), day);
    if j >= 0 then days[j].hours else 0.0
  }

  lemma LookUpDay(es: seq<Entry>, fmt: int -> string, day: string)
    ensures LookUp(DailyHoursOf(es, fmt), day) == HoursOn(es, fmt, day)
  {
    var key := DateKey(fmt);
    var g := GroupBy(es, key);
    assert DayLabels(DailyHoursOf(es, fmt)) == Keys(g);
    BucketOfGroupBy(es, key, day);
    if IndexOf(Keys(g), day) < 0 {
      assert TotalHours([]) == 0.0;
    }
  }

  /**
   * The component: the reduce, the date sort of the labels, and the rounded hours of
   * each day. Every entry needs a start, which the day formats.
   */
  method BuildChart(es: seq<Entry>, fmt: int -> string, dateRank: string -> int) returns (c: Chart)
    requires AllStarted(es)
    ensures c == ChartOf(es, fmt, dateRank)
  {
    var days := ReduceDays(es, fmt);
    DaysAreKeys(es, fmt);
    var labels := Sorting.SortBy(DayLabels(days), dateRank);
    LookedUpBars(es, fmt, labels);
    c := Chart(labels, seq(|labels|, i requires 0 <= i < |labels| => Round2(LookUp(days, labels[i]))));
  }

  /** Rounding the looked-up hours of each label gives the bars. */
  lemma LookedUpBars(es: seq<Entry>, fmt: int -> string, labels: seq<string>)
    ensures var days := DailyHoursOf(es, fmt);
      seq(|labels|, i requires 0 <= i < |labels| => Round2(LookUp(days, labels[i]))) == Bars(es, fmt, labels)
  {
    var days := DailyHoursOf(es, fmt);
    forall i | 0 <= i < |labels| ensures Round2(LookUp(days, labels[i])) == Bars(es, fmt, labels)[i] {
      LookUpDay(es, fmt, labels[i]);
      DayBarIsRoundedHours(es, fmt, labels[i]);
    }
  }

  lemma DaysAreKeys(es: seq<Entry>, fmt: int -> string)
    ensures DayLabels(DailyHoursOf(es, fmt)) == Dedup(MapKey(es, DateKey(fmt)))
  {
    GroupByKeys(es, DateKey(fmt));
    assert DayLabels(DailyHoursOf(es, fmt)) == Keys(GroupBy(es, DateKey(fmt)));
  }

  /**
   * The labels are the distinct day labels of the entries, each once and in date
   * order, and each bar is that day's hours rounded to hundredths.
   */
  lemma ChartShape(es: seq<Entry>, fmt: int -> string, dateRank: string -> int)
    ensures var c := ChartOf(es, fmt, dateRank);
      && Distinct(c.labels)
      && Sorting.SortedBy(c.labels, dateRank)
      && (forall d :: d in c.labels <==> exists i :: 0 <= i < |es| && fmt(StartMs(es[i])) == d)
      && (forall i :: 0 <= i < |c.labels| ==> c.data[i] == RoundedHours(DurationOn(es, fmt, c.labels[i])))
  {
    Sorting.SortedKeysProps(es, DateKey(fmt), dateRank);
    DateKeysOf(es, fmt);
  }

  /** No entries, no bars. */
  lemma EmptyChart(fmt: int -> string, dateRank: string -> int)
    ensures ChartOf([], fmt, dateRank) == Chart([], [])
  {
  }

  /** The day records' hours add up to the hours of all entries. */
  lemma {:induction false} DaySums(g: seq<(string, seq<Entry>)>)
    ensures RealSum(MapView(g, DayOf), (d: DayHours) => d.hours) == GroupSums(g, DurationOf) as real / 3600000.0
  {
    if g != [] {
      var n := |g| - 1;
      DaySums(g[..n]);
      assert MapView(g, DayOf)[..n] == MapView(g[..n], DayOf);
      TotalHoursIsScaledTotal(g[n].1);
    }
  }

  lemma {:induction false} DetailCounts(g: seq<(string, seq<Entry>)>)
    ensures Sum(MapView(g, DayOf), (d: DayHours) => |d.details|) == GroupSums(g, (e: Entry) => 1)
  {
    if g != [] {
      var n := |g| - 1;
      DetailCounts(g[..n]);
      assert MapView(g, DayOf)[..n] == MapView(g[..n], DayOf);
      EntryCount(g[n].1);
    }
  }

  lemma {:induction false} EntryCount(xs: seq<Entry>)
    ensures Sum(xs, (e: Entry) => 1) == |xs|
  {
    if xs != [] {
      EntryCount(xs[..|xs| - 1]);
    }
  }

  /**
   * Each entry lands in exactly one day: the days' hours sum to the total hours, and
   * there is one detail line per entry.
   */
  lemma DailyHoursConserved(es: seq<Entry>, fmt: int -> string)
    ensures RealSum(DailyHoursOf(es, fmt), (d: DayHours) => d.hours) == TotalDuration(es) as real / 3600000.0
    ensures Sum(DailyHoursOf(es, fmt), (d: DayHours) => |d.details|) == |es|
  {
    var g := GroupBy(es, DateKey(fmt));
    DaySums(g);
    DetailCounts(g);
    GroupByConserves(es, DateKey(fmt), DurationOf);
    GroupByConserves(es, DateKey(fmt), (e: Entry) => 1);
    EntryCount(es);
  }

  /** Two entries' buckets: each entry in input order when its label matches. */
  lemma SelectPair(a: Entry, b: Entry, fmt: int -> string, d: string)
    ensures Select([a, b], DateKey(fmt), d)
      == (if fmt(StartMs(a)) == d then [a] else []) + (if fmt(StartMs(b)) == d then [b] else [])
  {
    DateKeyOf(fmt, a);
    DateKeyOf(fmt, b);
    SelectOfPair(a, b, DateKey(fmt), d);
  }

  /** The labels of a chart of two entries are among, and include, their two labels. */
  lemma PairLabels(a: Entry, b: Entry, fmt: int -> string, dateRank: string -> int)
    ensures var labels := ChartOf([a, b], fmt, dateRank).labels;
      && Distinct(labels)
      && Sorting.SortedBy(labels, dateRank)
      && fmt(StartMs(a)) in labels && fmt(StartMs(b)) in labels
      && forall d :: d in labels ==> d == fmt(StartMs(a)) || d == fmt(StartMs(b))
  {
    var c := ChartOf([a, b], fmt, dateRank);
    ChartShape([a, b], fmt, dateRank);
    assert fmt(StartMs([a, b][0])) == fmt(StartMs(a));
    assert fmt(StartMs([a, b][1])) == fmt(StartMs(b));
    forall d | d in c.labels ensures d == fmt(StartMs(a)) || d == fmt(StartMs(b)) {
      var i :| 0 <= i < 2 && fmt(StartMs([a, b][i])) == d;
    }
  }

  lemma OneLabel(labels: seq<string>, x: string)
    requires Distinct(labels) && x in labels
    requires forall d :: d in labels ==> d == x
    ensures labels == [x]
  {
    DistinctWithin(labels, {x});
    assert labels[0] in labels;
  }

  lemma TwoLabels(labels: seq<string>, x: string, y: string, dateRank: string -> int)
    requires Distinct(labels) && Sorting.SortedBy(labels, dateRank)
    requires x in labels && y in labels && dateRank(x) < dateRank(y)
    requires forall d :: d in labels ==> d == x || d == y
    ensures labels == [x, y]
  {
    DistinctWithin(labels, {x, y});
    assert |labels| == 2 by {
      var i :| 0 <= i < |labels| && labels[i] == x;
      var j :| 0 <= j < |labels| && labels[j] == y;
      assert i != j;
    }
    assert labels[0] in labels && labels[1] in labels;
  }

  /** The milliseconds behind one label of a two-entry chart. */
  lemma DurationOnPair(a: Entry, b: Entry, fmt: int -> string, d: string)
    ensures DurationOn([a, b], fmt, d)
      == (if fmt(StartMs(a)) == d then a.duration else 0)
       + (if fmt(StartMs(b)) == d then b.duration else 0)
  {
    SelectPair(a, b, fmt, d);
    SumOfPair(a, b, DurationOf);
    SumOfPair(b, a, DurationOf);
    assert TotalDuration([]) == 0;
  }

  /**
   * The same month and day in two different years share one label, hence one bar
   * holding the hours of both entries.
   */
  lemma SameLabelOneBar(a: Entry, b: Entry, fmt: int -> string, dateRank: string -> int)
    requires fmt(StartMs(a)) == fmt(StartMs(b))
    ensures var d := fmt(StartMs(a));
      && ChartOf([a, b], fmt, dateRank) == Chart([d], [RoundedHours(DurationOn([a, b], fmt, d))])
      && DurationOn([a, b], fmt, d) == a.duration + b.duration
  {
    var c := ChartOf([a, b], fmt, dateRank);
    var d := fmt(StartMs(a));
    PairLabels(a, b, fmt, dateRank);
    OneLabel(c.labels, d);
    OneBar([a, b], fmt, dateRank, d);
    DurationOnPair(a, b, fmt, d);
  }

  /** A chart with a single label has a single bar: that day's rounded hours. */
  lemma OneBar(es: seq<Entry>, fmt: int -> string, dateRank: string -> int, d: string)
    requires ChartOf(es, fmt, dateRank).labels == [d]
    ensures ChartOf(es, fmt, dateRank) == Chart([d], [RoundedHours(DurationOn(es, fmt, d))])
  {
    var data := Bars(es, fmt, [d]);
    assert data == [data[0]];
  }

  /**
   * The component's test fixture: eight hours labelled "Mar 20" and six labelled
   * "Mar 21" give two bars, 8 and 6, in that order.
   */
  lemma FixtureChart(a: Entry, b: Entry, fmt: int -> string, dateRank: string -> int)
    requires a.duration == 28800000 && b.duration == 21600000
    requires fmt(StartMs(a)) == "Mar 20" && fmt(StartMs(b)) == "Mar 21"
    requires dateRank("Mar 20") < dateRank("Mar 21")
    ensures ChartOf([a, b], fmt, dateRank) == Chart(["Mar 20", "Mar 21"], [8.0, 6.0])
  {
    var c := ChartOf([a, b], fmt, dateRank);
    PairLabels(a, b, fmt, dateRank);
    TwoLabels(c.labels, "Mar 20", "Mar 21", dateRank);
    TwoBars([a, b], fmt, dateRank, "Mar 20", "Mar 21");
    assert "Mar 20" != "Mar 21" by { assert "Mar 20"[5] != "Mar 21"[5]; }
    DurationOnPair(a, b, fmt, "Mar 20");
    DurationOnPair(a, b, fmt, "Mar 21");
    FixtureHours();
  }

  lemma FixtureHours()
    ensures RoundedHours(28800000) == 8.0 && RoundedHours(21600000) == 6.0
  {
    assert HourHundredths(28800000) == 800;
    assert HourHundredths(21600000) == 600;
  }

  /** A chart with two labels has two bars: each day's rounded hours, in label order. */
  lemma TwoBars(es: seq<Entry>, fmt: int -> string, dateRank: string -> int, x: string, y: string)
    requires ChartOf(es, fmt, dateRank).labels == [x, y]
    ensures ChartOf(es, fmt, dateRank) == Chart([x, y], [RoundedHours(DurationOn(es, fmt, x)), RoundedHours(DurationOn(es, fmt, y))])
  {
    var data := Bars(es, fmt, [x, y]);
    assert data == [data[0], data[1]];
  }
}
