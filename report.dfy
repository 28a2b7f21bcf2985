/**
 * The PDF time report (`generatePDFReport` and `downloadReport`): a summary page with
 * one row per project, one table per calendar day in date order, a closing summary
 * page, and a footer on every page. Drawing is not modelled; what is modelled is the
 * content of every table and text line, the vertical placement of the day tables,
 * the page breaks between them and the page numbering.
 *
 * The report's outside world enters as parameters: `fmt` is date-fns
 * `format(new Date(ms), 'MMM d, yyyy')`, `dateRank` is `new Date(label)` in
 * milliseconds, `summaryTableEnd` and `dayTableEnd` give the `finalY` jspdf-autotable
 * reports for a table drawn from a start position with the given content (so it may
 * depend on how long cells wrap), and `clock(i)` is the formatted
 * time `format(new Date(), ...)` reads while the footer of page `i` is stamped.
 */
module Report {
  import opened JsValues
  import opened Entries
  import opened Grouping
  import Sorting
  import Text
  import Enrichment
  import Durations

  // ---------------------------------------------------------------- project groups

  /** `projectGroups[projectName]`. */
  datatype ProjectGroup = ProjectGroup(name: string, entries: seq<Entry>, totalDuration: int, color: string)

  /** `entry.projectName || 'No Project'`. */
  function ProjectKey(e: Entry): string {
    OrDefault(e.projectName, NoProject)
  }

  /** The group a bucket of entries becomes: its colour is its first entry's. */
  function ProjectGroupOf(b: (string, seq<Entry>)): ProjectGroup {
    ProjectGroup(b.0, b.1, TotalDuration(b.1),
      if b.1 == [] then DefaultColor else OrDefault(b.1[0].projectColor, DefaultColor))
  }

  /** The groups the reduce builds, in order of each project's first entry. */
  function ProjectGroupsOf(es: seq<Entry>): seq<ProjectGroup> {
    MapView(GroupBy(es, ProjectKey), ProjectGroupOf)
  }

  function GroupNames(groups: seq<ProjectGroup>): (ns: seq<string>)
    ensures |ns| == |groups|
    ensures forall i :: 0 <= i < |groups| ==> ns[i] == groups[i].name
  {
    seq(|groups|, i requires 0 <= i < |groups| => groups[i].name)
  }

  function GroupDuration(p: ProjectGroup): int {
    p.totalDuration
  }

  /** `groups[projectName] = { entries: [], totalDuration: 0, color: ... }`. */
  function NewGroup(name: string, e: Entry): ProjectGroup {
    ProjectGroup(name, [], 0, OrDefault(e.projectColor, DefaultColor))
  }

  /** `push(entry)` and `totalDuration += entry.duration`. */
  function AddEntry(p: ProjectGroup, e: Entry): ProjectGroup {
    p.(entries := p.entries + [e], totalDuration := p.totalDuration + e.duration)
  }

  lemma GroupNamesAreKeys(g: seq<(string, seq<Entry>)>)
    ensures GroupNames(MapView(g, ProjectGroupOf)) == Keys(g)
  {
  }

  /** The groups after one more entry, as the reduce callback leaves them. */
  function StepGroups(groups: seq<ProjectGroup>, e: Entry): seq<ProjectGroup> {
    var j := IndexOf(GroupNames(groups), ProjectKey(e));
    if j >= 0 then groups[j := AddEntry(groups[j], e)]
    else groups + [AddEntry(NewGroup(ProjectKey(e), e), e)]
  }

  /** One step of the project reduce, in terms of the groups built so far. */
  lemma ProjectStep(es: seq<Entry>, e: Entry)
    ensures ProjectGroupsOf(es + [e]) == StepGroups(ProjectGroupsOf(es), e)
  {
    var g := GroupBy(es, ProjectKey);
    var name := ProjectKey(e);
    GroupBySnoc(es, e, ProjectKey);
    MapViewInsert(g, name, e, ProjectGroupOf);
    GroupNamesAreKeys(g);
    var k := IndexOf(Keys(g), name);
    if k >= 0 {
      GroupByNonEmpty(es, ProjectKey);
      ExtendGroup(g[k], e);
    } else {
      ExtendGroup((name, []), e);
      assert [] + [e] == [e];
    }
  }

  lemma ExtendGroup(b: (string, seq<Entry>), e: Entry)
    ensures ProjectGroupOf((b.0, b.1 + [e]))
      == AddEntry(if b.1 == [] then NewGroup(b.0, e) else ProjectGroupOf(b), e)
  {
    SumSnoc(b.1, e, DurationOf);
    if b.1 != [] {
      assert (b.1 + [e])[0] == b.1[0];
    } else {
      assert TotalDuration([]) == 0;
    }
  }

  lemma ProjectPrefixStep(es: seq<Entry>, i: nat)
    requires i < |es|
    ensures ProjectGroupsOf(es[..i + 1]) == StepGroups(ProjectGroupsOf(es[..i]), es[i])
  {
    PrefixSnoc(es, i);
    ProjectStep(es[..i], es[i]);
  }

  /** The reduce callback: find or create the entry's group, then add the entry to it. */
  method AddToProjectGroups(groups: seq<ProjectGroup>, e: Entry) returns (groups': seq<ProjectGroup>)
    ensures groups' == StepGroups(groups, e)
  {
    var name := OrDefault(e.projectName, NoProject);
    var j := IndexOf(GroupNames(groups), name);
    groups' := groups;
    if j < 0 {
      groups' := groups' + [NewGroup(name, e)];
      j := |groups'| - 1;
    }
    groups' := groups'[j := AddEntry(groups'[j], e)];
  }

  /** `timeEntries.reduce(callback, {})` grouping by project name. */
  method GroupByProject(es: seq<Entry>) returns (groups: seq<ProjectGroup>)
    ensures groups == ProjectGroupsOf(es)
  {
    groups := [];
    var i := 0;
    while i < |es|
      invariant 0 <= i <= |es|
      invariant groups == ProjectGroupsOf(es[..i])
    {
      ProjectPrefixStep(es, i);
      groups := AddToProjectGroups(groups, es[i]);
      i := i + 1;
    }
    WholePrefix(es);
  }

  /**
   * One group per distinct project name, in order of first appearance; each holds
   * exactly the entries with that name, in input order, and the first one's colour.
   */
  lemma ProjectGroupsShape(es: seq<Entry>)
    ensures GroupNames(ProjectGroupsOf(es)) == Dedup(MapKey(es, ProjectKey))
    ensures Distinct(GroupNames(ProjectGroupsOf(es)))
    ensures forall i :: 0 <= i < |ProjectGroupsOf(es)| ==>
      var p := ProjectGroupsOf(es)[i];
      && p.entries == Select(es, ProjectKey, p.name)
      && p.entries != []
      && p.totalDuration == TotalDuration(p.entries)
      && p.color == OrDefault(p.entries[0].projectColor, DefaultColor)
  {
    var g := GroupBy(es, ProjectKey);
    GroupByKeys(es, ProjectKey);
    GroupByDistinctKeys(es, ProjectKey);
    GroupByBuckets(es, ProjectKey);
    GroupByNonEmpty(es, ProjectKey);
    assert GroupNames(ProjectGroupsOf(es)) == Keys(g);
  }

  lemma {:induction false} SumOfGroupTotals(g: seq<(string, seq<Entry>)>)
    ensures Sum(MapView(g, ProjectGroupOf), GroupDuration) == GroupSums(g, DurationOf)
  {
    if g != [] {
      SumOfGroupTotals(g[..|g| - 1]);
      assert MapView(g, ProjectGroupOf)[..|g| - 1] == MapView(g[..|g| - 1], ProjectGroupOf);
    }
  }

  /** `totalDurationMs`, summed over the groups, is the sum of all entries' durations. */
  lemma ProjectTotalsConserved(es: seq<Entry>)
    ensures Sum(ProjectGroupsOf(es), GroupDuration) == TotalDuration(es)
  {
    SumOfGroupTotals(GroupBy(es, ProjectKey));
    GroupByConserves(es, ProjectKey, DurationOf);
  }

  // ---------------------------------------------------------------- summary table

  const SummaryTop: int := 85
  const DetailsTop: int := 35

  /**
   * One summary row. The hours and the percentage are the exact quotients that
   * `toFixed(2)` and `toFixed(1)` print.
   */
  datatype SummaryRow = SummaryRow(project: string, hours: real, percentage: JsNum, duration: string)

  /** The summary table's footer row: 'Total', hours, '100%', duration. */
  datatype SummaryFooter = SummaryFooter(caption: string, hours: real, percentage: string, duration: string)

  /** Autotable's `finalY` for the summary table: its start, its body rows and its footer. */
  type SummaryTableEnd = (int, seq<SummaryRow>, SummaryFooter) -> int

  function SummaryRowOf(p: ProjectGroup, totalMs: int): SummaryRow {
    SummaryRow(
      p.name,
      p.totalDuration as real / 3600000.0,
      Percentage(p.totalDuration, totalMs),
      Durations.FormatDuration(p.totalDuration))
  }

  /** `(duration / totalDurationMs) * 100`. */
  function Percentage(duration: int, totalMs: int): JsNum {
    Scale(Divide(duration as real, totalMs as real), 100.0)
  }

  function SummaryRows(groups: seq<ProjectGroup>, totalMs: int): (rows: seq<SummaryRow>)
    ensures |rows| == |groups|
    ensures forall i :: 0 <= i < |groups| ==> rows[i] == SummaryRowOf(groups[i], totalMs)
  {
    seq(|groups|, i requires 0 <= i < |groups| => SummaryRowOf(groups[i], totalMs))
  }

  function TotalFooter(totalMs: int): SummaryFooter {
    SummaryFooter("Total", totalMs as real / 3600000.0, "100%", Durations.FormatDuration(totalMs))
  }

  function RowHours(r: SummaryRow): real {
    r.hours
  }

  function RowPercent(r: SummaryRow): real {
    PercentValue(r.percentage)
  }

  lemma SummaryRowsPrefix(groups: seq<ProjectGroup>, totalMs: int, n: nat)
    requires n <= |groups|
    ensures SummaryRows(groups, totalMs)[..n] == SummaryRows(groups[..n], totalMs)
  {
  }

  lemma {:induction false} RowHoursSum(groups: seq<ProjectGroup>, totalMs: int)
    ensures RealSum(SummaryRows(groups, totalMs), RowHours) == Sum(groups, GroupDuration) as real / 3600000.0
  {
    if groups != [] {
      var n := |groups| - 1;
      RowHoursSum(groups[..n], totalMs);
      SummaryRowsPrefix(groups, totalMs, n);
    }
  }

  /** The percentage column on its own. */
  function Percentages(groups: seq<ProjectGroup>, totalMs: int): (ps: seq<JsNum>)
    ensures |ps| == |groups|
    ensures forall i :: 0 <= i < |groups| ==> ps[i] == Percentage(groups[i].totalDuration, totalMs)
  {
    seq(|groups|, i requires 0 <= i < |groups| => Percentage(groups[i].totalDuration, totalMs))
  }

  function PercentValue(q: JsNum): real {
    if q.Finite? then q.value else 0.0
  }

  lemma PercentStep(a: real, d: real, t: real)
    requires t != 0.0
    ensures a * 100.0 / t + PercentValue(Scale(Divide(d, t), 100.0)) == (a + d) * 100.0 / t
  {
    assert Divide(d, t).value == d / t;
  }

  lemma {:induction false} PercentagesSum(groups: seq<ProjectGroup>, totalMs: int)
    requires totalMs != 0
    ensures RealSum(Percentages(groups, totalMs), PercentValue)
      == Sum(groups, GroupDuration) as real * 100.0 / totalMs as real
  {
    if groups != [] {
      var n := |groups| - 1;
      PercentagesSum(groups[..n], totalMs);
      assert Percentages(groups, totalMs)[..n] == Percentages(groups[..n], totalMs);
      PercentStep(Sum(groups[..n], GroupDuration) as real, groups[n].totalDuration as real, totalMs as real);
    }
  }

  /** Against their own total, the percentages add up to 100. */
  lemma PercentagesWhole(groups: seq<ProjectGroup>, totalMs: int)
    requires totalMs != 0 && Sum(groups, GroupDuration) == totalMs
    ensures RealSum(Percentages(groups, totalMs), PercentValue) == 100.0
  {
    PercentagesSum(groups, totalMs);
    SelfHundred(totalMs as real);
  }

  lemma SelfHundred(t: real)
    requires t != 0.0
    ensures t * 100.0 / t == 100.0
  {
  }

  lemma {:induction false} RowPercentColumn(groups: seq<ProjectGroup>, totalMs: int)
    ensures RealSum(SummaryRows(groups, totalMs), RowPercent) == RealSum(Percentages(groups, totalMs), PercentValue)
  {
    if groups != [] {
      var n := |groups| - 1;
      RowPercentColumn(groups[..n], totalMs);
      SummaryRowsPrefix(groups, totalMs, n);
      assert Percentages(groups, totalMs)[..n] == Percentages(groups[..n], totalMs);
    }
  }

  /** The hours column adds up to the footer's total hours. */
  lemma SummaryHoursAddUp(es: seq<Entry>)
    ensures RealSum(SummaryRows(ProjectGroupsOf(es), TotalDuration(es)), RowHours)
      == TotalFooter(TotalDuration(es)).hours
  {
    RowHoursSum(ProjectGroupsOf(es), TotalDuration(es));
    ProjectTotalsConserved(es);
  }

  /**
   * When the total is not zero every percentage is a number and the column adds up to
   * the footer's 100%; when it is zero every percentage is NaN or an infinity.
   */
  lemma SummaryPercentagesAddUp(es: seq<Entry>)
    ensures var rows := SummaryRows(ProjectGroupsOf(es), TotalDuration(es));
      && (TotalDuration(es) != 0 ==>
            (forall i :: 0 <= i < |rows| ==> rows[i].percentage.Finite?)
            && RealSum(rows, RowPercent) == 100.0)
      && (TotalDuration(es) == 0 ==> forall i :: 0 <= i < |rows| ==> !rows[i].percentage.Finite?)
  {
    var total := TotalDuration(es);
    ProjectTotalsConserved(es);
    if total != 0 {
      RowPercentColumn(ProjectGroupsOf(es), total);
      PercentagesWhole(ProjectGroupsOf(es), total);
    }
  }

  // ---------------------------------------------------------------- day tables

  /** The entries of one day, in input order (`entriesByDate[date]`). */
  function DayEntries(es: seq<Entry>, fmt: int -> string, date: string): seq<Entry> {
    Select(es, DateKey(fmt), date)
  }

  /** `Object.keys(entriesByDate).sort(...)`: each day once, in date order. */
  function SortedDates(es: seq<Entry>, fmt: int -> string, dateRank: string -> int): seq<string> {
    Sorting.SortedKeys(es, DateKey(fmt), dateRank)
  }



  /** The date reduce's callback: `(acc[date] ||= []).push(entry)`. */
  method AddToDateBuckets(acc: seq<(string, seq<Entry>)>, date: string, e: Entry)
    returns (acc': seq<(string, seq<Entry>)>)
    ensures acc' == Insert(acc, date, e)
  {
    var j := IndexOf(Keys(acc), date);
    acc' := acc;
    if j < 0 {
      acc' := acc' + [(date, [])];
      j := |acc'| - 1;
      assert [] + [e] == [e];
    }
    acc' := acc'[j := (date, acc'[j].1 + [e])];
  }

  lemma DatePrefixStep(es: seq<Entry>, i: nat, fmt: int -> string)
    requires i < |es|
    ensures GroupBy(es[..i + 1], DateKey(fmt))
      == Insert(GroupBy(es[..i], DateKey(fmt)), fmt(StartMs(es[i])), es[i])
  {
    PrefixSnoc(es, i);
    GroupBySnoc(es[..i], es[i], DateKey(fmt));
    DateKeyOf(fmt, es[i]);
  }

  /**
   * The date reduce. It stops at the first entry without a start, with what reading
   * or formatting that start throws.
   */
  method GroupByDate(es: seq<Entry>, fmt: int -> string) returns (r: Result<seq<(string, seq<Entry>)>>)
    ensures r.Failure? <==> !AllStarted(es)
    ensures r.Failure? ==> exists k :: FirstUnstarted(es, k) && r.error == StartError(es[k])
    ensures r.Success? ==> r.value == GroupBy(es, DateKey(fmt))
  {
    var acc: seq<(string, seq<Entry>)> := [];
    var i := 0;
    while i < |es|
      invariant 0 <= i <= |es|
      invariant StartedBefore(es, i)
      invariant acc == GroupBy(es[..i], DateKey(fmt))
    {
      if !HasStart(es[i]) {
        return Failure(StartError(es[i]));
      }
      var date := fmt(es[i].interval.value.start.value);
      StartedBeforeStep(es, i);
      DatePrefixStep(es, i, fmt);
      acc := AddToDateBuckets(acc, date, es[i]);
      i := i + 1;
    }
    WholePrefix(es);
    StartedBeforeAll(es);
    return Success(acc);
  }

  /** One detail row: project, description (defaulted), duration. */
  datatype DetailRow = DetailRow(project: string, description: string, duration: string)

  function DetailRowOf(e: Entry): DetailRow {
    DetailRow(e.projectName, OrDefault(e.description, "No description"), Durations.FormatDuration(e.duration))
  }

  function DetailRows(es: seq<Entry>): (rows: seq<DetailRow>)
    ensures |rows| == |es|
    ensures forall i :: 0 <= i < |es| ==> rows[i] == DetailRowOf(es[i])
  {
    seq(|es|, i requires 0 <= i < |es| => DetailRowOf(es[i]))
  }

  /**
   * One day's table and where it was drawn. Its footer cell, 'Daily Total', shows
   * `DailyTotalCell`.
   */
  datatype DayTable = DayTable(
    date: string,
    rows: seq<DetailRow>,
    dailyTotalMs: int,
    startY: int,
    newPage: bool,
    finalY: int)

  /**
   * Autotable's `finalY` for a day table: its start, then the date heading, the body
   * rows and the daily total it draws.
   */
  type DayTableEnd = (int, string, seq<DetailRow>, int) -> int

  /** The table ends where autotable puts the end of its content. */
  predicate EndsAsDrawn(t: DayTable, dayTableEnd: DayTableEnd) {
    t.finalY == dayTableEnd(t.startY, t.date, t.rows, t.dailyTotalMs)
  }

  /** `formatDuration(dailyTotal)`. */
  function DailyTotalCell(t: DayTable): string {
    Durations.FormatDuration(t.dailyTotalMs)
  }

  /** `finalY || yPos`: a final position of 0 is falsy. */
  function OrY(finalY: int, yPos: int): int {
    if finalY != 0 then finalY else yPos
  }

  /** How a day table is placed after the previous one. */
  predicate PlacedAfter(prev: DayTable, t: DayTable) {
    && (t.newPage <==> prev.finalY > 220)
    && (t.newPage ==> t.startY == 20)
    && (!t.newPage ==> t.startY == OrY(prev.finalY, prev.startY) + 15)
  }

  /**
   * The layout rules: every table ends where autotable says; the first follows the
   * summary table on the details page; each later one starts a new page exactly when
   * the previous one ended below y = 220.
   */
  predicate LaidOut(tables: seq<DayTable>, summaryEnd: int, dayTableEnd: DayTableEnd) {
    && (forall i :: 0 <= i < |tables| ==> EndsAsDrawn(tables[i], dayTableEnd))
    && (|tables| > 0 ==> !tables[0].newPage && tables[0].startY == OrY(summaryEnd, DetailsTop) + 15)
    && (forall i :: 0 < i < |tables| ==> PlacedAfter(tables[i - 1], tables[i]))
  }

  /** A table shows the entries of its date and their daily total. */
  predicate ShowsDay(t: DayTable, date: string, entries: seq<Entry>) {
    && t.date == date
    && t.rows == DetailRows(entries)
    && t.dailyTotalMs == TotalDuration(entries)
  }

  /** A table shows the entries filed under its date (`entriesByDate[date]`). */
  predicate DayOf(t: DayTable, date: string, byDate: seq<(string, seq<Entry>)>) {
    ShowsDay(t, date, Bucket(byDate, date))
  }

  predicate DaysShown(tables: seq<DayTable>, dates: seq<string>, byDate: seq<(string, seq<Entry>)>)
    requires |tables| <= |dates|
  {
    forall j :: 0 <= j < |tables| ==> DayOf(tables[j], dates[j], byDate)
  }

  lemma DaysSnoc(tables: seq<DayTable>, t: DayTable, dates: seq<string>, byDate: seq<(string, seq<Entry>)>)
    requires |tables| < |dates|
    requires DaysShown(tables, dates, byDate)
    requires ShowsDay(t, dates[|tables|], Bucket(byDate, dates[|tables|]))
    ensures DaysShown(tables + [t], dates, byDate)
  {
    var ts := tables + [t];
    forall j | 0 <= j < |ts| ensures DayOf(ts[j], dates[j], byDate) {
      if j < |tables| {
        assert ts[j] == tables[j];
      }
    }
  }

  /** Appending a table placed by the rules keeps the layout rules. */
  lemma LaidOutSnoc(tables: seq<DayTable>, t: DayTable, summaryEnd: int, dayTableEnd: DayTableEnd)
    requires LaidOut(tables, summaryEnd, dayTableEnd)
    requires EndsAsDrawn(t, dayTableEnd)
    requires tables == [] ==> !t.newPage && t.startY == OrY(summaryEnd, DetailsTop) + 15
    requires tables != [] ==> PlacedAfter(tables[|tables| - 1], t)
    ensures LaidOut(tables + [t], summaryEnd, dayTableEnd)
  {
    var ts := tables + [t];
    forall i | 0 < i < |ts| ensures PlacedAfter(ts[i - 1], ts[i]) {
      if i < |tables| {
        assert ts[i - 1] == tables[i - 1] && ts[i] == tables[i];
      }
    }
  }

  /**
   * The `forEach` callback for one day: break the page when a previous table ended
   * below y = 220, otherwise continue 15 below the last table (or the current `yPos`).
   */
  method DrawDay(index: nat, date: string, entries: seq<Entry>, lastEnd: int, yPos: int,
                 dayTableEnd: DayTableEnd)
    returns (t: DayTable)
    ensures ShowsDay(t, date, entries)
    ensures t.newPage <==> index > 0 && lastEnd > 220
    ensures t.newPage ==> t.startY == 20
    ensures !t.newPage ==> t.startY == OrY(lastEnd, yPos) + 15
    ensures EndsAsDrawn(t, dayTableEnd)
  {
    var dailyTotal := TotalDuration(entries);
    var newPage := false;
    var y := yPos;
    if index > 0 && lastEnd > 220 {
      newPage := true;
      y := 20;
    } else {
      y := OrY(lastEnd, yPos) + 15;
    }
    var rows := DetailRows(entries);
    t := DayTable(date, rows, dailyTotal, y, newPage, dayTableEnd(y, date, rows, dailyTotal));
  }

  /** The `sortedDates.forEach` loop. */
  method LayOutDays(dates: seq<string>, byDate: seq<(string, seq<Entry>)>, summaryEnd: int,
                    dayTableEnd: DayTableEnd)
    returns (tables: seq<DayTable>)
    ensures |tables| == |dates|
    ensures forall i :: 0 <= i < |dates| ==> DayOf(tables[i], dates[i], byDate)
    ensures LaidOut(tables, summaryEnd, dayTableEnd)
  {
    tables := [];
    var lastEnd := summaryEnd;
    var yPos := DetailsTop;
    var i := 0;
    while i < |dates|
      invariant 0 <= i <= |dates| && |tables| == i
      invariant DaysShown(tables, dates, byDate)
      invariant LaidOut(tables, summaryEnd, dayTableEnd)
      invariant i == 0 ==> lastEnd == summaryEnd && yPos == DetailsTop
      invariant i > 0 ==> lastEnd == tables[i - 1].finalY && yPos == tables[i - 1].startY
    {
      var t := DrawDay(i, dates[i], Bucket(byDate, dates[i]), lastEnd, yPos, dayTableEnd);
      DaysSnoc(tables, t, dates, byDate);
      LaidOutSnoc(tables, t, summaryEnd, dayTableEnd);
      tables := tables + [t];
      lastEnd := t.finalY;
      yPos := t.startY;
      i := i + 1;
    }
  }

  /** The number of explicit page breaks among the day tables. */
  function Breaks(tables: seq<DayTable>): (n: nat)
    ensures n <= |tables|
  {
    if tables == [] then 0
    else Breaks(tables[..|tables| - 1]) + (if tables[|tables| - 1].newPage then 1 else 0)
  }

  /** The number of tables that end below y = 220. */
  function LowEnds(tables: seq<DayTable>): (n: nat)
    ensures n <= |tables|
  {
    if tables == [] then 0
    else LowEnds(tables[..|tables| - 1]) + (if tables[|tables| - 1].finalY > 220 then 1 else 0)
  }

  /**
   * The page breaks are exactly the tables, other than the last, that end below
   * y = 220; the first day table never breaks the page.
   */
  lemma {:induction false} BreaksCounted(tables: seq<DayTable>, summaryEnd: int, dayTableEnd: DayTableEnd)
    requires LaidOut(tables, summaryEnd, dayTableEnd)
    ensures tables != [] ==> Breaks(tables) == LowEnds(tables[..|tables| - 1])
  {
    if |tables| > 1 {
      var n := |tables| - 1;
      var init := tables[..n];
      assert LaidOut(init, summaryEnd, dayTableEnd);
      BreaksCounted(init, summaryEnd, dayTableEnd);
      assert init[..n - 1] == tables[..n - 1];
      assert PlacedAfter(tables[n - 1], tables[n]);
    }
  }

  /** Each day once, in date order; a day is listed exactly when some entry falls on it. */
  lemma SortedDatesProps(es: seq<Entry>, fmt: int -> string, dateRank: string -> int)
    ensures Distinct(SortedDates(es, fmt, dateRank))
    ensures Sorting.SortedBy(SortedDates(es, fmt, dateRank), dateRank)
    ensures forall d :: d in SortedDates(es, fmt, dateRank) <==>
      exists i :: 0 <= i < |es| && fmt(StartMs(es[i])) == d
  {
    var ds := SortedDates(es, fmt, dateRank);
    var ks := MapKey(es, DateKey(fmt));
    assert ds == Sorting.SortedKeys(es, DateKey(fmt), dateRank);
    Sorting.SortedKeysProps(es, DateKey(fmt), dateRank);
    DateKeysOf(es, fmt);
    forall d ensures d in ds <==> exists i :: 0 <= i < |es| && fmt(StartMs(es[i])) == d {
      assert d in ds <==> d in ks;
    }
  }



  /**
   * The day tables of the report: one per date of `dates`, in that order, each showing
   * that day's entries in input order and their total.
   */
  predicate ShowsDays(tables: seq<DayTable>, es: seq<Entry>, fmt: int -> string, dates: seq<string>) {
    && |tables| == |dates|
    && forall i :: 0 <= i < |dates| ==> ShowsDay(tables[i], dates[i], DayEntries(es, fmt, dates[i]))
  }

  lemma DaysFromBuckets(tables: seq<DayTable>, dates: seq<string>, es: seq<Entry>, fmt: int -> string)
    requires |tables| == |dates|
    requires DaysShown(tables, dates, GroupBy(es, DateKey(fmt)))
    ensures ShowsDays(tables, es, fmt, dates)
  {
    forall i | 0 <= i < |dates| ensures ShowsDay(tables[i], dates[i], DayEntries(es, fmt, dates[i])) {
      assert DayOf(tables[i], dates[i], GroupBy(es, DateKey(fmt)));
      BucketOfGroupBy(es, DateKey(fmt), dates[i]);
    }
  }

  /** A day's total: `entries.reduce((sum, entry) => sum + entry.duration, 0)`. */
  function DayTotals(es: seq<Entry>, fmt: int -> string): string -> int {
    d => TotalDuration(DayEntries(es, fmt, d))
  }

  lemma DayTotalsOf(es: seq<Entry>, fmt: int -> string, d: string)
    ensures DayTotals(es, fmt)(d) == TotalDuration(DayEntries(es, fmt, d))
  {
    var total := DayTotals(es, fmt);
    assert total(d) == TotalDuration(DayEntries(es, fmt, d));
  }

  function TableTotal(t: DayTable): int {
    t.dailyTotalMs
  }

  lemma {:induction false} TableTotals(tables: seq<DayTable>, es: seq<Entry>, fmt: int -> string, dates: seq<string>)
    requires ShowsDays(tables, es, fmt, dates)
    ensures Sum(tables, TableTotal) == Sum(dates, DayTotals(es, fmt))
  {
    if tables != [] {
      var n := |tables| - 1;
      assert ShowsDays(tables[..n], es, fmt, dates[..n]) by {
        forall i | 0 <= i < n ensures ShowsDay(tables[..n][i], dates[..n][i], DayEntries(es, fmt, dates[..n][i])) {
          assert tables[..n][i] == tables[i] && dates[..n][i] == dates[i];
        }
      }
      TableTotals(tables[..n], es, fmt, dates[..n]);
      DayTotalsOf(es, fmt, dates[n]);
      assert ShowsDay(tables[n], dates[n], DayEntries(es, fmt, dates[n]));
    }
  }

  /** The daily totals of the day tables add up to the report's total. */
  lemma DailyTotalsConserved(tables: seq<DayTable>, es: seq<Entry>, fmt: int -> string, dateRank: string -> int)
    requires ShowsDays(tables, es, fmt, SortedDates(es, fmt, dateRank))
    ensures Sum(tables, TableTotal) == TotalDuration(es)
  {
    var key := DateKey(fmt);
    var g := GroupBy(es, key);
    GroupByBuckets(es, key);
    forall i | 0 <= i < |g| ensures DayTotals(es, fmt)(g[i].0) == Sum(g[i].1, DurationOf) {
      DayTotalsOf(es, fmt, g[i].0);
    }
    GroupSumsByKey(g, DurationOf, DayTotals(es, fmt));
    GroupByConserves(es, key, DurationOf);
    GroupByKeys(es, key);
    SumPermutation(Keys(g), SortedDates(es, fmt, dateRank), DayTotals(es, fmt));
    TableTotals(tables, es, fmt, SortedDates(es, fmt, dateRank));
  }

  // ---------------------------------------------------------------- closing page, footers

  /** `Page i of N` and the other two footer texts. */
  datatype PageFooter = PageFooter(left: string, center: string, right: string)

  const AppCredit: string := "Generated by Hourglass - Time Tracking Analytics"

  function FooterOf(page: nat, pageCount: nat, now: string): PageFooter {
    PageFooter(AppCredit, "Generated on " + now,
      "Page " + Text.NatStr(page) + " of " + Text.NatStr(pageCount))
  }

  /** The footer loop over pages 1..pageCount; the clock is read again on every page. */
  method StampFooters(pageCount: nat, clock: nat -> string) returns (footers: seq<PageFooter>)
    ensures |footers| == pageCount
    ensures forall i :: 0 <= i < pageCount ==> footers[i] == FooterOf(i + 1, pageCount, clock(i + 1))
  {
    footers := [];
    var i := 1;
    while i <= pageCount
      invariant 1 <= i <= pageCount + 1
      invariant |footers| == i - 1
      invariant forall j :: 0 <= j < i - 1 ==> footers[j] == FooterOf(j + 1, pageCount, clock(j + 1))
    {
      var now := clock(i);
      footers := footers + [FooterOf(i, pageCount, now)];
      i := i + 1;
    }
  }

  lemma DigitsBeforeSpace(a: string, ra: string, b: string, rb: string)
    requires Text.AllDigits(a) && Text.AllDigits(b)
    requires ra != [] && ra[0] == ' ' && rb != [] && rb[0] == ' '
    requires a + ra == b + rb
    ensures a == b
  {
    if |a| < |b| {
      SpaceAt(a, ra);
      assert false;
    } else if |b| < |a| {
      SpaceAt(b, rb);
      assert false;
    }
    assert a == (a + ra)[..|a|] && b == (b + rb)[..|b|];
  }

  lemma SpaceAt(a: string, ra: string)
    ensures ra != [] ==> (a + ra)[|a|] == ra[0]
  {
  }

  /** Different pages carry different page labels. */
  lemma PageLabelsDistinct(p: nat, q: nat, pageCount: nat, now: string)
    requires p != q
    ensures FooterOf(p, pageCount, now).right != FooterOf(q, pageCount, now).right
  {
    var tail := " of " + Text.NatStr(pageCount);
    if FooterOf(p, pageCount, now).right == FooterOf(q, pageCount, now).right {
      var s := FooterOf(p, pageCount, now).right;
      assert s == "Page " + (Text.NatStr(p) + tail);
      assert s == "Page " + (Text.NatStr(q) + tail);
      assert Text.NatStr(p) + tail == s[5..] == Text.NatStr(q) + tail;
      DigitsBeforeSpace(Text.NatStr(p), tail, Text.NatStr(q), tail);
      Text.NatStrInjective(p, q);
    }
  }

  // ---------------------------------------------------------------- the whole report

  /** Everything the generated document says. */
  datatype PdfReport = PdfReport(
    periodLine: string,
    userLine: string,
    summaryRows: seq<SummaryRow>,
    summaryFooter: SummaryFooter,
    summaryEnd: int,
    dayTables: seq<DayTable>,
    totalTimeText: string,
    totalHours: real,
    averageHoursPerDay: JsNum,
    totalDays: nat,
    projectCount: nat,
    pageCount: nat,
    footers: seq<PageFooter>)

  /**
   * Everything a generated report says about `es`: the heading lines, the summary
   * table, the day tables and their placement, the closing figures and the footers.
   */
  ghost predicate Describes(rep: PdfReport, es: seq<Entry>, userName: string, periodName: string,
                            fmt: int -> string, dateRank: string -> int,
                            summaryTableEnd: SummaryTableEnd, dayTableEnd: DayTableEnd,
                            clock: nat -> string)
  {
    var total := TotalDuration(es);
    var dates := SortedDates(es, fmt, dateRank);
    && rep.periodLine == "Period: " + periodName
    && rep.userLine == "User: " + userName
    && rep.summaryRows == SummaryRows(ProjectGroupsOf(es), total)
    && rep.summaryFooter == TotalFooter(total)
    && rep.summaryEnd == summaryTableEnd(SummaryTop, rep.summaryRows, rep.summaryFooter)
    && ShowsDays(rep.dayTables, es, fmt, dates)
    && LaidOut(rep.dayTables, rep.summaryEnd, dayTableEnd)
    && rep.totalTimeText == "Total Time: " + Durations.FormatDuration(total)
    && rep.totalHours == total as real / 3600000.0
    && rep.totalDays == |dates|
    && rep.averageHoursPerDay == Divide(total as real, (rep.totalDays * 3600000) as real)
    && rep.projectCount == |Dedup(MapKey(es, ProjectKey))|
    && rep.pageCount == 3 + Breaks(rep.dayTables)
    && |rep.footers| == rep.pageCount
    && (forall i :: 0 <= i < rep.pageCount ==> rep.footers[i] == FooterOf(i + 1, rep.pageCount, clock(i + 1)))
  }

  /**
   * `generatePDFReport`: it throws at the date reduce on the first entry without a
   * start, and otherwise produces the report `Describes` states.
   */
  method GeneratePdfReport(es: seq<Entry>, userName: string, periodName: string,
                           fmt: int -> string, dateRank: string -> int,
                           summaryTableEnd: SummaryTableEnd, dayTableEnd: DayTableEnd,
                           clock: nat -> string)
    returns (r: Result<PdfReport>)
    ensures r.Failure? <==> !AllStarted(es)
    ensures r.Failure? ==> exists k :: FirstUnstarted(es, k) && r.error == StartError(es[k])
    ensures r.Success? ==>
      Describes(r.value, es, userName, periodName, fmt, dateRank, summaryTableEnd, dayTableEnd, clock)
  {
    var groups := GroupByProject(es);
    var totalMs := Sum(groups, GroupDuration);
    ProjectTotalsConserved(es);
    ProjectGroupsShape(es);
    var summaryRows := SummaryRows(groups, totalMs);
    var summaryFooter := TotalFooter(totalMs);
    var summaryEnd := summaryTableEnd(SummaryTop, summaryRows, summaryFooter);
    var byDate := GroupByDate(es, fmt);
    if byDate.Failure? {
      return Failure(byDate.error);
    }
    var sortedDates := Sorting.SortBy(Keys(byDate.value), dateRank);
    GroupByKeys(es, DateKey(fmt));
    var tables := LayOutDays(sortedDates, byDate.value, summaryEnd, dayTableEnd);
    DaysFromBuckets(tables, sortedDates, es, fmt);
    var totalDays := |sortedDates|;
    var average := Divide(totalMs as real, (totalDays * 3600000) as real);
    var pageCount := 3 + Breaks(tables);
    var footers := StampFooters(pageCount, clock);
    r := Success(PdfReport(
      "Period: " + periodName,
      "User: " + userName,
      summaryRows,
      summaryFooter,
      summaryEnd,
      tables,
      "Total Time: " + Durations.FormatDuration(totalMs),
      totalMs as real / 3600000.0,
      average,
      totalDays,
      |groups|,
      pageCount,
      footers));
  }

  /** The average is NaN exactly when there are no entries (0 / 0); otherwise a number. */
  lemma AverageNaNOnlyWhenEmpty(es: seq<Entry>, fmt: int -> string, dateRank: string -> int)
    ensures var days := |SortedDates(es, fmt, dateRank)|;
      var avg := Divide(TotalDuration(es) as real, (days * 3600000) as real);
      && (avg.NaN? <==> es == [])
      && (es != [] ==> 1 <= days <= |es| && avg.Finite?)
  {
    var ks := MapKey(es, DateKey(fmt));
    DedupProps(ks);
    SortedDatesProps(es, fmt, dateRank);
    if es != [] {
      assert ks[0] in Dedup(ks);
      DedupLength(ks);
    }
  }

  lemma {:induction false} DedupLength<K>(ks: seq<K>)
    ensures |Dedup(ks)| <= |ks|
  {
    if ks != [] {
      DedupLength(ks[..|ks| - 1]);
    }
  }

  // ---------------------------------------------------------------- download

  /** `Clockify_Report_${user}_${period}.pdf`, whitespace removed from both names. */
  function ReportFileName(userName: string, periodName: string): string {
    "Clockify_Report_" + Text.StripWhitespace(userName) + "_" + Text.StripWhitespace(periodName) + ".pdf"
  }

  /** The file name never contains whitespace, whatever the user and period names. */
  lemma ReportFileNameHasNoWhitespace(userName: string, periodName: string)
    ensures forall i :: 0 <= i < |ReportFileName(userName, periodName)| ==>
      !Text.IsJsWhitespace(ReportFileName(userName, periodName)[i])
  {
    var head := "Clockify_Report_";
    var u := Text.StripWhitespace(userName);
    var p := Text.StripWhitespace(periodName);
    FileNameLiterals();
    Text.NoWhitespaceAppend(head, u);
    Text.NoWhitespaceAppend(head + u, "_");
    Text.NoWhitespaceAppend(head + u + "_", p);
    Text.NoWhitespaceAppend(head + u + "_" + p, ".pdf");
  }

  lemma FileNameLiterals()
    ensures Text.NoWhitespace("Clockify_Report_") && Text.NoWhitespace("_") && Text.NoWhitespace(".pdf")
  {
    var head := "Clockify_Report_";
    forall i | 0 <= i < |head| ensures !Text.IsJsWhitespace(head[i]) {
      assert head[i] in "Clockify_Report";
    }
  }

  /**
   * `downloadReport`: fetch and enrich the entries (the fetched lists are parameters),
   * generate the report, and name the file; any failure is reported with one message.
   */
  method DownloadReport(projects: seq<Enrichment.Project>, raws: seq<Enrichment.RawEntry>,
                        userName: string, periodName: string,
                        fmt: int -> string, dateRank: string -> int,
                        summaryTableEnd: SummaryTableEnd, dayTableEnd: DayTableEnd,
                        clock: nat -> string)
    returns (r: Result<(string, PdfReport)>)
    ensures r.Failure? <==>
      exists i :: 0 <= i < |raws| && !(raws[i].interval.Some? && raws[i].interval.value.start.Some?)
    ensures r.Failure? ==> r.error == "Failed to generate time tracking report"
    ensures r.Success? ==> r.value.0 == ReportFileName(userName, periodName)
    ensures r.Success? ==> Describes(r.value.1, Enrichment.EnrichAll(raws, Enrichment.Directory(projects)),
                                     userName, periodName, fmt, dateRank, summaryTableEnd, dayTableEnd, clock)
  {
    var entries := Enrichment.GetTimeEntries(projects, raws);
    var report := GeneratePdfReport(entries, userName, periodName, fmt, dateRank,
                                    summaryTableEnd, dayTableEnd, clock);
    if report.Failure? {
      return Failure("Failed to generate time tracking report");
    }
    r := Success((ReportFileName(userName, periodName), report.value));
  }
}
