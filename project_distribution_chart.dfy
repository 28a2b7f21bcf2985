/**
 * The dashboard's pie chart of time per project (`ProjectDistributionChart`): the
 * entries are reduced to one total per project name, which becomes a slice with the
 * project's hours rounded to hundredths and its colour; the legend and the tooltip
 * show each slice's share of the sum of the slices.
 *
 * The grouping key is the one the PDF report uses, `Report.ProjectKey`
 * (`projectName || 'No Project'`).
 */
module ProjectDistributionChart {
  import opened JsValues
  import opened Entries
  import opened Grouping
  import Report
  import Decimals

  // ---------------------------------------------------------------- the reduce

  /** `groups[projectName]`: the running total and the colour of one project. */
  datatype ProjectTotal = ProjectTotal(name: string, totalDuration: int, color: string)

  /** The total a bucket of entries becomes: its colour is its first entry's. */
  function TotalOf(b: (string, seq<Entry>)): ProjectTotal {
    ProjectTotal(b.0, TotalDuration(b.1),
      if b.1 == [] then DefaultColor else OrDefault(b.1[0].projectColor, DefaultColor))
  }

  /** The totals the reduce builds, in order of each project's first entry. */
  function ProjectTotalsOf(es: seq<Entry>): seq<ProjectTotal> {
    MapView(GroupBy(es, Report.ProjectKey), TotalOf)
  }

  function TotalNames(totals: seq<ProjectTotal>): (ns: seq<string>)
    ensures |ns| == |totals|
    ensures forall i :: 0 <= i < |totals| ==> ns[i] == totals[i].name
  {
    seq(|totals|, i requires 0 <= i < |totals| => totals[i].name)
  }

  function TotalDurationOf(p: ProjectTotal): int {
    p.totalDuration
  }

  /** `groups[projectName] = { totalDuration: 0, color: entry.projectColor || '#666666' }`. */
  function NewTotal(name: string, e: Entry): ProjectTotal {
    ProjectTotal(name, 0, OrDefault(e.projectColor, DefaultColor))
  }

  /** `groups[projectName].totalDuration += entry.duration`. */
  function AddDuration(p: ProjectTotal, e: Entry): ProjectTotal {
    p.(totalDuration := p.totalDuration + e.duration)
  }

  /** The totals after one more entry, as the reduce callback leaves them. */
  function StepTotals(totals: seq<ProjectTotal>, e: Entry): seq<ProjectTotal> {
    var j := IndexOf(TotalNames(totals), Report.ProjectKey(e));
    if j >= 0 then totals[j := AddDuration(totals[j], e)]
    else totals + [AddDuration(NewTotal(Report.ProjectKey(e), e), e)]
  }

  lemma TotalNamesAreKeys(g: seq<(string, seq<Entry>)>)
    ensures TotalNames(MapView(g, TotalOf)) == Keys(g)
  {
  }

  lemma ExtendTotal(b: (string, seq<Entry>), e: Entry)
    ensures TotalOf((b.0, b.1 + [e]))
      == AddDuration(if b.1 == [] then NewTotal(b.0, e) else TotalOf(b), e)
  {
    SumSnoc(b.1, e, DurationOf);
    if b.1 != [] {
      assert (b.1 + [e])[0] == b.1[0];
    } else {
      assert TotalDuration([]) == 0;
    }
  }

  /** One step of the reduce, in terms of the totals built so far. */
  lemma TotalsStep(es: seq<Entry>, e: Entry)
    ensures ProjectTotalsOf(es + [e]) == StepTotals(ProjectTotalsOf(es), e)
  {
    GroupBySnoc(es, e, Report.ProjectKey);
    GroupByNonEmpty(es, Report.ProjectKey);
    InsertTotals(GroupBy(es, Report.ProjectKey), e);
  }

  /** Inserting an entry into non-empty buckets is the callback's step on their totals. */
  lemma InsertTotals(g: seq<(string, seq<Entry>)>, e: Entry)
    requires forall i :: 0 <= i < |g| ==> g[i].1 != []
    ensures MapView(Insert(g, Report.ProjectKey(e), e), TotalOf) == StepTotals(MapView(g, TotalOf), e)
  {
    var name := Report.ProjectKey(e);
    MapViewInsert(g, name, e, TotalOf);
    TotalNamesAreKeys(g);
    var k := IndexOf(Keys(g), name);
    if k >= 0 {
      ExtendTotal(g[k], e);
    } else {
      ExtendTotal((name, []), e);
      assert [] + [e] == [e];
    }
  }

  lemma TotalsPrefixStep(es: seq<Entry>, i: nat)
    requires i < |es|
    ensures ProjectTotalsOf(es[..i + 1]) == StepTotals(ProjectTotalsOf(es[..i]), es[i])
  {
    PrefixSnoc(es, i);
    TotalsStep(es[..i], es[i]);
  }

  /** The reduce callback: create the project's total on its first entry, then add to it. */
  method AddToTotals(totals: seq<ProjectTotal>, e: Entry) returns (totals': seq<ProjectTotal>)
    ensures totals' == StepTotals(totals, e)
  {
    var name := OrDefault(e.projectName, NoProject);
    var j := IndexOf(TotalNames(totals), name);
    totals' := totals;
    if j < 0 {
      totals' := totals' + [NewTotal(name, e)];
      j := |totals'| - 1;
    }
    totals' := totals'[j := AddDuration(totals'[j], e)];
  }

  /** `timeEntries.reduce(callback, {})`. */
  method ReduceTotals(es: seq<Entry>) returns (totals: seq<ProjectTotal>)
    ensures totals == ProjectTotalsOf(es)
  {
    totals := [];
    var i := 0;
    while i < |es|
      invariant 0 <= i <= |es|
      invariant totals == ProjectTotalsOf(es[..i])
    {
      TotalsPrefixStep(es, i);
      totals := AddToTotals(totals, es[i]);
      i := i + 1;
    }
    WholePrefix(es);
  }

  /**
   * One total per distinct project name, in order of first appearance; each is the
   * duration of exactly the entries with that name, with the first one's colour.
   */
  lemma ProjectTotalsShape(es: seq<Entry>)
    ensures TotalNames(ProjectTotalsOf(es)) == Dedup(MapKey(es, Report.ProjectKey))
    ensures Distinct(TotalNames(ProjectTotalsOf(es)))
    ensures forall i :: 0 <= i < |ProjectTotalsOf(es)| ==>
      var p := ProjectTotalsOf(es)[i];
      var members := Select(es, Report.ProjectKey, p.name);
      && members != []
      && p.totalDuration == TotalDuration(members)
      && p.color == OrDefault(members[0].projectColor, DefaultColor)
  {
    var g := GroupBy(es, Report.ProjectKey);
    GroupByKeys(es, Report.ProjectKey);
    GroupByDistinctKeys(es, Report.ProjectKey);
    GroupByBuckets(es, Report.ProjectKey);
    GroupByNonEmpty(es, Report.ProjectKey);
    assert TotalNames(ProjectTotalsOf(es)) == Keys(g);
  }

  lemma {:induction false} SumOfTotals(g: seq<(string, seq<Entry>)>)
    ensures Sum(MapView(g, TotalOf), TotalDurationOf) == GroupSums(g, DurationOf)
  {
    if g != [] {
      SumOfTotals(g[..|g| - 1]);
      assert MapView(g, TotalOf)[..|g| - 1] == MapView(g[..|g| - 1], TotalOf);
    }
  }

  /** The project totals add up to the duration of all entries. */
  lemma TotalsConserved(es: seq<Entry>)
    ensures Sum(ProjectTotalsOf(es), TotalDurationOf) == TotalDuration(es)
  {
    SumOfTotals(GroupBy(es, Report.ProjectKey));
    GroupByConserves(es, Report.ProjectKey, DurationOf);
  }

  /**
   * The chart and the PDF report's summary table group alike: the same names in the
   * same order, with the same totals and colours.
   */
  lemma SameGroupsAsReport(es: seq<Entry>)
    ensures |ProjectTotalsOf(es)| == |Report.ProjectGroupsOf(es)|
    ensures forall i :: 0 <= i < |ProjectTotalsOf(es)| ==>
      var p := ProjectTotalsOf(es)[i];
      var q := Report.ProjectGroupsOf(es)[i];
      p.name == q.name && p.totalDuration == q.totalDuration && p.color == q.color
  {
  }

  // ---------------------------------------------------------------- the pie

  /** The chart's `labels`, `datasets[0].data` and `datasets[0].backgroundColor`. */
  datatype Pie = Pie(labels: seq<string>, data: seq<real>, colors: seq<string>)

  /** `parseFloat((totalDuration / 3600000).toFixed(2))`. */
  function SliceHours(p: ProjectTotal): real {
    RoundedHours(p.totalDuration)
  }

  /** `projectNames`, `projectData` and `projectColors`, all mapped over the same names. */
  function PieOf(totals: seq<ProjectTotal>): (pie: Pie)
    ensures |pie.labels| == |pie.data| == |pie.colors| == |totals|
  {
    Pie(TotalNames(totals),
      seq(|totals|, i requires 0 <= i < |totals| => SliceHours(totals[i])),
      seq(|totals|, i requires 0 <= i < |totals| => totals[i].color))
  }

  function ChartOf(es: seq<Entry>): Pie {
    PieOf(ProjectTotalsOf(es))
  }

  /** The component: reduce the entries, then map the totals to the three arrays. */
  method BuildPie(es: seq<Entry>) returns (pie: Pie)
    ensures pie == ChartOf(es)
  {
    var totals := ReduceTotals(es);
    var names := TotalNames(totals);
    var data := seq(|totals|, i requires 0 <= i < |totals| => RoundedHours(totals[i].totalDuration));
    var colors := seq(|totals|, i requires 0 <= i < |totals| => totals[i].color);
    pie := Pie(names, data, colors);
  }

  /**
   * One slice per distinct project name, in order of first appearance: its value is the
   * hours of that project's entries rounded to hundredths, its colour the first entry's.
   */
  lemma ChartShape(es: seq<Entry>)
    ensures var pie := ChartOf(es);
      && |pie.labels| == |pie.data| == |pie.colors|
      && pie.labels == Dedup(MapKey(es, Report.ProjectKey))
      && Distinct(pie.labels)
      && forall i :: 0 <= i < |pie.labels| ==>
        var members := Select(es, Report.ProjectKey, pie.labels[i]);
        && members != []
        && pie.data[i] == RoundedHours(TotalDuration(members))
        && pie.colors[i] == OrDefault(members[0].projectColor, DefaultColor)
  {
    var pie := ChartOf(es);
    var totals := ProjectTotalsOf(es);
    ProjectTotalsShape(es);
    assert pie.labels == TotalNames(totals);
    forall i | 0 <= i < |pie.labels|
      ensures var members := Select(es, Report.ProjectKey, pie.labels[i]);
        && members != []
        && pie.data[i] == RoundedHours(TotalDuration(members))
        && pie.colors[i] == OrDefault(members[0].projectColor, DefaultColor)
    {
      assert pie.labels[i] == totals[i].name;
      assert pie.colors[i] == totals[i].color;
      assert pie.data[i] == SliceHours(totals[i]);
    }
  }

  /** Every project name that occurs has a slice, and every slice is such a name. */
  lemma SlicesAreProjects(es: seq<Entry>)
    ensures forall n :: n in ChartOf(es).labels <==>
      exists i :: 0 <= i < |es| && Report.ProjectKey(es[i]) == n
  {
    ProjectTotalsShape(es);
    DedupProps(MapKey(es, Report.ProjectKey));
  }

  /** The chart of no entries has no slices. */
  lemma EmptyChart()
    ensures ChartOf([]) == Pie([], [], [])
  {
    assert GroupBy([], Report.ProjectKey) == [];
  }

  // ---------------------------------------------------------------- percentages

  /** `((value / data.reduce((a, b) => a + b, 0)) * 100)`: the share the legend prints. */
  function SliceShare(data: seq<real>, i: nat): JsNum
    requires i < |data|
  {
    Scale(Divide(data[i], RealSum(data, Id)), 100.0)
  }

  function Id(x: real): real {
    x
  }

  function Shares(data: seq<real>): (ps: seq<JsNum>)
    ensures |ps| == |data|
    ensures forall i :: 0 <= i < |data| ==> ps[i] == SliceShare(data, i)
  {
    seq(|data|, i requires 0 <= i < |data| => SliceShare(data, i))
  }

  function ShareValue(q: JsNum): real {
    if q.Finite? then q.value else 0.0
  }

  lemma ShareStep(a: real, d: real, t: real)
    requires t != 0.0
    ensures a * 100.0 / t + ShareValue(Scale(Divide(d, t), 100.0)) == (a + d) * 100.0 / t
  {
    assert Divide(d, t).value == d / t;
  }

  /** The shares of the first `n` slices, against the sum `t` of all of them. */
  lemma {:induction false} SharesPrefixSum(data: seq<real>, n: nat)
    requires n <= |data| && RealSum(data, Id) != 0.0
    ensures RealSum(Shares(data)[..n], ShareValue) == RealSum(data[..n], Id) * 100.0 / RealSum(data, Id)
  {
    if n > 0 {
      SharesPrefixSum(data, n - 1);
      assert Shares(data)[..n][..n - 1] == Shares(data)[..n - 1];
      assert data[..n][..n - 1] == data[..n - 1];
      ShareStep(RealSum(data[..n - 1], Id), data[n - 1], RealSum(data, Id));
    } else {
      assert Shares(data)[..0] == [] && data[..0] == [];
    }
  }

  /**
   * When the slices do not add up to zero every share is a number and the shares add
   * up to 100; when they do, no share is a number (each is NaN or an infinity).
   */
  lemma SharesAddUp(data: seq<real>)
    ensures RealSum(data, Id) != 0.0 ==>
      (forall i :: 0 <= i < |data| ==> Shares(data)[i].Finite?)
      && RealSum(Shares(data), ShareValue) == 100.0
    ensures RealSum(data, Id) == 0.0 ==> forall i :: 0 <= i < |data| ==> !Shares(data)[i].Finite?
  {
    var t := RealSum(data, Id);
    forall i | 0 <= i < |data| ensures Shares(data)[i].Finite? <==> t != 0.0 {
      assert Shares(data)[i] == SliceShare(data, i);
    }
    if t != 0.0 {
      SharesPrefixSum(data, |data|);
      WholePrefix(Shares(data));
      WholePrefix(data);
      WholeShare(t);
    }
  }

  lemma WholeShare(t: real)
    requires t != 0.0
    ensures t * 100.0 / t == 100.0
  {
  }

  /** Two entries of different projects give two slices, in input order. */
  lemma TwoProjects(a: Entry, b: Entry)
    requires Report.ProjectKey(a) != Report.ProjectKey(b)
    ensures ChartOf([a, b]).labels == [Report.ProjectKey(a), Report.ProjectKey(b)]
    ensures ChartOf([a, b]).data == [RoundedHours(a.duration), RoundedHours(b.duration)]
  {
    var x, y := Report.ProjectKey(a), Report.ProjectKey(b);
    TwoLabels(a, b);
    TwoSlices([a, b], x, y);
    SliceOfPair(a, b, x);
    SliceOfPair(b, a, y);
    SelectOfPair(a, b, Report.ProjectKey, y);
  }

  lemma TwoLabels(a: Entry, b: Entry)
    requires Report.ProjectKey(a) != Report.ProjectKey(b)
    ensures ChartOf([a, b]).labels == [Report.ProjectKey(a), Report.ProjectKey(b)]
  {
    var x, y := Report.ProjectKey(a), Report.ProjectKey(b);
    ChartShape([a, b]);
    assert MapKey([a, b], Report.ProjectKey) == [x, y];
    DedupOfPair(x, y);
  }

  /** A chart with two slices: each the rounded hours of its project's entries. */
  lemma TwoSlices(es: seq<Entry>, x: string, y: string)
    requires ChartOf(es).labels == [x, y]
    ensures ChartOf(es).data
      == [RoundedHours(TotalDuration(Select(es, Report.ProjectKey, x))),
          RoundedHours(TotalDuration(Select(es, Report.ProjectKey, y)))]
  {
    var pie := ChartOf(es);
    ChartShape(es);
    assert pie.labels[0] == x && pie.labels[1] == y;
    assert pie.data == [pie.data[0], pie.data[1]];
  }

  /** Of two entries of different projects, the first one's project holds only it. */
  lemma SliceOfPair(a: Entry, b: Entry, x: string)
    requires x == Report.ProjectKey(a) != Report.ProjectKey(b)
    ensures Select([a, b], Report.ProjectKey, x) == [a]
    ensures TotalDuration([a]) == a.duration
  {
    SelectOfPair(a, b, Report.ProjectKey, x);
    assert [a][..0] == [];
    assert Sum([a], DurationOf) == Sum([a][..0], DurationOf) + DurationOf(a);
  }

  /**
   * The shares are taken of the rounded slice values: two projects of a third of an
   * hour each show 0.33 hours and 50% apiece.
   */
  lemma SharesOfRoundedHours(a: Entry, b: Entry)
    requires a.duration == 1200000 && b.duration == 1200000
    requires Report.ProjectKey(a) != Report.ProjectKey(b)
    ensures ChartOf([a, b]).data == [0.33, 0.33]
    ensures Shares(ChartOf([a, b]).data) == [Finite(50.0), Finite(50.0)]
  {
    TwoProjects(a, b);
    assert RoundedHours(1200000) == 0.33;
    var d := [0.33, 0.33];
    assert RealSum(d, Id) == 0.66 by {
      assert d[..1] == [0.33] && [0.33][..0] == [];
    }
  }
}
