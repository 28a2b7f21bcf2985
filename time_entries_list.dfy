/**
 * The entries table of the dashboard: one collapsible row per project, keyed by project
 * id, showing the entry count and the total time as `HH:MM:SS`, with the project's
 * entries newest first; and the text the copy button puts on the clipboard.
 */
module TimeEntriesList {
  import opened JsValues
  import opened Text
  import opened Entries
  import opened Grouping
  import Sorting

  // ---------------------------------------------------------------- HH:MM:SS

  /**
   * `formatMillisecondsToTime`: `Math.floor` of the quotients (the `/` here), the
   * truncating `%`, and each part padded to two characters. A negative input gives
   * negative parts.
   */
  function FormatHMS(ms: int): string {
    PadStart2(IntStr(ms / 3600000)) + ":"
      + PadStart2(IntStr(JsRem(ms, 3600000) / 60000)) + ":"
      + PadStart2(IntStr(JsRem(ms, 60000) / 1000))
  }

  /**
   * Reads "H:MM:SS" text back as a number of seconds: digits, then two-digit minutes and
   * seconds below 60; `None` for any other text.
   */
  function ReadHMS(s: string): Option<nat> {
    if |s| < 7 || s[|s| - 6] != ':' || s[|s| - 3] != ':' then None
    else ClockSeconds(s[..|s| - 6], s[|s| - 5..|s| - 3], s[|s| - 2..])
  }

  /** The seconds of an hours, minutes and seconds reading, when each is valid. */
  function ClockSeconds(h: string, m: string, sec: string): Option<nat> {
    if AllDigits(h) && AllDigits(m) && AllDigits(sec) && DigitsValue(m) < 60 && DigitsValue(sec) < 60
    then Some(DigitsValue(h) * 3600 + DigitsValue(m) * 60 + DigitsValue(sec))
    else None
  }

  /** The three parts of a non-negative duration are the clock reading of its whole seconds. */
  lemma ClockParts(ms: nat)
    ensures var sec := ms / 1000;
      && ms / 3600000 == sec / 3600
      && (ms % 3600000) / 60000 == (sec % 3600) / 60
      && (ms % 60000) / 1000 == sec % 60
      && (sec % 3600) / 60 < 60
  {
    var sec, r := ms / 1000, ms % 1000;
    var h, t := sec / 3600, sec % 3600;
    var m, u := t / 60, t % 60;
    var low := 60000 * m + 1000 * u + r;
    DivideUniquely(ms, 3600000, h, low);
    DivideUniquely(low, 60000, m, 1000 * u + r);
    DivideUniquely(ms, 60000, 60 * h + m, 1000 * u + r);
    DivideUniquely(1000 * u + r, 1000, u, r);
  }

  /** A quotient and remainder are fixed by the value they rebuild. */
  lemma DivideUniquely(n: int, d: int, q: int, r: int)
    requires 0 <= r < d && n == d * q + r
    ensures n / d == q && n % d == r
  {
    MultipleBound(d, q - n / d);
  }

  /** A non-zero multiple of a positive d is at least d away from zero. */
  lemma MultipleBound(d: int, k: int)
    requires d > 0
    ensures k > 0 ==> d * k >= d
    ensures k < 0 ==> d * k <= -d
  {
    if k > 0 {
      NonNegativeProduct(d, k - 1);
      assert d * k == d + d * (k - 1);
    } else if k < 0 {
      NonNegativeProduct(d, -k - 1);
      assert d * k == -d - d * (-k - 1);
    }
  }

  lemma NonNegativeProduct(a: int, b: int)
    requires a >= 0 && b >= 0
    ensures a * b >= 0
  {
  }

  /**
   * Reading the rendering of a non-negative duration back gives its whole seconds: the
   * hours are never truncated, and minutes and seconds are two digits below 60.
   */
  lemma ReadHMSOfFormat(ms: int)
    requires ms >= 0
    ensures ReadHMS(FormatHMS(ms)) == Some(ms / 1000)
  {
    var sec := ms / 1000;
    var h, m, u := sec / 3600, (sec % 3600) / 60, sec % 60;
    FormatHMSParts(ms);
    ClockSum(sec);
    ClockTextValue(h, m, u);
  }

  /** A non-negative duration renders as its whole seconds' hours, minutes and seconds. */
  lemma FormatHMSParts(ms: nat)
    ensures var sec := ms / 1000;
      FormatHMS(ms) == ClockText(sec / 3600, (sec % 3600) / 60, sec % 60)
  {
    ClockParts(ms);
  }

  /** Hours, minutes and seconds, each padded to two digits, separated by colons. */
  function ClockText(h: nat, m: nat, u: nat): string {
    PadStart2(NatStr(h)) + ":" + PadStart2(NatStr(m)) + ":" + PadStart2(NatStr(u))
  }

  lemma ClockTextValue(h: nat, m: nat, u: nat)
    requires m < 60 && u < 60
    ensures ReadHMS(ClockText(h, m, u)) == Some(h * 3600 + m * 60 + u)
  {
    var hs, mm, ss := PadStart2(NatStr(h)), PadStart2(NatStr(m)), PadStart2(NatStr(u));
    NatStrDigits(m, 2);
    NatStrDigits(u, 2);
    SplitClock(hs, mm, ss);
    DigitsValuePadStart2(NatStr(h));
    DigitsValuePadStart2(NatStr(m));
    DigitsValuePadStart2(NatStr(u));
    DigitsValueOfNatStr(h);
    DigitsValueOfNatStr(m);
    DigitsValueOfNatStr(u);
    ClockSecondsOf(hs, mm, ss, h, m, u);
  }

  lemma ClockSecondsOf(hs: string, mm: string, ss: string, h: nat, m: nat, u: nat)
    requires AllDigits(hs) && AllDigits(mm) && AllDigits(ss)
    requires DigitsValue(hs) == h && DigitsValue(mm) == m && DigitsValue(ss) == u
    requires m < 60 && u < 60
    ensures ClockSeconds(hs, mm, ss) == Some(h * 3600 + m * 60 + u)
  {
  }

  lemma ClockSum(sec: nat)
    ensures (sec / 3600) * 3600 + ((sec % 3600) / 60) * 60 + sec % 60 == sec
    ensures (sec % 3600) / 60 < 60
  {
    var q, t := sec / 3600, sec % 3600;
    assert sec == 60 * (60 * q + t / 60) + t % 60;
    assert sec % 60 == t % 60;
  }

  /** Where the two separators of a clock reading sit. */
  lemma SplitClock(hs: string, mm: string, ss: string)
    requires |hs| >= 2 && |mm| == 2 && |ss| == 2
    ensures ReadHMS(hs + ":" + mm + ":" + ss) == ClockSeconds(hs, mm, ss)
  {
    var s := hs + ":" + mm + ":" + ss;
    assert s[|s| - 6] == ':' && s[|s| - 3] == ':';
    assert s[..|s| - 6] == hs;
    assert s[|s| - 5..|s| - 3] == mm;
    assert s[|s| - 2..] == ss;
  }

  /** A negative duration of one second renders every part as -1. */
  lemma FormatHMSNegativeExample()
    ensures FormatHMS(-1000) == "-1:-1:-1"
  {
    assert JsRem(-1000, 3600000) == -1000;
    assert JsRem(-1000, 60000) == -1000;
    assert IntStr(-1) == "-1";
  }

  // ---------------------------------------------------------------- project rows

  /** `entry.projectId || 'no-project'`. */
  function RowKey(e: Entry): string {
    OrDefault(e.projectId, "no-project")
  }

  /** One project row: its key, display name, colour and entries. */
  datatype ProjectEntries = ProjectEntries(id: string, name: string, color: string, entries: seq<Entry>)

  /** The row the reduce builds for a bucket: name and colour come from its first entry. */
  function ProjectEntriesOf(b: (string, seq<Entry>)): ProjectEntries {
    if b.1 == [] then ProjectEntries(b.0, "", DefaultColor, [])
    else ProjectEntries(b.0, b.1[0].projectName, OrDefault(b.1[0].projectColor, DefaultColor), b.1)
  }

  /** The rows after the reduce, before the sort. */
  function ReducedRows(es: seq<Entry>): seq<ProjectEntries> {
    MapView(GroupBy(es, RowKey), ProjectEntriesOf)
  }

  function RowIds(rows: seq<ProjectEntries>): (ids: seq<string>)
    ensures |ids| == |rows|
    ensures forall i :: 0 <= i < |rows| ==> ids[i] == rows[i].id
  {
    seq(|rows|, i requires 0 <= i < |rows| => rows[i].id)
  }

  /** `acc[projectId] = { name: entry.projectName, color: entry.projectColor || '#666666', entries: [] }`. */
  function NewRow(id: string, e: Entry): ProjectEntries {
    ProjectEntries(id, e.projectName, OrDefault(e.projectColor, DefaultColor), [])
  }

  /** The rows after one more entry, as the reduce callback leaves them. */
  function StepRows(rows: seq<ProjectEntries>, e: Entry): seq<ProjectEntries> {
    var j := IndexOf(RowIds(rows), RowKey(e));
    if j >= 0 then rows[j := rows[j].(entries := rows[j].entries + [e])]
    else rows + [NewRow(RowKey(e), e).(entries := [e])]
  }

  lemma RowStep(es: seq<Entry>, e: Entry)
    ensures ReducedRows(es + [e]) == StepRows(ReducedRows(es), e)
  {
    var g := GroupBy(es, RowKey);
    var id := RowKey(e);
    GroupBySnoc(es, e, RowKey);
    MapViewInsert(g, id, e, ProjectEntriesOf);
    RowIdsAreKeys(g);
    var k := IndexOf(Keys(g), id);
    if k >= 0 {
      GroupByNonEmpty(es, RowKey);
      ExtendRow(g[k], e);
    } else {
      ExtendRow((id, []), e);
      assert [] + [e] == [e];
    }
  }

  lemma RowIdsAreKeys(g: seq<(string, seq<Entry>)>)
    ensures RowIds(MapView(g, ProjectEntriesOf)) == Keys(g)
  {
  }

  lemma ExtendRow(b: (string, seq<Entry>), e: Entry)
    ensures ProjectEntriesOf((b.0, b.1 + [e]))
      == (if b.1 == [] then NewRow(b.0, e) else ProjectEntriesOf(b)).(entries := b.1 + [e])
  {
    if b.1 != [] {
      assert (b.1 + [e])[0] == b.1[0];
    }
  }

  lemma RowPrefixStep(es: seq<Entry>, i: nat)
    requires i < |es|
    ensures ReducedRows(es[..i + 1]) == StepRows(ReducedRows(es[..i]), es[i])
  {
    PrefixSnoc(es, i);
    RowStep(es[..i], es[i]);
  }

  /** The reduce callback: create the entry's row when absent, then push the entry. */
  method AddToRows(rows: seq<ProjectEntries>, e: Entry) returns (rows': seq<ProjectEntries>)
    ensures rows' == StepRows(rows, e)
  {
    var id := OrDefault(e.projectId, "no-project");
    var j := IndexOf(RowIds(rows), id);
    if j < 0 {
      rows' := rows + [NewRow(id, e).(entries := [] + [e])];
      assert [] + [e] == [e];
    } else {
      rows' := rows[j := rows[j].(entries := rows[j].entries + [e])];
    }
  }

  /** `timeEntries.reduce(callback, {})` grouping by project id. */
  method ReduceRows(es: seq<Entry>) returns (rows: seq<ProjectEntries>)
    ensures rows == ReducedRows(es)
  {
    rows := [];
    var i := 0;
    while i < |es|
      invariant 0 <= i <= |es|
      invariant rows == ReducedRows(es[..i])
    {
      RowPrefixStep(es, i);
      rows := AddToRows(rows, es[i]);
      i := i + 1;
    }
    WholePrefix(es);
  }

  /** Rank for the newest-first order: `new Date(b.start) - new Date(a.start)`. */
  function Newest(e: Entry): int {
    -StartMs(e)
  }

  /** A row with its entries sorted newest first (`group.entries.sort(...)`). */
  function SortedRow(p: ProjectEntries): ProjectEntries {
    p.(entries := Sorting.SortBy(p.entries, Newest))
  }

  function SortedRowOf(b: (string, seq<Entry>)): ProjectEntries {
    SortedRow(ProjectEntriesOf(b))
  }

  /** `groupedEntries`: the rows of the reduce, each sorted newest first. */
  function GroupedEntriesOf(es: seq<Entry>): seq<ProjectEntries> {
    MapView(GroupBy(es, RowKey), SortedRowOf)
  }

  /** `Object.values(groups).forEach(group => group.entries.sort(...))`. */
  method SortRows(rows: seq<ProjectEntries>) returns (sorted: seq<ProjectEntries>)
    ensures |sorted| == |rows|
    ensures forall i :: 0 <= i < |rows| ==> sorted[i] == SortedRow(rows[i])
  {
    sorted := rows;
    var i := 0;
    while i < |rows|
      invariant 0 <= i <= |rows| && |sorted| == |rows|
      invariant forall j :: 0 <= j < i ==> sorted[j] == SortedRow(rows[j])
      invariant forall j :: i <= j < |rows| ==> sorted[j] == rows[j]
    {
      sorted := sorted[i := SortedRow(sorted[i])];
      i := i + 1;
    }
  }

  /**
   * The `groupedEntries` memo. Every entry needs a start: the sort compares start
   * instants and the expanded row formats them.
   */
  method GroupedEntries(es: seq<Entry>) returns (rows: seq<ProjectEntries>)
    requires AllStarted(es)
    ensures rows == GroupedEntriesOf(es)
  {
    var reduced := ReduceRows(es);
    rows := SortRows(reduced);
  }

  /**
   * One row per distinct project key, in order of first appearance. A row holds exactly
   * the entries with its key, newest first; its name and colour are those of the first
   * entry with that key.
   */
  lemma GroupedEntriesShape(es: seq<Entry>)
    ensures RowIds(GroupedEntriesOf(es)) == Dedup(MapKey(es, RowKey))
    ensures Distinct(RowIds(GroupedEntriesOf(es)))
    ensures forall i :: 0 <= i < |GroupedEntriesOf(es)| ==>
      var p := GroupedEntriesOf(es)[i];
      var mine := Select(es, RowKey, p.id);
      && mine != []
      && multiset(p.entries) == multiset(mine)
      && Sorting.SortedBy(p.entries, Newest)
      && p.name == mine[0].projectName
      && p.color == OrDefault(mine[0].projectColor, DefaultColor)
  {
    var g := GroupBy(es, RowKey);
    GroupByKeys(es, RowKey);
    GroupByDistinctKeys(es, RowKey);
    GroupByBuckets(es, RowKey);
    GroupByNonEmpty(es, RowKey);
    assert RowIds(GroupedEntriesOf(es)) == Keys(g);
  }

  lemma SameMembers(a: seq<Entry>, b: seq<Entry>)
    requires multiset(a) == multiset(b)
    ensures forall x :: x in a <==> x in b
  {
    forall x ensures x in a <==> x in b {
      assert x in a <==> x in multiset(a);
      assert x in b <==> x in multiset(b);
    }
  }

  /** Every entry is in the row of its own key and in no other row. */
  lemma EachEntryInOneRow(es: seq<Entry>, k: nat)
    requires k < |es|
    ensures RowKey(es[k]) in RowIds(GroupedEntriesOf(es))
    ensures forall i :: 0 <= i < |GroupedEntriesOf(es)| ==>
      (es[k] in GroupedEntriesOf(es)[i].entries <==> GroupedEntriesOf(es)[i].id == RowKey(es[k]))
  {
    var rows := GroupedEntriesOf(es);
    GroupedEntriesShape(es);
    DedupProps(MapKey(es, RowKey));
    assert RowKey(es[k]) in MapKey(es, RowKey);
    forall i | 0 <= i < |rows|
      ensures es[k] in rows[i].entries <==> rows[i].id == RowKey(es[k])
    {
      RowMembers(es, i, es[k]);
    }
  }

  /** A row holds exactly the entries with its key. */
  lemma RowMembers(es: seq<Entry>, i: nat, x: Entry)
    requires i < |GroupedEntriesOf(es)|
    ensures x in GroupedEntriesOf(es)[i].entries <==> x in es && RowKey(x) == GroupedEntriesOf(es)[i].id
  {
    var row := GroupedEntriesOf(es)[i];
    GroupedEntriesShape(es);
    SameMembers(row.entries, Select(es, RowKey, row.id));
    SelectMembers(es, RowKey, row.id);
  }

  /** `entries.reduce((total, entry) => total + entry.duration, 0)` of a row. */
  function RowTotal(p: ProjectEntries): int {
    TotalDuration(p.entries)
  }

  /** `entries.length` of a row. */
  function RowCount(p: ProjectEntries): int {
    |p.entries|
  }

  function One(e: Entry): int {
    1
  }

  lemma {:induction false} CountIsSum(xs: seq<Entry>)
    ensures Sum(xs, One) == |xs|
  {
    if xs != [] {
      CountIsSum(xs[..|xs| - 1]);
    }
  }

  lemma {:induction false} RowSums(g: seq<(string, seq<Entry>)>)
    ensures Sum(MapView(g, SortedRowOf), RowTotal) == GroupSums(g, DurationOf)
    ensures Sum(MapView(g, SortedRowOf), RowCount) == GroupSums(g, One)
  {
    if g != [] {
      var n := |g| - 1;
      RowSums(g[..n]);
      assert MapView(g, SortedRowOf)[..n] == MapView(g[..n], SortedRowOf);
      var b := g[n].1;
      var p := SortedRowOf(g[n]);
      assert multiset(p.entries) == multiset(b);
      SumPermutation(p.entries, b, DurationOf);
      CountIsSum(b);
    }
  }

  /** The rows' totals add up to the total of all entries, and their counts to the number of entries. */
  lemma RowsConserve(es: seq<Entry>)
    ensures Sum(GroupedEntriesOf(es), RowTotal) == TotalDuration(es)
    ensures Sum(GroupedEntriesOf(es), RowCount) == |es|
  {
    var g := GroupBy(es, RowKey);
    RowSums(g);
    GroupByConserves(es, RowKey, DurationOf);
    GroupByConserves(es, RowKey, One);
    CountIsSum(es);
  }

  // ---------------------------------------------------------------- clipboard text

  /**
   * `new Date(entry.timeInterval.end) - new Date(entry.timeInterval.start)`, with `None`
   * for NaN. An absent end (or start) is an Invalid Date, so the difference is NaN; a
   * `null` end is the epoch, so a running timer counts as `0 - start`.
   */
  function ElapsedMs(e: Entry): (r: Option<int>)
    ensures r.None? <==> !HasStart(e) || e.interval.value.end.Absent?
    ensures HasStart(e) && e.interval.value.end.Null? ==> r == Some(-StartMs(e))
    ensures HasStart(e) && e.interval.value.end.At? ==> r == Some(e.interval.value.end.ms - StartMs(e))
  {
    if !HasStart(e) then None
    else
      match e.interval.value.end
      case Absent => None
      case Null => Some(0 - e.interval.value.start.value)
      case At(end) => Some(end - e.interval.value.start.value)
  }

  /** The copy button's per-project total; NaN once any entry's elapsed time is NaN. */
  function CopyTotal(es: seq<Entry>): (r: Option<int>)
    ensures r.None? <==> exists i :: 0 <= i < |es| && ElapsedMs(es[i]).None?
  {
    if es == [] then Some(0)
    else
      var n := |es| - 1;
      var front := CopyTotal(es[..n]);
      assert forall i :: 0 <= i < n ==> es[..n][i] == es[i];
      if front.Some? && ElapsedMs(es[n]).Some? then Some(front.value + ElapsedMs(es[n]).value) else None
  }

  /** `formatMillisecondsToTime(NaN)`. */
  const NaNTime: string := "NaN:NaN:NaN"

  /** `${project.name} - ${formatMillisecondsToTime(totalMs)}`. */
  function CopyLine(p: ProjectEntries): string {
    var total := CopyTotal(p.entries);
    p.name + " - " + (if total.Some? then FormatHMS(total.value) else NaNTime)
  }

  function CopyLines(rows: seq<ProjectEntries>): (ls: seq<string>)
    ensures |ls| == |rows|
    ensures forall i :: 0 <= i < |rows| ==> ls[i] == CopyLine(rows[i])
  {
    seq(|rows|, i requires 0 <= i < |rows| => CopyLine(rows[i]))
  }

  /** `lines.join('\n')`. */
  function JoinLines(ls: seq<string>): string {
    if ls == [] then ""
    else if |ls| == 1 then ls[0]
    else ls[0] + "\n" + JoinLines(ls[1..])
  }

  /** `s.split('\n')`. */
  function SplitLines(s: string): seq<string>
    decreases |s|
  {
    var i := IndexOfChar(s, '\n');
    if i < 0 then [s] else [s[..i]] + SplitLines(s[i + 1..])
  }

  /** The text the copy button writes to the clipboard. */
  function CopyText(rows: seq<ProjectEntries>): string {
    JoinLines(CopyLines(rows))
  }

  /** Splitting a join at the newlines gives the lines back, when no line holds a newline. */
  lemma {:induction false} SplitJoin(ls: seq<string>)
    requires ls != []
    requires forall i :: 0 <= i < |ls| ==> '\n' !in ls[i]
    ensures SplitLines(JoinLines(ls)) == ls
  {
    if |ls| == 1 {
      assert IndexOfChar(ls[0], '\n') < 0;
    } else {
      var head, tail := ls[0], ls[1..];
      assert forall i :: 0 <= i < |tail| ==> '\n' !in tail[i] by {
        forall i | 0 <= i < |tail| ensures '\n' !in tail[i] {
          assert tail[i] == ls[i + 1];
        }
      }
      var rest := JoinLines(tail);
      var s := head + "\n" + rest;
      assert JoinLines(ls) == s;
      assert SplitLines(s) == [head] + SplitLines(rest) by {
        IndexOfCharAfter(head, '\n', rest);
        assert s[..|head|] == head;
        assert s[|head| + 1..] == rest;
      }
      SplitJoin(tail);
      assert ls == [head] + tail;
    }
  }

  lemma NoNewlineInNumber(n: int)
    ensures '\n' !in PadStart2(IntStr(n))
  {
    var s := IntStr(n);
    var digits := NatStr(if n < 0 then -n else n);
    assert forall c :: c in digits ==> IsDigit(c);
    assert forall c :: c in s ==> c == '-' || IsDigit(c);
    PadStart2Chars(s);
  }

  lemma NoNewlineInLine(p: ProjectEntries)
    requires '\n' !in p.name
    ensures '\n' !in CopyLine(p)
  {
    var total := CopyTotal(p.entries);
    if total.Some? {
      var t := total.value;
      NoNewlineInNumber(t / 3600000);
      NoNewlineInNumber(JsRem(t, 3600000) / 60000);
      NoNewlineInNumber(JsRem(t, 60000) / 1000);
    }
  }

  /**
   * The clipboard holds one line per project row, in row order, when there is at least
   * one row and no project name contains a newline.
   */
  lemma CopyTextLines(rows: seq<ProjectEntries>)
    requires rows != []
    requires forall i :: 0 <= i < |rows| ==> '\n' !in rows[i].name
    ensures SplitLines(CopyText(rows)) == CopyLines(rows)
  {
    forall i | 0 <= i < |rows| ensures '\n' !in CopyLines(rows)[i] {
      NoNewlineInLine(rows[i]);
    }
    SplitJoin(CopyLines(rows));
  }

  /** An entry whose duration was normalised from its interval's two ends. */
  predicate TimedByInterval(e: Entry) {
    ElapsedMs(e) == Some(e.duration)
  }

  lemma {:induction false} CopyTotalIsDuration(es: seq<Entry>)
    requires forall i :: 0 <= i < |es| ==> TimedByInterval(es[i])
    ensures CopyTotal(es) == Some(TotalDuration(es))
  {
    if es != [] {
      var n := |es| - 1;
      assert forall i :: 0 <= i < n ==> es[..n][i] == es[i];
      CopyTotalIsDuration(es[..n]);
    }
  }

  /**
   * For entries timed by their interval, a project's clipboard line shows the same
   * time as its row; with any entry whose start or end is absent it shows NaN instead.
   */
  lemma CopyLineMatchesRow(p: ProjectEntries)
    ensures (forall i :: 0 <= i < |p.entries| ==> TimedByInterval(p.entries[i])) ==>
      CopyLine(p) == p.name + " - " + FormatHMS(RowTotal(p))
    ensures (exists i :: 0 <= i < |p.entries| && ElapsedMs(p.entries[i]).None?) ==>
      CopyLine(p) == p.name + " - " + NaNTime
  {
    if forall i :: 0 <= i < |p.entries| ==> TimedByInterval(p.entries[i]) {
      CopyTotalIsDuration(p.entries);
    }
  }

  /**
   * A running timer (a `null` end) adds minus its start instant to the copy total: the
   * epoch minus the start, not NaN.
   */
  lemma RunningTimerTotal(e: Entry, start: int)
    requires e.interval == Some(Interval(Some(start), Null))
    ensures CopyTotal([e]) == Some(-start)
  {
    SingleCopyTotal(e);
  }

  lemma SingleCopyTotal(e: Entry)
    ensures CopyTotal([e]) == ElapsedMs(e)
  {
    assert [e][..0] == [];
  }
}
