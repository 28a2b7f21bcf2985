/**
 * The enriched time entry every view of the dashboard consumes: the raw fields of the
 * time-tracking API's entry (carried over unchanged) plus the normalised duration in
 * milliseconds and the project's display name and colour.
 */
module Entries {
  import opened JsValues
  import Grouping

  /**
   * An interval end as the API reports it: absent, `null` (a timer still running), or
   * an instant in milliseconds since the epoch.
   */
  datatype Stamp = Absent | Null | At(ms: int)

  /**
   * `timeInterval`: the start instant (`None` when it is missing), and the end, which
   * `new Date(...)` reads differently when it is absent and when it is `null`.
   */
  datatype Interval = Interval(start: Option<int>, end: Stamp)

  /**
   * An enriched entry. Absent text fields (`projectId`, `description`, an empty
   * `projectName`) are the empty string, which JavaScript treats as falsy.
   */
  datatype Entry = Entry(
    id: string,
    interval: Option<Interval>,
    duration: int,
    projectId: string,
    projectName: string,
    projectColor: string,
    description: string)

  const NoProject: string := "No Project"
  const DefaultColor: string := "#666666"

  /** Whether `entry.timeInterval.start` exists, so that `new Date(start)` is a valid date. */
  predicate HasStart(e: Entry) {
    e.interval.Some? && e.interval.value.start.Some?
  }

  predicate AllStarted(es: seq<Entry>) {
    forall i :: 0 <= i < |es| ==> HasStart(es[i])
  }

  /** The entries before position `i` all have a start. */
  predicate StartedBefore(es: seq<Entry>, i: nat)
    requires i <= |es|
  {
    forall j :: 0 <= j < i ==> HasStart(es[j])
  }

  /** A scan over the starts keeps going past a started entry, and covers all when done. */
  lemma StartedBeforeStep(es: seq<Entry>, i: nat)
    requires i < |es| && StartedBefore(es, i) && HasStart(es[i])
    ensures StartedBefore(es, i + 1)
  {
  }

  lemma StartedBeforeAll(es: seq<Entry>)
    ensures StartedBefore(es, |es|) <==> AllStarted(es)
  {
  }

  /** The entry at `k` is the first one without a start. */
  predicate FirstUnstarted(es: seq<Entry>, k: int) {
    0 <= k < |es| && StartedBefore(es, k) && !HasStart(es[k])
  }

  /**
   * What `format(new Date(entry.timeInterval.start), ...)` throws for an entry without
   * a start: a TypeError when there is no `timeInterval` to read `start` from, and
   * date-fns's RangeError for the Invalid Date of an undefined start.
   */
  function StartError(e: Entry): (msg: string)
    ensures msg == "Invalid time value" <==> e.interval.Some?
  {
    if e.interval.None? then "Cannot read properties of undefined (reading 'start')"
    else "Invalid time value"
  }

  /** The start instant; only consulted for entries that have one. */
  function StartMs(e: Entry): int {
    if HasStart(e) then e.interval.value.start.value else 0
  }

  function DurationOf(e: Entry): int {
    e.duration
  }

  /** `entry.duration / 3600000`. */
  function HoursOf(e: Entry): real {
    e.duration as real / 3600000.0
  }

  /** `entries.reduce((total, entry) => total + entry.duration, 0)`. */
  function TotalDuration(es: seq<Entry>): int {
    Grouping.Sum(es, DurationOf)
  }

  /** `entries.reduce((total, entry) => total + entry.duration / 3600000, 0)`. */
  function TotalHours(es: seq<Entry>): real {
    Grouping.RealSum(es, HoursOf)
  }

  /** Adding hours entry by entry is converting the millisecond total once. */
  lemma {:induction false} TotalHoursIsScaledTotal(es: seq<Entry>)
    ensures TotalHours(es) == TotalDuration(es) as real / 3600000.0
  {
    if es != [] {
      TotalHoursIsScaledTotal(es[..|es| - 1]);
    }
  }

  /**
   * The label `format(new Date(entry.timeInterval.start), pattern)` gives an entry,
   * with the date formatting as the function `fmt` of the start instant.
   */
  function DateKey(fmt: int -> string): Entry -> string {
    e => fmt(StartMs(e))
  }

  lemma DateKeyOf(fmt: int -> string, e: Entry)
    ensures DateKey(fmt)(e) == fmt(StartMs(e))
  {
    var key := DateKey(fmt);
    assert key(e) == fmt(StartMs(e));
  }

  /** The date keys are the formatted starts of the entries. */
  lemma DateKeysOf(es: seq<Entry>, fmt: int -> string)
    ensures forall d :: d in Grouping.MapKey(es, DateKey(fmt)) <==>
      exists i :: 0 <= i < |es| && fmt(StartMs(es[i])) == d
  {
    var ks := Grouping.MapKey(es, DateKey(fmt));
    forall d | d in ks ensures exists i :: 0 <= i < |es| && fmt(StartMs(es[i])) == d {
      var i :| 0 <= i < |ks| && ks[i] == d;
      DateKeyOf(fmt, es[i]);
    }
    forall d | exists i :: 0 <= i < |es| && fmt(StartMs(es[i])) == d ensures d in ks {
      var i :| 0 <= i < |es| && fmt(StartMs(es[i])) == d;
      DateKeyOf(fmt, es[i]);
      assert ks[i] == d;
    }
  }

  /**
   * `(ms / 3600000).toFixed(2)` as a whole number of hundredths of an hour, worked out
   * on the integer `ms`: halves round away from zero, as `toFixed` rounds.
   */
  function HourHundredths(ms: int): int {
    if ms >= 0 then (ms + 18000) / 36000 else -((18000 - ms) / 36000)
  }

  /** `Number((ms / 3600000).toFixed(2))`: the hours of `ms`, rounded to hundredths. */
  function RoundedHours(ms: int): real {
    HourHundredths(ms) as real / 100.0
  }

  /** Rounding `ms` milliseconds of an hour is a rounding to hundredths of `ms / 3600000`. */
  lemma FloorOfHours(k: nat)
    ensures ((k as real / 3600000.0) * 100.0 + 0.5).Floor == (k + 18000) / 36000
  {
    var m := (k + 18000) / 36000;
    var r := (k as real / 3600000.0) * 100.0 + 0.5;
    assert r == (k + 18000) as real / 36000.0;
    assert 36000 * m <= k + 18000 < 36000 * m + 36000;
    assert m as real <= r < m as real + 1.0 by {
      assert (36000 * m) as real <= (k + 18000) as real < (36000 * m + 36000) as real;
    }
  }

  /**
   * The integer rounding is the rounding of the hours: `RoundedHours(ms)` is
   * `Round2(ms / 3600000)`, which `Decimals.ParseFixed2OfFixed2` shows is what
   * `parseFloat` reads back from the `toFixed(2)` text.
   */
  lemma RoundedHoursIsRound2(ms: int)
    ensures RoundedHours(ms) == Round2(ms as real / 3600000.0)
  {
    var x := ms as real / 3600000.0;
    if ms >= 0 {
      FloorOfHours(ms);
      assert Hundredths(x) == HourHundredths(ms);
    } else {
      FloorOfHours(-ms);
      assert -x == (-ms) as real / 3600000.0;
      assert Hundredths(x) == HourHundredths(ms);
    }
  }

  /** A total's hours rounded to hundredths, worked out on its milliseconds. */
  lemma RoundedTotalHours(es: seq<Entry>)
    ensures Round2(TotalHours(es)) == RoundedHours(TotalDuration(es))
  {
    TotalHoursIsScaledTotal(es);
    RoundedHoursIsRound2(TotalDuration(es));
  }
}
