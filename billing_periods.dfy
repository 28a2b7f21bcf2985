/**
 * The billing calendar (`billingPeriods`): twelve named periods of roughly one month,
 * each with a count of billable days and a first and last day written as
 * `M/D/YYYY` texts built from `BILLING_YEAR` and read with date-fns
 * `parse(text, 'MM/dd/yyyy', new Date())`. Selecting a period sets the expected hours
 * to eight per billable day.
 *
 * A parsed date is a calendar day (year, month, day); the time of day (local
 * midnight) and the reference date passed to `parse` play no part.
 */
module BillingPeriods {
  import opened JsValues
  import opened Text

  /** `BILLING_YEAR`. */
  const BillingYear: nat := 2025

  /** `getBillingYear()`. */
  function GetBillingYear(): (y: nat)
    ensures y == BillingYear
  {
    BillingYear
  }

  // ---------------------------------------------------------------- calendar days

  datatype CalendarDate = CalendarDate(year: int, month: int, day: int)

  /** A JavaScript `Date` as `parse` returns it: a day, or `Invalid Date`. */
  datatype JsDate = Valid(date: CalendarDate) | InvalidDate

  /** Gregorian leap years. */
  predicate IsLeap(y: int) {
    y % 4 == 0 && (y % 100 != 0 || y % 400 == 0)
  }

  function DaysInMonth(y: int, m: int): int
    requires 1 <= m <= 12
  {
    if m == 2 then (if IsLeap(y) then 29 else 28)
    else if m == 4 || m == 6 || m == 9 || m == 11 then 30
    else 31
  }

  predicate IsDay(d: CalendarDate) {
    1 <= d.month <= 12 && 1 <= d.day <= DaysInMonth(d.year, d.month)
  }

  /** Chronological order of days: by year, then month, then day. */
  predicate NotAfter(a: CalendarDate, b: CalendarDate) {
    a.year < b.year
    || (a.year == b.year && (a.month < b.month || (a.month == b.month && a.day <= b.day)))
  }

  predicate Before(a: CalendarDate, b: CalendarDate) {
    NotAfter(a, b) && a != b
  }

  /** The day after `d`. */
  function NextDay(d: CalendarDate): (n: CalendarDate)
    requires IsDay(d)
    ensures IsDay(n) && Before(d, n)
  {
    if d.day < DaysInMonth(d.year, d.month) then d.(day := d.day + 1)
    else if d.month < 12 then CalendarDate(d.year, d.month + 1, 1)
    else CalendarDate(d.year + 1, 1, 1)
  }

  /** No day lies strictly between a day and the next one. */
  lemma NothingBetween(d: CalendarDate, x: CalendarDate)
    requires IsDay(d) && IsDay(x)
    ensures !(Before(d, x) && Before(x, NextDay(d)))
  {
  }

  /** Days from 1 January of year 1 (proleptic Gregorian) to 1 January of year `y`. */
  function DaysBeforeYear(y: int): int {
    var p := y - 1;
    365 * p + p / 4 - p / 100 + p / 400
  }

  /** Days from 1 January of year `y` to the first of month `m`. */
  function DaysBeforeMonth(y: int, m: int): int
    requires 1 <= m <= 12
  {
    if m == 1 then 0 else DaysBeforeMonth(y, m - 1) + DaysInMonth(y, m - 1)
  }

  /** The number of a day, counting 1 January of year 1 as day 0. */
  function DayNumber(d: CalendarDate): int
    requires IsDay(d)
  {
    DaysBeforeYear(d.year) + DaysBeforeMonth(d.year, d.month) + d.day - 1
  }

  /** `n / k` grows by one exactly when `n + 1` is a multiple of `k`. */
  lemma DivStep(n: int, k: int)
    requires k == 4 || k == 7 || k == 100 || k == 400
    ensures (n + 1) / k - n / k == if (n + 1) % k == 0 then 1 else 0
  {
    if k == 4 {
    } else if k == 7 {
    } else if k == 100 {
    } else {
    }
  }

  /** A year has 366 days when it is a leap year and 365 otherwise. */
  lemma YearLength(y: int)
    ensures DaysBeforeYear(y + 1) - DaysBeforeYear(y) == if IsLeap(y) then 366 else 365
  {
    var p := y - 1;
    var a, b, c := y / 4 - p / 4, y / 100 - p / 100, y / 400 - p / 400;
    assert a == if y % 4 == 0 then 1 else 0 by { DivStep(p, 4); }
    assert b == if y % 100 == 0 then 1 else 0 by { DivStep(p, 100); }
    assert c == if y % 400 == 0 then 1 else 0 by { DivStep(p, 400); }
    assert DaysBeforeYear(y + 1) - DaysBeforeYear(y) == 365 + a - b + c;
    MultipleOf400(y);
  }

  /** A multiple of 400 is a multiple of 100, and a multiple of 100 one of 4. */
  lemma MultipleOf400(y: int)
    ensures y % 400 == 0 ==> y % 100 == 0
    ensures y % 100 == 0 ==> y % 4 == 0
  {
    if y % 400 == 0 {
      var q := 4 * (y / 400);
      assert y == q * 100;
      MultipleMod(q, 100);
    }
    if y % 100 == 0 {
      var q := 25 * (y / 100);
      assert y == q * 4;
      MultipleMod(q, 4);
    }
  }

  lemma MultipleMod(q: int, d: int)
    requires d == 100 || d == 4
    ensures (q * d) % d == 0
  {
    if d == 100 {
      assert (q * 100) % 100 == 0;
    } else {
      assert (q * 4) % 4 == 0;
    }
  }


  /** The days before December: eleven months, February of the year included. */
  lemma DaysBeforeDecember(y: int)
    ensures DaysBeforeMonth(y, 12) == if IsLeap(y) then 335 else 334
  {
    var leap := if IsLeap(y) then 1 else 0;
    assert DaysBeforeMonth(y, 2) == 31;
    assert DaysBeforeMonth(y, 3) == 59 + leap;
    assert DaysBeforeMonth(y, 4) == 90 + leap;
    assert DaysBeforeMonth(y, 5) == 120 + leap;
    assert DaysBeforeMonth(y, 6) == 151 + leap;
    assert DaysBeforeMonth(y, 7) == 181 + leap;
    assert DaysBeforeMonth(y, 8) == 212 + leap;
    assert DaysBeforeMonth(y, 9) == 243 + leap;
    assert DaysBeforeMonth(y, 10) == 273 + leap;
    assert DaysBeforeMonth(y, 11) == 304 + leap;
  }

  /** The next day's number is one more: day numbers count days. */
  lemma NextDayNumber(d: CalendarDate)
    requires IsDay(d)
    ensures DayNumber(NextDay(d)) == DayNumber(d) + 1
  {
    if d.day == DaysInMonth(d.year, d.month) && d.month == 12 {
      YearLength(d.year);
      DaysBeforeDecember(d.year);
    }
  }

  /** The day of the week, 0 for Monday through 6 for Sunday (1 January of year 1 was a Monday). */
  function Weekday(d: CalendarDate): int
    requires IsDay(d)
  {
    DayNumber(d) % 7
  }

  /** How many of the days numbered `a` to `b` fall Monday to Friday. */
  function CountWeekdays(a: int, b: int): nat
    decreases if b < a then 0 else b - a + 1
  {
    if b < a then 0 else CountWeekdays(a, b - 1) + (if b % 7 < 5 then 1 else 0)
  }

  /** Weekdays among the day numbers below `n`, counted from day 0, for `n >= 0`. */
  function WeekdaysBelow(n: int): int {
    5 * (n / 7) + (if n % 7 < 5 then n % 7 else 5)
  }

  lemma WeekdaysBelowStep(n: int)
    ensures WeekdaysBelow(n + 1) - WeekdaysBelow(n) == if n % 7 < 5 then 1 else 0
  {
    DivStep(n, 7);
  }

  /** The count of weekdays over a span is a difference of two closed forms. */
  lemma {:induction false} CountWeekdaysClosed(a: int, b: int)
    requires a <= b + 1
    ensures CountWeekdays(a, b) == WeekdaysBelow(b + 1) - WeekdaysBelow(a)
    decreases b - a + 1
  {
    if b >= a {
      CountWeekdaysClosed(a, b - 1);
      WeekdaysBelowStep(b);
    }
  }

  // ---------------------------------------------------------------- parsing

  /** The template text `${month}/${day}/${year}`. */
  function DateText(month: nat, day: nat, year: nat): string {
    NatStr(month) + "/" + NatStr(day) + "/" + NatStr(year)
  }

  /**
   * The three fields of `M/D/Y`: text up to the first slash, then up to the next one,
   * then the rest; the first two one or two characters long.
   */
  function SplitDate(s: string): Option<(string, string, string)> {
    var i := IndexOfChar(s, '/');
    if i < 1 || i > 2 then None
    else
      var rest := s[i + 1..];
      var j := IndexOfChar(rest, '/');
      if j < 1 || j > 2 then None
      else Some((s[..i], rest[..j], rest[j + 1..]))
  }

  /**
   * The day that month, day and year digit runs name, if the runs are digits and it
   * exists; the year parser accepts only years from 1 on.
   */
  function DateOfFields(ms: string, ds: string, ys: string): (r: JsDate)
    ensures r.Valid? ==> IsDay(r.date) && r.date.year >= 1
  {
    if !AllDigits(ms) || !AllDigits(ds) || !AllDigits(ys) || !(1 <= |ys| <= 4) then InvalidDate
    else
      var m, d, y := DigitsValue(ms), DigitsValue(ds), DigitsValue(ys);
      if 1 <= y && 1 <= m <= 12 && 1 <= d <= DaysInMonth(y, m) then Valid(CalendarDate(y, m, d))
      else InvalidDate
  }

  /**
   * `parse(s, 'MM/dd/yyyy', new Date())`: one or two month digits, a slash, one or two
   * day digits, a slash and one to four year digits, making up the whole text and
   * naming a day that exists in a year from 1 on; anything else is `Invalid Date`.
   */
  function ParseDate(s: string): (r: JsDate)
    ensures r.Valid? ==> IsDay(r.date) && r.date.year >= 1
  {
    match SplitDate(s)
    case None => InvalidDate
    case Some(f) => DateOfFields(f.0, f.1, f.2)
  }

  /** The slashes of a template text are the two it was built with. */
  lemma SplitDateText(ms: string, ds: string, ys: string)
    requires 1 <= |ms| <= 2 && 1 <= |ds| <= 2
    requires '/' !in ms && '/' !in ds
    ensures SplitDate(ms + "/" + ds + "/" + ys) == Some((ms, ds, ys))
  {
    var rest := ds + ['/'] + ys;
    assert ms + "/" + ds + "/" + ys == ms + ['/'] + rest;
    CutAt(ms, '/', rest);
    CutAt(ds, '/', ys);
  }

  /** Digit runs read back as the numbers they render. */
  lemma DateOfNatStrs(month: nat, day: nat, year: nat)
    requires |NatStr(year)| <= 4
    ensures DateOfFields(NatStr(month), NatStr(day), NatStr(year))
      == if 1 <= year && 1 <= month <= 12 && 1 <= day <= DaysInMonth(year, month)
         then Valid(CalendarDate(year, month, day)) else InvalidDate
  {
    DigitsValueOfNatStr(month);
    DigitsValueOfNatStr(day);
    DigitsValueOfNatStr(year);
  }

  /** Parsing the template text of an existing day gives that day. */
  lemma ParseDateText(month: nat, day: nat, year: nat)
    requires IsDay(CalendarDate(year, month, day)) && 1 <= year < 10000
    ensures ParseDate(DateText(month, day, year)) == Valid(CalendarDate(year, month, day))
  {
    NatStrDigits(month, 2);
    NatStrDigits(day, 2);
    NatStrDigits(year, 4);
    SplitDateText(NatStr(month), NatStr(day), NatStr(year));
    DateOfNatStrs(month, day, year);
  }

  /** Year 0 names no day: "1/1/0" is `Invalid Date`. */
  lemma YearZeroIsInvalid()
    ensures ParseDate("1/1/0") == InvalidDate
  {
    assert "1/1/0" == NatStr(1) + "/" + NatStr(1) + "/" + NatStr(0);
    SplitDateText(NatStr(1), NatStr(1), NatStr(0));
    DateOfNatStrs(1, 1, 0);
  }

  /** A text without its second slash names no day. */
  lemma OneSlashIsInvalid(month: nat, day: nat)
    ensures ParseDate(NatStr(month) + "/" + NatStr(day)) == InvalidDate
  {
    var ms, ds := NatStr(month), NatStr(day);
    var s := ms + "/" + ds;
    assert '/' !in ms && '/' !in ds;
    assert s == ms + ['/'] + ds;
    IndexOfCharAfter(ms, '/', ds);
    if 1 <= |ms| <= 2 {
      assert s[|ms| + 1..] == ds;
    }
  }

  /** A day that does not exist, such as February 29 of a common year, is `Invalid Date`. */
  lemma NoSuchDayIsInvalid(month: nat, day: nat, year: nat)
    requires 1 <= month <= 12 && 1 <= day < 100 && year < 10000
    requires day > DaysInMonth(year, month)
    ensures ParseDate(DateText(month, day, year)) == InvalidDate
  {
    NatStrDigits(month, 2);
    NatStrDigits(day, 2);
    NatStrDigits(year, 4);
    SplitDateText(NatStr(month), NatStr(day), NatStr(year));
    DateOfNatStrs(month, day, year);
  }

  // ---------------------------------------------------------------- the table

  /** The numbers of a date template `${month}/${day}/${year}`. */
  datatype DateTemplate = DateTemplate(month: nat, day: nat, year: nat)

  function TemplateText(t: DateTemplate): string {
    DateText(t.month, t.day, t.year)
  }

  /** The day a template names. */
  function DayOf(t: DateTemplate): CalendarDate {
    CalendarDate(t.year, t.month, t.day)
  }

  /** One literal of the table; `startDate` and `endDate` are the parses of its templates. */
  datatype BillingPeriod = BillingPeriod(
    id: string,
    month: string,
    billableDays: int,
    start: DateTemplate,
    end: DateTemplate)

  /** `startDate: parse(template, 'MM/dd/yyyy', new Date())`. */
  function StartDate(p: BillingPeriod): JsDate {
    ParseDate(TemplateText(p.start))
  }

  /** `endDate: parse(template, 'MM/dd/yyyy', new Date())`. */
  function EndDate(p: BillingPeriod): JsDate {
    ParseDate(TemplateText(p.end))
  }

  /** `billingPeriods`. */
  const Periods: seq<BillingPeriod> := [
    BillingPeriod("jan-2025", "January", 23, DateTemplate(12, 27, BillingYear - 1), DateTemplate(1, 28, BillingYear)),
    BillingPeriod("feb-2025", "February", 20, DateTemplate(1, 29, BillingYear), DateTemplate(2, 25, BillingYear)),
    BillingPeriod("mar-2025", "March", 21, DateTemplate(2, 26, BillingYear), DateTemplate(3, 26, BillingYear)),
    BillingPeriod("apr-2025", "April", 22, DateTemplate(3, 27, BillingYear), DateTemplate(4, 25, BillingYear)),
    BillingPeriod("may-2025", "May", 22, DateTemplate(4, 28, BillingYear), DateTemplate(5, 27, BillingYear)),
    BillingPeriod("jun-2025", "June", 21, DateTemplate(5, 28, BillingYear), DateTemplate(6, 25, BillingYear)),
    BillingPeriod("jul-2025", "July", 23, DateTemplate(6, 26, BillingYear), DateTemplate(7, 28, BillingYear)),
    BillingPeriod("aug-2025", "August", 21, DateTemplate(7, 29, BillingYear), DateTemplate(8, 26, BillingYear)),
    BillingPeriod("sep-2025", "September", 22, DateTemplate(8, 27, BillingYear), DateTemplate(9, 25, BillingYear)),
    BillingPeriod("oct-2025", "October", 23, DateTemplate(9, 26, BillingYear), DateTemplate(10, 28, BillingYear)),
    BillingPeriod("nov-2025", "November", 20, DateTemplate(10, 29, BillingYear), DateTemplate(11, 25, BillingYear)),
    BillingPeriod("dec-2025", "December", 23, DateTemplate(11, 26, BillingYear), DateTemplate(12, 26, BillingYear))
  ]

  const MonthNames: seq<string> := [
    "January", "February", "March", "April", "May", "June",
    "July", "August", "September", "October", "November", "December"]

  /** Every template of the table names an existing day, so every date parses to it. */
  lemma TableDates()
    ensures forall i :: 0 <= i < |Periods| ==>
      StartDate(Periods[i]) == Valid(DayOf(Periods[i].start))
      && EndDate(Periods[i]) == Valid(DayOf(Periods[i].end))
  {
    forall i | 0 <= i < |Periods|
      ensures StartDate(Periods[i]) == Valid(DayOf(Periods[i].start))
      ensures EndDate(Periods[i]) == Valid(DayOf(Periods[i].end))
    {
      var p := Periods[i];
      assert IsDay(DayOf(p.start)) && IsDay(DayOf(p.end));
      ParseDateText(p.start.month, p.start.day, p.start.year);
      ParseDateText(p.end.month, p.end.day, p.end.year);
    }
  }

  /** There are twelve periods with distinct ids, one per month, January to December. */
  lemma TableShape()
    ensures |Periods| == 12
    ensures forall i, j :: 0 <= i < j < |Periods| ==> Periods[i].id != Periods[j].id
    ensures forall i :: 0 <= i < |Periods| ==> Periods[i].month == MonthNames[i]
    ensures forall i :: 0 <= i < |Periods| ==> 20 <= Periods[i].billableDays <= 23
  {
    forall i, j | 0 <= i < j < |Periods| ensures Periods[i].id != Periods[j].id {
      IdsNameMonths();
    }
  }

  /** The month an id's three-letter prefix names, counted from 0 for January. */
  function MonthOfId(id: string): int {
    if |id| < 3 then -1
    else
      var p := (id[0], id[1], id[2]);
      if p == ('j', 'a', 'n') then 0 else if p == ('f', 'e', 'b') then 1
      else if p == ('m', 'a', 'r') then 2 else if p == ('a', 'p', 'r') then 3
      else if p == ('m', 'a', 'y') then 4 else if p == ('j', 'u', 'n') then 5
      else if p == ('j', 'u', 'l') then 6 else if p == ('a', 'u', 'g') then 7
      else if p == ('s', 'e', 'p') then 8 else if p == ('o', 'c', 't') then 9
      else if p == ('n', 'o', 'v') then 10 else if p == ('d', 'e', 'c') then 11
      else -1
  }

  /** Each period's id names its own month. */
  lemma IdsNameMonths()
    ensures forall i :: 0 <= i < |Periods| ==> MonthOfId(Periods[i].id) == i
  {
  }

  /** The table's templates in order: each period's first day not after its last, and after the previous one's last. */
  lemma TemplatesInOrder()
    ensures forall i :: 0 <= i < |Periods| ==> NotAfter(DayOf(Periods[i].start), DayOf(Periods[i].end))
    ensures forall i :: 0 < i < |Periods| ==> Before(DayOf(Periods[i - 1].end), DayOf(Periods[i].start))
  {
  }

  /** Every period's first day is on or before its last day. */
  lemma StartNotAfterEnd()
    ensures forall i :: 0 <= i < |Periods| ==>
      StartDate(Periods[i]).Valid? && EndDate(Periods[i]).Valid?
      && NotAfter(StartDate(Periods[i]).date, EndDate(Periods[i]).date)
  {
    TableDates();
    TemplatesInOrder();
  }

  /** Period `p` has ended before period `q` starts. */
  predicate EndsBefore(p: BillingPeriod, q: BillingPeriod) {
    EndDate(p).Valid? && StartDate(q).Valid? && Before(EndDate(p).date, StartDate(q).date)
  }

  /** Each period starts after the previous one ends. */
  lemma Ascending()
    ensures forall i :: 0 < i < |Periods| ==> EndsBefore(Periods[i - 1], Periods[i])
  {
    TableDates();
    TemplatesInOrder();
  }

  lemma BeforeNotAfter(a: CalendarDate, b: CalendarDate, c: CalendarDate)
    requires Before(a, b) && NotAfter(b, c)
    ensures Before(a, c)
  {
  }

  /** A period ends before any later period starts. */
  lemma EndsBeforeLaterStarts(i: nat, j: nat)
    requires i < j < |Periods|
    ensures EndsBefore(Periods[i], Periods[j])
  {
    Ascending();
    StartNotAfterEnd();
    ChainBefore(Periods, FirstDay, LastDay, i, j);
  }

  /** The parsed first day of a period (a placeholder day for a text that does not parse). */
  function FirstDay(p: BillingPeriod): CalendarDate {
    var d := StartDate(p);
    if d.Valid? then d.date else CalendarDate(0, 1, 1)
  }

  /** The parsed last day of a period (a placeholder day for a text that does not parse). */
  function LastDay(p: BillingPeriod): CalendarDate {
    var d := EndDate(p);
    if d.Valid? then d.date else CalendarDate(0, 1, 1)
  }

  /**
   * Spans from `first(p)` to `last(p)` in a row, each ending before the next begins:
   * a span ends before every later one begins.
   */
  lemma {:induction false} ChainBefore<T>(ps: seq<T>, first: T -> CalendarDate, last: T -> CalendarDate, i: nat, j: nat)
    requires i < j < |ps|
    requires forall k :: 0 <= k < |ps| ==> NotAfter(first(ps[k]), last(ps[k]))
    requires forall k :: 0 < k < |ps| ==> Before(last(ps[k - 1]), first(ps[k]))
    ensures Before(last(ps[i]), first(ps[j]))
  {
    if j > i + 1 {
      ChainBefore(ps, first, last, i, j - 1);
      BeforeNotAfter(last(ps[i]), first(ps[j - 1]), last(ps[j - 1]));
    }
  }

  /** Whether day `d` lies in period `p`: on or after its start, on or before its end. */
  predicate InPeriod(p: BillingPeriod, d: CalendarDate) {
    StartDate(p).Valid? && EndDate(p).Valid?
    && NotAfter(StartDate(p).date, d) && NotAfter(d, EndDate(p).date)
  }

  /** The periods do not overlap: no day lies in two of them. */
  lemma NoOverlap(d: CalendarDate, i: nat, j: nat)
    requires i < |Periods| && j < |Periods|
    requires InPeriod(Periods[i], d) && InPeriod(Periods[j], d)
    ensures i == j
  {
    if i < j {
      EndsBeforeLaterStarts(i, j);
    } else if j < i {
      EndsBeforeLaterStarts(j, i);
    }
  }

  /** Each template's day is the day after the previous period's last, except for May's. */
  lemma TemplatesFollow()
    ensures forall i :: 0 <= i < |Periods| - 1 && i != 3 ==>
      IsDay(DayOf(Periods[i].end)) && DayOf(Periods[i + 1].start) == NextDay(DayOf(Periods[i].end))
    ensures DayOf(Periods[3].end) == CalendarDate(2025, 4, 25)
    ensures DayOf(Periods[4].start) == CalendarDate(2025, 4, 28)
    ensures DayOf(Periods[11].end) == CalendarDate(2025, 12, 26)
  {
  }

  /** The table's templates name days of `BILLING_YEAR`, except January's first day. */
  lemma TemplateYears()
    ensures Periods[0].start == DateTemplate(12, 27, BillingYear - 1)
    ensures forall i :: 0 < i < |Periods| ==> Periods[i].start.year == BillingYear
    ensures forall i :: 0 <= i < |Periods| ==> Periods[i].end.year == BillingYear
  {
  }

  lemma AprilGapIsWeekend()
    ensures Weekday(CalendarDate(2025, 4, 26)) == 5 && Weekday(CalendarDate(2025, 4, 27)) == 6
  {
  }

  /** Period `q` starts on the day after period `p` ends. */
  predicate FollowsOn(p: BillingPeriod, q: BillingPeriod) {
    EndDate(p).Valid? && StartDate(q) == Valid(NextDay(EndDate(p).date))
  }

  /** Every period but May's starts on the day after the previous one ends. */
  lemma Contiguous()
    ensures forall i :: 0 <= i < |Periods| - 1 && i != 3 ==> FollowsOn(Periods[i], Periods[i + 1])
  {
    TableDates();
    TemplatesFollow();
  }

  /**
   * The only days no period covers are 26 and 27 April, between April's period and
   * May's: a Saturday and a Sunday.
   */
  lemma AprilGap()
    ensures !FollowsOn(Periods[3], Periods[4])
    ensures EndDate(Periods[3]).Valid? && StartDate(Periods[4]).Valid?
      && var gap1 := NextDay(EndDate(Periods[3]).date);
         var gap2 := NextDay(gap1);
         StartDate(Periods[4]).date == NextDay(gap2) && Weekday(gap1) == 5 && Weekday(gap2) == 6
  {
    TableDates();
    TemplatesFollow();
    AprilGapIsWeekend();
    assert EndDate(Periods[3]) == Valid(CalendarDate(2025, 4, 25));
    assert StartDate(Periods[4]) == Valid(CalendarDate(2025, 4, 28));
  }

  /** December's period ends the day before the next billing year's January period would start. */
  lemma YearWraps()
    ensures EndDate(Periods[11]).Valid?
      && NextDay(EndDate(Periods[11]).date) == CalendarDate(GetBillingYear(), 12, 27)
  {
    assert Periods[11].end == DateTemplate(12, 26, 2025);
    ParseDateText(12, 26, 2025);
    assert NextDay(CalendarDate(2025, 12, 26)) == CalendarDate(2025, 12, 27);
  }

  /**
   * January's period starts on 27 December of the year before `BILLING_YEAR`; every
   * other date of the table lies in `BILLING_YEAR`.
   */
  lemma YearBounds()
    ensures StartDate(Periods[0]) == Valid(CalendarDate(GetBillingYear() - 1, 12, 27))
    ensures forall i :: 0 < i < |Periods| ==>
      StartDate(Periods[i]).Valid? && StartDate(Periods[i]).date.year == GetBillingYear()
    ensures forall i :: 0 <= i < |Periods| ==>
      EndDate(Periods[i]).Valid? && EndDate(Periods[i]).date.year == GetBillingYear()
  {
    TableDates();
    TemplateYears();
  }

  /** `setExpectedHours(billableDays * 8)`: eight hours per billable day. */
  function ExpectedHours(billableDays: int): (h: int)
    ensures h / 8 == billableDays && h % 8 == 0
  {
    billableDays * 8
  }

  /** Every period's target is between 160 and 184 hours. */
  lemma TargetsInRange()
    ensures forall i :: 0 <= i < |Periods| ==> 160 <= ExpectedHours(Periods[i].billableDays) <= 184
  {
    TableShape();
  }

  /** The first day of the billing year, 27 December 2024, was a Friday. */
  lemma FirstDayIsFriday()
    ensures Weekday(CalendarDate(2024, 12, 27)) == 4
  {
  }

  /**
   * Every period's `billableDays` is the number of days from Monday to Friday between
   * its first and last day, both included; public holidays are not subtracted.
   */
  lemma BillableDaysAreWeekdays()
    ensures forall i :: 0 <= i < |Periods| ==>
      StartDate(Periods[i]).Valid? && EndDate(Periods[i]).Valid?
      && Periods[i].billableDays
         == CountWeekdays(DayNumber(StartDate(Periods[i]).date), DayNumber(EndDate(Periods[i]).date))
  {
    TableDates();
    TemplateWeekdays();
  }

  lemma TemplateWeekdays()
    ensures forall i :: 0 <= i < |Periods| ==>
      Periods[i].billableDays
      == CountWeekdays(DayNumber(DayOf(Periods[i].start)), DayNumber(DayOf(Periods[i].end)))
  {
    forall i | 0 <= i < |Periods|
      ensures Periods[i].billableDays
        == CountWeekdays(DayNumber(DayOf(Periods[i].start)), DayNumber(DayOf(Periods[i].end)))
    {
      TemplateWeekdaysOf(i);
    }
  }

  lemma TemplateWeekdaysOf(i: nat)
    requires i < |Periods|
    ensures Periods[i].billableDays
      == CountWeekdays(DayNumber(DayOf(Periods[i].start)), DayNumber(DayOf(Periods[i].end)))
  {
    if i < 3 {
      WeekdaysFirstQuarter(i);
    } else if i < 6 {
      WeekdaysSecondQuarter(i);
    } else if i < 9 {
      WeekdaysThirdQuarter(i);
    } else {
      WeekdaysFourthQuarter(i);
    }
  }

  /** The weekday counts of January to March, from the day numbers of their templates. */
  lemma WeekdaysFirstQuarter(i: nat)
    requires 0 <= i < 3
    ensures Periods[i].billableDays
      == CountWeekdays(DayNumber(DayOf(Periods[i].start)), DayNumber(DayOf(Periods[i].end)))
  {
    if i == 0 {
      JanuaryWeekdays();
    } else if i == 1 {
      FebruaryWeekdays();
    } else {
      MarchWeekdays();
    }
  }

  /** The weekday counts of April to June. */
  lemma WeekdaysSecondQuarter(i: nat)
    requires 3 <= i < 6
    ensures Periods[i].billableDays
      == CountWeekdays(DayNumber(DayOf(Periods[i].start)), DayNumber(DayOf(Periods[i].end)))
  {
    if i == 3 {
      AprilWeekdays();
    } else if i == 4 {
      MayWeekdays();
    } else {
      JuneWeekdays();
    }
  }

  /** The weekday counts of July to September. */
  lemma WeekdaysThirdQuarter(i: nat)
    requires 6 <= i < 9
    ensures Periods[i].billableDays
      == CountWeekdays(DayNumber(DayOf(Periods[i].start)), DayNumber(DayOf(Periods[i].end)))
  {
    if i == 6 {
      JulyWeekdays();
    } else if i == 7 {
      AugustWeekdays();
    } else {
      SeptemberWeekdays();
    }
  }

  /** The weekday counts of October to December. */
  lemma WeekdaysFourthQuarter(i: nat)
    requires 9 <= i < 12
    ensures Periods[i].billableDays
      == CountWeekdays(DayNumber(DayOf(Periods[i].start)), DayNumber(DayOf(Periods[i].end)))
  {
    if i == 9 {
      OctoberWeekdays();
    } else if i == 10 {
      NovemberWeekdays();
    } else {
      DecemberWeekdays();
    }
  }

  /** The day numbers the table's templates need: the year starts and the month starts. */
  lemma CalendarOfBillingYear()
    ensures DaysBeforeYear(BillingYear - 1) == 738885 && DaysBeforeYear(BillingYear) == 739251
    ensures DaysBeforeMonth(BillingYear - 1, 12) == 335
    ensures DaysBeforeMonth(BillingYear, 1) == 0 && DaysBeforeMonth(BillingYear, 2) == 31
    ensures DaysBeforeMonth(BillingYear, 3) == 59 && DaysBeforeMonth(BillingYear, 4) == 90
    ensures DaysBeforeMonth(BillingYear, 5) == 120 && DaysBeforeMonth(BillingYear, 6) == 151
    ensures DaysBeforeMonth(BillingYear, 7) == 181 && DaysBeforeMonth(BillingYear, 8) == 212
    ensures DaysBeforeMonth(BillingYear, 9) == 243 && DaysBeforeMonth(BillingYear, 10) == 273
    ensures DaysBeforeMonth(BillingYear, 11) == 304 && DaysBeforeMonth(BillingYear, 12) == 334
  {
  }

  /** A period whose templates fall on day numbers `a` and `b` counts the weekdays from `a` to `b`. */
  lemma PeriodWeekdays(i: nat, a: int, b: int)
    requires i < |Periods|
    requires DayNumber(DayOf(Periods[i].start)) == a && DayNumber(DayOf(Periods[i].end)) == b
    requires a <= b + 1 && Periods[i].billableDays == WeekdaysBelow(b + 1) - WeekdaysBelow(a)
    ensures Periods[i].billableDays
      == CountWeekdays(DayNumber(DayOf(Periods[i].start)), DayNumber(DayOf(Periods[i].end)))
  {
    CountWeekdaysClosed(a, b);
  }

  lemma JanuaryWeekdays()
    ensures Periods[0].billableDays
      == CountWeekdays(DayNumber(DayOf(Periods[0].start)), DayNumber(DayOf(Periods[0].end)))
  {
    CalendarOfBillingYear();
    PeriodWeekdays(0, 739246, 739278);
  }

  lemma FebruaryWeekdays()
    ensures Periods[1].billableDays
      == CountWeekdays(DayNumber(DayOf(Periods[1].start)), DayNumber(DayOf(Periods[1].end)))
  {
    CalendarOfBillingYear();
    PeriodWeekdays(1, 739279, 739306);
  }

  lemma MarchWeekdays()
    ensures Periods[2].billableDays
      == CountWeekdays(DayNumber(DayOf(Periods[2].start)), DayNumber(DayOf(Periods[2].end)))
  {
    CalendarOfBillingYear();
    PeriodWeekdays(2, 739307, 739335);
  }

  lemma AprilWeekdays()
    ensures Periods[3].billableDays
      == CountWeekdays(DayNumber(DayOf(Periods[3].start)), DayNumber(DayOf(Periods[3].end)))
  {
    CalendarOfBillingYear();
    PeriodWeekdays(3, 739336, 739365);
  }

  lemma MayWeekdays()
    ensures Periods[4].billableDays
      == CountWeekdays(DayNumber(DayOf(Periods[4].start)), DayNumber(DayOf(Periods[4].end)))
  {
    CalendarOfBillingYear();
    PeriodWeekdays(4, 739368, 739397);
  }

  lemma JuneWeekdays()
    ensures Periods[5].billableDays
      == CountWeekdays(DayNumber(DayOf(Periods[5].start)), DayNumber(DayOf(Periods[5].end)))
  {
    CalendarOfBillingYear();
    PeriodWeekdays(5, 739398, 739426);
  }

  lemma JulyWeekdays()
    ensures Periods[6].billableDays
      == CountWeekdays(DayNumber(DayOf(Periods[6].start)), DayNumber(DayOf(Periods[6].end)))
  {
    CalendarOfBillingYear();
    PeriodWeekdays(6, 739427, 739459);
  }

  lemma AugustWeekdays()
    ensures Periods[7].billableDays
      == CountWeekdays(DayNumber(DayOf(Periods[7].start)), DayNumber(DayOf(Periods[7].end)))
  {
    CalendarOfBillingYear();
    PeriodWeekdays(7, 739460, 739488);
  }

  lemma SeptemberWeekdays()
    ensures Periods[8].billableDays
      == CountWeekdays(DayNumber(DayOf(Periods[8].start)), DayNumber(DayOf(Periods[8].end)))
  {
    CalendarOfBillingYear();
    PeriodWeekdays(8, 739489, 739518);
  }

  lemma OctoberWeekdays()
    ensures Periods[9].billableDays
      == CountWeekdays(DayNumber(DayOf(Periods[9].start)), DayNumber(DayOf(Periods[9].end)))
  {
    CalendarOfBillingYear();
    PeriodWeekdays(9, 739519, 739551);
  }

  lemma NovemberWeekdays()
    ensures Periods[10].billableDays
      == CountWeekdays(DayNumber(DayOf(Periods[10].start)), DayNumber(DayOf(Periods[10].end)))
  {
    CalendarOfBillingYear();
    PeriodWeekdays(10, 739552, 739579);
  }

  lemma DecemberWeekdays()
    ensures Periods[11].billableDays
      == CountWeekdays(DayNumber(DayOf(Periods[11].start)), DayNumber(DayOf(Periods[11].end)))
  {
    CalendarOfBillingYear();
    PeriodWeekdays(11, 739580, 739610);
  }
}
