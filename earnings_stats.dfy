/**
 * The earnings card: hours logged in the selected range and what they earn in US
 * dollars and, converted, in Dominican pesos.
 */
module EarningsStats {
  import opened Entries
  import opened Grouping
  import TimeStats
  import opened JsValues

  /** The three numbers of the card; it shows each with two decimals. */
  datatype Earnings = Earnings(hours: real, usd: real, dop: real)

  /**
   * The `earnings` memo: hours added entry by entry, dollars at the hourly rate, pesos
   * at the exchange rate. The rates are used as given. The component itself is imported
   * by the dashboard but never rendered; the dashboard as a whole is only shown once the
   * profile has both rates.
   */
  function ComputeEarnings(es: seq<Entry>, hourlyRate: real, usdToDopRate: real): (r: Earnings)
    ensures r.hours == TotalDuration(es) as real / 3600000.0
    ensures r.usd == r.hours * hourlyRate
    ensures r.dop == r.hours * hourlyRate * usdToDopRate
    ensures es == [] ==> r == Earnings(0.0, 0.0, 0.0)
  {
    var hours := TotalHours(es);
    TotalHoursIsScaledTotal(es);
    var usd := hours * hourlyRate;
    Earnings(hours, usd, usd * usdToDopRate)
  }

  lemma HoursAdd(x: int, y: int)
    ensures (x + y) as real / 3600000.0 == x as real / 3600000.0 + y as real / 3600000.0
  {
  }

  lemma Distributes(a: real, b: real, c: real)
    ensures (a + b) * c == a * c + b * c
  {
  }

  /** The earnings of two lists of entries together are the sums of their earnings. */
  lemma EarningsAdditive(xs: seq<Entry>, ys: seq<Entry>, hourlyRate: real, usdToDopRate: real)
    ensures var both := ComputeEarnings(xs + ys, hourlyRate, usdToDopRate);
            var x := ComputeEarnings(xs, hourlyRate, usdToDopRate);
            var y := ComputeEarnings(ys, hourlyRate, usdToDopRate);
      && both.hours == x.hours + y.hours
      && both.usd == x.usd + y.usd
      && both.dop == x.dop + y.dop
  {
    SumAppend(xs, ys, DurationOf);
    var hx := TotalDuration(xs) as real / 3600000.0;
    var hy := TotalDuration(ys) as real / 3600000.0;
    HoursAdd(TotalDuration(xs), TotalDuration(ys));
    Distributes(hx, hy, hourlyRate);
    Distributes(hx * hourlyRate, hy * hourlyRate, usdToDopRate);
  }

  /**
   * The earnings card and the statistics cards agree: same hours, and with both rates
   * set, the same dollars and pesos.
   */
  lemma AgreesWithStatsCards(es: seq<Entry>, hourlyRate: real, usdToDopRate: real)
    requires es != [] && AllStarted(es)
    requires hourlyRate != 0.0 && usdToDopRate != 0.0
    ensures var e := ComputeEarnings(es, hourlyRate, usdToDopRate);
            var s := TimeStats.CalculateStats(es, TimeStats.Profile(Some(hourlyRate), Some(usdToDopRate))).value;
      && e.hours == s.totalHours
      && e.usd == s.earningsUSD
      && e.dop == s.earningsDOP
  {
  }
}
