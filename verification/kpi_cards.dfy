/** The headline figures (KPICards.tsx, `calculateMetrics` and the card
    list): totals, averages, distinct members and the month-on-month revenue
    growth for the current calendar month. The current month is a
    parameter. */
module KpiCards {
  import opened Options
  import opened Seqs
  import opened Transactions
  import opened Calendar
  import Periods
  import Dimensions
  import TopBottomSellers

  /** `{}` for no data, otherwise the seven computed figures
      (`conversionRate` is a constant and is not modelled). */
  datatype Metrics =
    | NoMetrics
    | Metrics(totalRevenue: real, totalTransactions: nat, uniqueMembers: nat,
              avgTransactionValue: real, revenuePerMember: real, avgUnitValue: real,
              growthRate: real)

  function CalculateMetrics(xs: seq<Transaction>, now: YearMonth): (k: Metrics)
    ensures k.NoMetrics? <==> xs == []
  {
    if |xs| == 0 then NoMetrics
    else
      MemberCountBounds(xs);
      var total := Revenue(xs);
      var n := |xs|;
      var members := |MemberIds(xs)|;
      var atv := total / n as real;
      var thisMonth := Revenue(MonthSales(xs, now));
      var lastMonth := Revenue(MonthSales(xs, PreviousMonth(now)));
      Metrics(total, n, members, atv, total / members as real, atv,
              Periods.PositiveBaseGrowth(thisMonth, lastMonth))
  }

  lemma {:induction false} MetricsFields(xs: seq<Transaction>, now: YearMonth)
    requires xs != []
    ensures 1 <= |MemberIds(xs)| <= |xs|
    ensures CalculateMetrics(xs, now).totalRevenue == Revenue(xs)
    ensures CalculateMetrics(xs, now).totalTransactions == |xs|
    ensures CalculateMetrics(xs, now).uniqueMembers == |MemberIds(xs)|
    ensures CalculateMetrics(xs, now).avgTransactionValue == Revenue(xs) / |xs| as real
    ensures CalculateMetrics(xs, now).avgUnitValue == Revenue(xs) / |xs| as real
    ensures CalculateMetrics(xs, now).revenuePerMember == Revenue(xs) / |MemberIds(xs)| as real
  {
    MemberCountBounds(xs);
  }

  /** The figures agree with each other: the average times the count gives
      the total, revenue per member times the member count gives the total,
      there are between 1 and one member per transaction, and the "unit"
      average is the transaction average. */
  lemma {:induction false} MetricsConsistent(xs: seq<Transaction>, now: YearMonth)
    requires xs != []
    ensures var k := CalculateMetrics(xs, now);
      && k.totalTransactions == |xs|
      && k.avgTransactionValue * k.totalTransactions as real == k.totalRevenue
      && k.revenuePerMember * k.uniqueMembers as real == k.totalRevenue
      && 1 <= k.uniqueMembers <= k.totalTransactions
      && k.avgUnitValue == k.avgTransactionValue
  {
    MetricsFields(xs, now);
    DivTimes(Revenue(xs), |xs|);
    DivTimes(Revenue(xs), |MemberIds(xs)|);
  }

  /** The revenue card equals the sum of the rows of any top/bottom list of
      the same sales. */
  lemma {:induction false} TotalMatchesGroupedLists(xs: seq<Transaction>, now: YearMonth, d: Dimensions.Dimension)
    requires xs != []
    ensures CalculateMetrics(xs, now).totalRevenue
         == SumOf(TopBottomSellers.SalesRows(xs, d), TopBottomSellers.TotalValueOf)
  {
    MetricsFields(xs, now);
    TopBottomSellers.SalesRowsRanked(xs, d, 0.0);
  }

  /** This month's and last month's sales are the sales dated in those
      months; no sale is in both, and last month is the calendar month just
      before (December of the previous year for January). */
  lemma {:induction false} MonthSalesSelect(xs: seq<Transaction>, now: YearMonth, t: Transaction)
    ensures t in MonthSales(xs, now) <==> t in xs && t.paymentDate == Some(now)
    ensures t in MonthSales(xs, PreviousMonth(now)) <==> t in xs && t.paymentDate == Some(PreviousMonth(now))
    ensures !(t in MonthSales(xs, now) && t in MonthSales(xs, PreviousMonth(now)))
    ensures NextMonth(PreviousMonth(now)) == now
  {
    FilterMembership(xs, MonthTest(now), t);
    FilterMembership(xs, MonthTest(PreviousMonth(now)), t);
  }

  /** The growth figure is the percentage by which this month's revenue
      differs from last month's when last month's is positive, and 0
      otherwise. */
  lemma {:induction false} GrowthMeaning(xs: seq<Transaction>, now: YearMonth)
    requires xs != []
    ensures var current := Revenue(MonthSales(xs, now));
      var last := Revenue(MonthSales(xs, PreviousMonth(now)));
      var g := CalculateMetrics(xs, now).growthRate;
      && (last > 0.0 ==> last * (1.0 + g / 100.0) == current)
      && (last <= 0.0 ==> g == 0.0)
  {
  }

  /** A card: its title, its value (`metrics.x || 0`) and its trend
      percentage. */
  datatype Card = Card(title: string, value: real, trend: real)

  /** The five cards in display order, each value `metrics.f || 0`: 0 when
      there are no metrics. A present figure is never NaN (every division is
      by a positive count), so it shows as itself. Only the first card's
      trend is computed; the other four are fixed numbers in the source. */
  function Cards(k: Metrics): (cs: seq<Card>)
    ensures |cs| == 5
  {
    if k.NoMetrics? then
      [ Card("Total Revenue", 0.0, 0.0),
        Card("Avg Transaction Value", 0.0, 8.3),
        Card("Unique Members", 0.0, 15.2),
        Card("Total Transactions", 0.0, 6.8),
        Card("Revenue per Member", 0.0, -2.1) ]
    else
      [ Card("Total Revenue", k.totalRevenue, k.growthRate),
        Card("Avg Transaction Value", k.avgTransactionValue, 8.3),
        Card("Unique Members", k.uniqueMembers as real, 15.2),
        Card("Total Transactions", k.totalTransactions as real, 6.8),
        Card("Revenue per Member", k.revenuePerMember, -2.1) ]
  }

  /** With no sales every card shows 0 and the revenue card's trend is 0. */
  lemma {:induction false} CardsWithoutSales(now: YearMonth)
    ensures forall i :: 0 <= i < 5 ==> Cards(CalculateMetrics([], now))[i].value == 0.0
    ensures Cards(CalculateMetrics([], now))[0].trend == 0.0
  {
  }

  /** With sales the cards show the revenue, the average sale, the member
      count, the sale count and the revenue per member; the revenue card's
      trend is the growth figure. */
  lemma {:induction false} CardsWithSales(xs: seq<Transaction>, now: YearMonth)
    requires xs != []
    ensures var cs := Cards(CalculateMetrics(xs, now));
      && cs[0].value == Revenue(xs)
      && cs[0].trend == CalculateMetrics(xs, now).growthRate
      && cs[1].value * |xs| as real == Revenue(xs)
      && cs[2].value == |MemberIds(xs)| as real
      && cs[3].value == |xs| as real
      && cs[4].value * |MemberIds(xs)| as real == Revenue(xs)
  {
    var k := CalculateMetrics(xs, now);
    MetricsFields(xs, now);
    MetricsConsistent(xs, now);
    var cs := Cards(k);
    assert cs[1].value == k.avgTransactionValue && cs[4].value == k.revenuePerMember;
  }
}
