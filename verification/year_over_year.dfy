/** The year-over-year table (YearOverYearTable.tsx): sales grouped by month
    name and then by year, read off for each of the twelve months in the
    current and the previous year, with the growth between them and a
    totals row. The current year is a parameter. */
module YearOverYear {
  import opened Options
  import opened Seqs
  import opened Transactions
  import opened Grouping
  import opened Calendar
  import opened Periods
  import Decimal

  /** The month name of a sale's date, "Invalid Date" when it does not
      parse. */
  function MonthNameKey(t: Transaction): string {
    match t.paymentDate
    case None => InvalidDateName
    case Some(ym) => MonthName(ym)
  }

  /** `String(year)` used as an object key; "NaN" when the date does not
      parse. */
  const InvalidYearKey: string := "NaN"

  function YearKey(t: Transaction): string {
    match t.paymentDate
    case None => InvalidYearKey
    case Some(ym) => Decimal.IntToString(ym.year)
  }

  lemma {:induction false} YearKeyIsValid(y: int)
    ensures Decimal.IntToString(y) != InvalidYearKey
  {
    var s := Decimal.IntToString(y);
    if y < 0 {
      assert s[1] == Decimal.NatToString(-y)[0];
      assert Decimal.IsDigit(s[1]);
    } else {
      assert Decimal.IsDigit(s[0]);
    }
  }

  /** A sale's two keys name month `i + 1` of year `y` exactly when the sale
      is dated in that month. */
  lemma {:induction false} KeysMatch(t: Transaction, y: int, i: nat)
    requires i < 12
    ensures MonthTest(YearMonth(y, i + 1))(t)
        == (MonthNameKey(t) == MonthNames[i] && YearKey(t) == Decimal.IntToString(y))
  {
    MonthNamesDistinct();
    YearKeyIsValid(y);
    if t.paymentDate.Some? {
      Decimal.IntToStringInjective(t.paymentDate.value.year, y);
    }
  }

  /** `acc[monthKey] = {}` for a new month name. */
  function NoYears(month: string): Groups<string, Bucket> {
    Groups([], map[])
  }

  /** `yearlyData`: month name -> year key -> bucket. */
  function YearlyData(xs: seq<Transaction>): Groups<string, Groups<string, Bucket>> {
    GroupBy(xs, MonthNameKey, NoYears, AccumulateInto(YearKey, NewBucket, AddToBucket))
  }

  /** `yearlyData[month]?.[year]` read through the metric switch: 0 without
      a bucket; `Auv` has no case in this switch, so its value stays unset
      and shows (and compares) as 0. */
  function YearCell(xs: seq<Transaction>, month: string, year: int, m: Metric): real {
    var data := YearlyData(xs);
    var key := Decimal.IntToString(year);
    if month in data.buckets && key in data.buckets[month].buckets && m != Auv then
      MetricValue(data.buckets[month].buckets[key], m)
    else 0.0
  }

  /** Each cell is the metric of exactly the sales dated in that month of
      that year. */
  lemma {:induction false} CellReference(xs: seq<Transaction>, i: nat, year: int, m: Metric)
    requires i < 12
    ensures YearCell(xs, MonthNames[i], year, m)
         == if m == Auv then 0.0 else CellValue(MonthSales(xs, YearMonth(year, i + 1)), m)
  {
    var data := YearlyData(xs);
    var name := MonthNames[i];
    var ym := YearMonth(year, i + 1);
    var key := Decimal.IntToString(year);
    forall t ensures MonthTest(ym)(t) == (MonthNameKey(t) == name && YearKey(t) == key) {
      KeysMatch(t, year, i);
    }
    if name in data.buckets {
      NestedGroups(xs, MonthNameKey, NoYears, YearKey, NewBucket, AddToBucket, name);
      GroupBySpec(Select(xs, MonthNameKey, name), YearKey, NewBucket, AddToBucket);
      SelectSelect(xs, MonthNameKey, name, YearKey, key, MonthTest(ym));
      assert NewBucket(key) == NewBucket(0);
    } else if MonthSales(xs, ym) != [] {
      var t := MonthSales(xs, ym)[0];
      FilterMembership(xs, MonthTest(ym), t);
      SelectMembership(xs, MonthNameKey, name, t);
      GroupBySpec(xs, MonthNameKey, NoYears, AccumulateInto(YearKey, NewBucket, AddToBucket));
      assert false;
    }
  }

  /** One row: the month name, the previous and current year's values and
      the growth between them. */
  datatype Row = Row(month: string, previous: real, current: real, growth: real)

  /** `getYearOverYearData`: nothing for no data, otherwise the twelve months
      in calendar order. */
  function YearOverYearData(xs: seq<Transaction>, currentYear: int, m: Metric): (rows: seq<Row>)
    ensures xs == [] ==> rows == []
    ensures xs != [] ==> |rows| == 12
    ensures forall i :: 0 <= i < |rows| ==> rows[i].month == MonthNames[i]
  {
    if |xs| == 0 then []
    else
      seq(12, i requires 0 <= i < 12 =>
        var current := YearCell(xs, MonthNames[i], currentYear, m);
        var previous := YearCell(xs, MonthNames[i], currentYear - 1, m);
        Row(MonthNames[i], previous, current, PositiveBaseGrowth(current, previous)))
  }

  lemma {:induction false} RowAt(xs: seq<Transaction>, currentYear: int, m: Metric, i: nat)
    requires xs != [] && i < 12
    ensures var current := YearCell(xs, MonthNames[i], currentYear, m);
      var previous := YearCell(xs, MonthNames[i], currentYear - 1, m);
      YearOverYearData(xs, currentYear, m)[i] == Row(MonthNames[i], previous, current, PositiveBaseGrowth(current, previous))
  {
  }

  /** Row `i` holds the metric of month `i + 1` of the previous and of the
      current year. */
  lemma {:induction false} RowMeaning(xs: seq<Transaction>, currentYear: int, m: Metric, i: nat)
    requires xs != [] && i < 12 && m != Auv
    ensures YearOverYearData(xs, currentYear, m)[i].current
         == CellValue(MonthSales(xs, YearMonth(currentYear, i + 1)), m)
    ensures YearOverYearData(xs, currentYear, m)[i].previous
         == CellValue(MonthSales(xs, YearMonth(currentYear - 1, i + 1)), m)
  {
    RowAt(xs, currentYear, m, i);
    CellReference(xs, i, currentYear, m);
    CellReference(xs, i, currentYear - 1, m);
  }

  /** `growth` is the percentage by which `current` exceeds a positive
      `previous`, and 0 when `previous` is not positive. */
  ghost predicate GrowthFrom(previous: real, current: real, growth: real) {
    && (previous > 0.0 ==> previous * (1.0 + growth / 100.0) == current)
    && (previous <= 0.0 ==> growth == 0.0)
  }

  lemma {:induction false} PositiveBaseGrowthIsGrowth(current: real, previous: real)
    ensures GrowthFrom(previous, current, PositiveBaseGrowth(current, previous))
  {
  }

  /** Each row's growth is the percentage change from the previous to the
      current year's value when the previous value is positive, and 0
      otherwise. */
  lemma {:induction false} RowGrowth(xs: seq<Transaction>, currentYear: int, m: Metric, i: nat)
    requires xs != [] && i < 12
    ensures var r := YearOverYearData(xs, currentYear, m)[i];
      GrowthFrom(r.previous, r.current, r.growth)
  {
    var r := YearOverYearData(xs, currentYear, m)[i];
    RowAt(xs, currentYear, m, i);
    PositiveBaseGrowthIsGrowth(r.current, r.previous);
  }

  /** The metric missing from this table's switch gives all-zero rows. */
  lemma {:induction false} UnsetMetricIsZero(xs: seq<Transaction>, currentYear: int, i: nat)
    requires xs != [] && i < 12
    ensures YearOverYearData(xs, currentYear, Auv)[i] == Row(MonthNames[i], 0.0, 0.0, 0.0)
  {
  }

  /** Per cell, the members value never exceeds the transactions value. */
  lemma {:induction false} MembersWithinTransactions(xs: seq<Transaction>, currentYear: int, i: nat)
    requires xs != [] && i < 12
    ensures YearOverYearData(xs, currentYear, MembersMetric)[i].current
         <= YearOverYearData(xs, currentYear, TransactionsMetric)[i].current
    ensures YearOverYearData(xs, currentYear, MembersMetric)[i].previous
         <= YearOverYearData(xs, currentYear, TransactionsMetric)[i].previous
  {
    CellReference(xs, i, currentYear, MembersMetric);
    CellReference(xs, i, currentYear, TransactionsMetric);
    CellReference(xs, i, currentYear - 1, MembersMetric);
    CellReference(xs, i, currentYear - 1, TransactionsMetric);
    MembersAtMostTransactions(MonthSales(xs, YearMonth(currentYear, i + 1)));
    MembersAtMostTransactions(MonthSales(xs, YearMonth(currentYear - 1, i + 1)));
  }

  lemma {:induction false} CellIgnores(xs: seq<Transaction>, t: Transaction, i: nat, year: int, m: Metric)
    requires i < 12 && t.paymentDate != Some(YearMonth(year, i + 1))
    ensures YearCell(xs + [t], MonthNames[i], year, m) == YearCell(xs, MonthNames[i], year, m)
  {
    var ym := YearMonth(year, i + 1);
    FilterSnoc(xs, t, MonthTest(ym));
    assert !MonthTest(ym)(t);
    assert MonthSales(xs + [t], ym) == MonthSales(xs, ym);
    CellReference(xs + [t], i, year, m);
    CellReference(xs, i, year, m);
  }

  /** A sale dated outside the two years shown (or not dated at all) does
      not change the table. */
  lemma {:induction false} OtherYearsIgnored(xs: seq<Transaction>, t: Transaction, currentYear: int, m: Metric)
    requires xs != []
    requires t.paymentDate.Some? ==>
      t.paymentDate.value.year != currentYear && t.paymentDate.value.year != currentYear - 1
    ensures YearOverYearData(xs + [t], currentYear, m) == YearOverYearData(xs, currentYear, m)
  {
    var a := YearOverYearData(xs + [t], currentYear, m);
    var b := YearOverYearData(xs, currentYear, m);
    forall i | 0 <= i < 12 ensures a[i] == b[i] {
      CellIgnores(xs, t, i, currentYear, m);
      CellIgnores(xs, t, i, currentYear - 1, m);
      RowAt(xs + [t], currentYear, m, i);
      RowAt(xs, currentYear, m, i);
    }
  }

  function CurrentOf(r: Row): real {
    r.current
  }

  function PreviousOf(r: Row): real {
    r.previous
  }

  /** The totals row: both column sums and the growth between them, by the
      same positive-base rule as the rows. */
  datatype Totals = Totals(previous: real, current: real, growth: real)

  function TotalsRow(rows: seq<Row>): Totals {
    var current := SumOf(rows, CurrentOf);
    var previous := SumOf(rows, PreviousOf);
    Totals(previous, current, PositiveBaseGrowth(current, previous))
  }

  function YearTest(y: int): Transaction -> bool {
    (t: Transaction) => t.paymentDate.Some? && t.paymentDate.value.year == y
  }

  /** The sales dated in year `y`. */
  function YearSales(xs: seq<Transaction>, y: int): seq<Transaction> {
    Filter(xs, YearTest(y))
  }

  /** Within a year, the sales of one month name are that month's sales. */
  lemma {:induction false} YearMonthPart(xs: seq<Transaction>, y: int, i: nat)
    requires i < 12
    ensures Select(YearSales(xs, y), MonthNameKey, MonthNames[i]) == MonthSales(xs, YearMonth(y, i + 1))
  {
    var ym := YearMonth(y, i + 1);
    forall t ensures MonthTest(ym)(t) == (YearTest(y)(t) && MonthNameKey(t) == MonthNames[i]) {
      KeysMatch(t, y, i);
    }
    SelectOfFilter(xs, YearTest(y), MonthNameKey, MonthNames[i], MonthTest(ym));
  }

  /** For the revenue metric each cell is the revenue of its month. */
  lemma {:induction false} RevenueCell(xs: seq<Transaction>, currentYear: int, i: nat)
    requires xs != [] && i < 12
    ensures YearOverYearData(xs, currentYear, RevenueMetric)[i].current
         == Revenue(MonthSales(xs, YearMonth(currentYear, i + 1)))
    ensures YearOverYearData(xs, currentYear, RevenueMetric)[i].previous
         == Revenue(MonthSales(xs, YearMonth(currentYear - 1, i + 1)))
  {
    RowMeaning(xs, currentYear, RevenueMetric, i);
    var now := MonthSales(xs, YearMonth(currentYear, i + 1));
    var before := MonthSales(xs, YearMonth(currentYear - 1, i + 1));
    if now != [] {
      MetricMeaning(now, RevenueMetric);
    }
    if before != [] {
      MetricMeaning(before, RevenueMetric);
    }
  }

  /** Every sale of a year has one of the twelve month names. */
  lemma {:induction false} YearSalesNamed(xs: seq<Transaction>, y: int)
    ensures forall k :: 0 <= k < |YearSales(xs, y)| ==> MonthNameKey(YearSales(xs, y)[k]) in MonthNames
  {
    var ys := YearSales(xs, y);
    forall k | 0 <= k < |ys| ensures MonthNameKey(ys[k]) in MonthNames {
      FilterMembership(xs, YearTest(y), ys[k]);
    }
  }

  /** For the revenue metric each year's column sums to that year's
      revenue: the twelve months partition the year. */
  lemma {:induction false} RevenueYearTotals(xs: seq<Transaction>, currentYear: int)
    requires xs != []
    ensures SumOf(YearOverYearData(xs, currentYear, RevenueMetric), CurrentOf) == Revenue(YearSales(xs, currentYear))
    ensures SumOf(YearOverYearData(xs, currentYear, RevenueMetric), PreviousOf) == Revenue(YearSales(xs, currentYear - 1))
  {
    var rows := YearOverYearData(xs, currentYear, RevenueMetric);
    MonthNamesDistinct();
    YearSalesNamed(xs, currentYear);
    YearSalesNamed(xs, currentYear - 1);
    Partition(YearSales(xs, currentYear), MonthNameKey, MonthNames);
    Partition(YearSales(xs, currentYear - 1), MonthNameKey, MonthNames);
    var now := Parts(YearSales(xs, currentYear), MonthNameKey, MonthNames);
    var before := Parts(YearSales(xs, currentYear - 1), MonthNameKey, MonthNames);
    forall i | 0 <= i < 12
      ensures CurrentOf(rows[i]) == Revenue(now[i]) && PreviousOf(rows[i]) == Revenue(before[i])
    {
      RevenueCell(xs, currentYear, i);
      YearMonthPart(xs, currentYear, i);
      YearMonthPart(xs, currentYear - 1, i);
    }
    SumOfPointwise(rows, CurrentOf, now, Revenue);
    SumOfPointwise(rows, PreviousOf, before, Revenue);
  }

  /** The overall growth is the percentage change of the current year's
      column total over the previous year's when the latter is positive. */
  lemma {:induction false} TotalsGrowth(rows: seq<Row>)
    ensures var tr := TotalsRow(rows);
      && tr.current == SumOf(rows, CurrentOf)
      && tr.previous == SumOf(rows, PreviousOf)
      && GrowthFrom(tr.previous, tr.current, tr.growth)
  {
    PositiveBaseGrowthIsGrowth(SumOf(rows, CurrentOf), SumOf(rows, PreviousOf));
  }
}
