/** The month-over-month table (MonthOverMonthTable.tsx): sales grouped by
    product and then by calendar month, read off for the six months ending
    with the current one, with a per-row total, per-cell growth, the first
    ten rows shown and a totals row. The current month is a parameter. */
module MonthOverMonth {
  import opened Options
  import opened Seqs
  import opened Transactions
  import opened Grouping
  import opened Calendar
  import opened Periods

  /** `item['Cleaned Product'] || 'Unknown'`. */
  function ProductKey(t: Transaction): string {
    OrElse(t.cleanedProduct, "Unknown")
  }

  /** The month key of a sale: `YYYY-MM` of its date, "NaN-NaN" when the
      date does not parse. */
  function DateKey(t: Transaction): string {
    match t.paymentDate
    case None => InvalidMonthKey
    case Some(ym) => MonthKey(ym)
  }

  /** A sale's month key names month `ym` exactly when the sale is dated in
      `ym`. */
  lemma {:induction false} DateKeyMatches(t: Transaction, ym: YearMonth)
    ensures DateKey(t) == MonthKey(ym) <==> t.paymentDate == Some(ym)
  {
    MonthKeyIsValid(ym);
    if t.paymentDate.Some? {
      MonthKeyInjective(t.paymentDate.value, ym);
    }
  }

  /** `acc[product] = {}` for a new product. */
  function NoMonths(product: string): Groups<string, Bucket> {
    Groups([], map[])
  }

  /** `monthlyData`: product -> month key -> bucket, products in first-seen
      order. */
  function MonthlyData(xs: seq<Transaction>): Groups<string, Groups<string, Bucket>> {
    GroupBy(xs, ProductKey, NoMonths, AccumulateInto(DateKey, NewBucket, AddToBucket))
  }

  /** `Object.keys(monthlyData)`. */
  function Products(xs: seq<Transaction>): seq<string> {
    MonthlyData(xs).order
  }

  /** The rows are the products of the input, each once, in the order they
      first occur. */
  lemma {:induction false} ProductsSpec(xs: seq<Transaction>, n: nat)
    requires n <= |xs|
    ensures Distinct(Products(xs))
    ensures forall i :: 0 <= i < |xs| ==> ProductKey(xs[i]) in Products(xs)
    ensures forall p :: p in Products(xs) <==> exists i :: 0 <= i < |xs| && ProductKey(xs[i]) == p
    ensures Products(xs[..n]) <= Products(xs)
  {
    GroupBySpec(xs, ProductKey, NoMonths, AccumulateInto(DateKey, NewBucket, AddToBucket));
    KeysCovered(xs, ProductKey, NoMonths, AccumulateInto(DateKey, NewBucket, AddToBucket));
    GroupOrderExtends(xs, n, ProductKey, NoMonths, AccumulateInto(DateKey, NewBucket, AddToBucket));
    forall p | p in Products(xs) ensures exists i :: 0 <= i < |xs| && ProductKey(xs[i]) == p {
      var s := Select(xs, ProductKey, p);
      assert s != [];
      SelectMembership(xs, ProductKey, p, s[0]);
      var i :| 0 <= i < |xs| && xs[i] == s[0];
    }
  }

  predicate InCell(t: Transaction, product: string, ym: YearMonth) {
    ProductKey(t) == product && t.paymentDate == Some(ym)
  }

  function CellTest(product: string, ym: YearMonth): Transaction -> bool {
    t => InCell(t, product, ym)
  }

  /** The sales of one product dated in month `ym`. */
  function CellSales(xs: seq<Transaction>, product: string, ym: YearMonth): seq<Transaction> {
    Filter(xs, CellTest(product, ym))
  }

  /** Looking a month up in a product's inner object gives the metric of
      exactly that product's sales in that month. */
  lemma {:induction false} CellLookup(xs: seq<Transaction>, product: string, ym: YearMonth, m: Metric)
    requires product in MonthlyData(xs).buckets
    ensures var inner := MonthlyData(xs).buckets[product];
      (if MonthKey(ym) in inner.buckets then MetricValue(inner.buckets[MonthKey(ym)], m) else 0.0)
      == CellValue(CellSales(xs, product, ym), m)
  {
    NestedGroups(xs, ProductKey, NoMonths, DateKey, NewBucket, AddToBucket, product);
    GroupBySpec(Select(xs, ProductKey, product), DateKey, NewBucket, AddToBucket);
    forall t ensures CellTest(product, ym)(t) == (ProductKey(t) == product && DateKey(t) == MonthKey(ym)) {
      DateKeyMatches(t, ym);
    }
    SelectSelect(xs, ProductKey, product, DateKey, MonthKey(ym), CellTest(product, ym));
    assert NewBucket(MonthKey(ym)) == NewBucket(0);
  }

  /** One table row: the product, its six month cells and their total. */
  datatype Row = Row(product: string, cells: seq<real>, total: real)

  /** `months`: the six month keys ending with the current month. */
  function WindowKeys(now: YearMonth): (ks: seq<string>)
    ensures |ks| == 6
  {
    seq(6, j requires 0 <= j < 6 => MonthKey(TrailingWindow(now)[j]))
  }

  /** A row for its product: cell `j` is the metric of the product's sales
      in window month `j`, and the total is the sum of the six cells. */
  ghost predicate RowFor(row: Row, xs: seq<Transaction>, now: YearMonth, m: Metric) {
    && |row.cells| == 6
    && (forall j :: 0 <= j < 6 ==>
          row.cells[j] == CellValue(CellSales(xs, row.product, TrailingWindow(now)[j]), m))
    && row.total == SumOf(row.cells, Identity)
  }

  /** What the table promises: one row per product in first-seen order, each
      a row for its product. */
  ghost predicate IsTable(rows: seq<Row>, xs: seq<Transaction>, now: YearMonth, m: Metric) {
    && |rows| == |Products(xs)|
    && (forall i :: 0 <= i < |rows| ==> rows[i].product == Products(xs)[i])
    && (forall i :: 0 <= i < |rows| ==> RowFor(rows[i], xs, now, m))
  }

  /** One product's row: each window month's cell (0 without a bucket),
      accumulated into the row total. */
  method ProductRow(xs: seq<Transaction>, now: YearMonth, m: Metric, product: string) returns (row: Row)
    requires product in MonthlyData(xs).buckets
    ensures row.product == product && |row.cells| == 6
    ensures forall j :: 0 <= j < 6 ==> row.cells[j] == CellValue(CellSales(xs, product, TrailingWindow(now)[j]), m)
    ensures row.total == SumOf(row.cells, Identity)
  {
    var window := TrailingWindow(now);
    var months := WindowKeys(now);
    var inner := MonthlyData(xs).buckets[product];
    var cells: seq<real> := [];
    var total := 0.0;
    var j := 0;
    while j < 6
      invariant 0 <= j <= 6 && |cells| == j
      invariant forall c :: 0 <= c < j ==> cells[c] == CellValue(CellSales(xs, product, window[c]), m)
      invariant total == SumOf(cells, Identity)
    {
      var v := 0.0;
      if months[j] in inner.buckets {
        v := MetricValue(inner.buckets[months[j]], m);
      }
      CellLookup(xs, product, window[j], m);
      SumOfSnoc(cells, v, Identity);
      cells := cells + [v];
      total := total + v;
      j := j + 1;
    }
    row := Row(product, cells, total);
  }

  /** `getMonthOverMonthData`: no rows for no data, otherwise one row per
      product in first-seen order. */
  method MonthOverMonthData(xs: seq<Transaction>, now: YearMonth, m: Metric) returns (rows: seq<Row>)
    ensures xs == [] ==> rows == []
    ensures IsTable(rows, xs, now, m)
  {
    rows := [];
    if |xs| == 0 {
      return;
    }
    var products := Products(xs);
    var i := 0;
    while i < |products|
      invariant 0 <= i <= |products|
      invariant |rows| == i
      invariant forall r :: 0 <= r < i ==> rows[r].product == products[r]
      invariant forall r :: 0 <= r < i ==> RowFor(rows[r], xs, now, m)
    {
      assert products[i] in MonthlyData(xs).buckets;
      var row := ProductRow(xs, now, m, products[i]);
      assert RowFor(row, xs, now, m);
      rows := rows + [row];
      i := i + 1;
    }
  }

  /** The month-over-month growth shown under each cell: none for the first
      month, then `getGrowthRate` against the month before. */
  function GrowthCells(row: Row): (gs: seq<real>)
    requires |row.cells| == 6
    ensures |gs| == 6 && gs[0] == 0.0
    ensures forall j :: 1 <= j < 6 && row.cells[j - 1] != 0.0 ==>
      row.cells[j - 1] * (1.0 + gs[j] / 100.0) == row.cells[j]
    ensures forall j :: 1 <= j < 6 && row.cells[j - 1] == 0.0 ==> gs[j] == 0.0
  {
    seq(6, j requires 0 <= j < 6 => if j == 0 then 0.0 else GrowthRate(row.cells[j], row.cells[j - 1]))
  }

  /** `slice(0, 10)`: the first ten rows, in order. */
  function Displayed(rows: seq<Row>): (shown: seq<Row>)
    ensures shown <= rows
    ensures |shown| == if |rows| < 10 then |rows| else 10
  {
    if |rows| < 10 then rows else rows[..10]
  }

  /** `item[month.key] || 0`. */
  function Cell(r: Row, j: nat): real {
    if j < |r.cells| then r.cells[j] else 0.0
  }

  function Column(j: nat): Row -> real {
    r => Cell(r, j)
  }

  function TotalOf(r: Row): real {
    r.total
  }

  /** The totals row: each month's sum over all rows (not only the ten
      shown), and the sum of the row totals. */
  function MonthTotals(rows: seq<Row>): (ts: seq<real>)
    ensures |ts| == 6
  {
    seq(6, j requires 0 <= j < 6 => SumOf(rows, Column(j)))
  }

  function GrandTotal(rows: seq<Row>): real {
    SumOf(rows, TotalOf)
  }

  lemma {:induction false} CellsAsColumns(r: Row)
    requires |r.cells| == 6
    ensures r.cells == seq(6, j requires 0 <= j < 6 => Column(j)(r))
  {
    var s := seq(6, j requires 0 <= j < 6 => Column(j)(r));
    forall j | 0 <= j < 6 ensures s[j] == r.cells[j] {
      assert Column(j)(r) == Cell(r, j);
    }
  }

  /** The grand total is the sum of the month totals (when every row total
      is the sum of its six cells). */
  lemma {:induction false} GrandTotalOfMonths(rows: seq<Row>)
    requires forall i :: 0 <= i < |rows| ==> |rows[i].cells| == 6 && rows[i].total == SumOf(rows[i].cells, Identity)
    ensures GrandTotal(rows) == SumOf(MonthTotals(rows), Identity)
    decreases |rows|
  {
    if |rows| == 0 {
      SumOfZero(MonthTotals(rows), Identity);
    } else {
      var rows' := rows[..|rows| - 1];
      var r := rows[|rows| - 1];
      GrandTotalOfMonths(rows');
      CellsAsColumns(r);
      forall j | 0 <= j < 6
        ensures Identity(MonthTotals(rows)[j]) == Identity(MonthTotals(rows')[j]) + Identity(r.cells[j])
      {
        assert rows == rows' + [r];
        SumOfSnoc(rows', r, Column(j));
      }
      SumOfAdd(MonthTotals(rows'), r.cells, MonthTotals(rows), Identity);
    }
  }

  /** Every rendered table satisfies the totals identity. */
  lemma {:induction false} TableGrandTotal(rows: seq<Row>, xs: seq<Transaction>, now: YearMonth, m: Metric)
    requires IsTable(rows, xs, now, m)
    ensures GrandTotal(rows) == SumOf(MonthTotals(rows), Identity)
  {
    GrandTotalOfMonths(rows);
  }

  /** For the revenue metric each month total is the revenue of all sales
      dated in that month: the products partition them. */
  lemma {:induction false} RevenueMonthTotal(rows: seq<Row>, xs: seq<Transaction>, now: YearMonth, j: nat)
    requires IsTable(rows, xs, now, RevenueMetric) && j < 6
    ensures MonthTotals(rows)[j] == Revenue(MonthSales(xs, TrailingWindow(now)[j]))
  {
    var ym := TrailingWindow(now)[j];
    var ys := MonthSales(xs, ym);
    var ps := Products(xs);
    ProductsSpec(xs, 0);
    forall i | 0 <= i < |ys| ensures ProductKey(ys[i]) in ps {
      FilterMembership(xs, MonthTest(ym), ys[i]);
      var k :| 0 <= k < |xs| && xs[k] == ys[i];
    }
    Partition(ys, ProductKey, ps);
    var parts := Parts(ys, ProductKey, ps);
    forall i | 0 <= i < |rows| ensures Column(j)(rows[i]) == Revenue(parts[i]) {
      forall t ensures CellTest(ps[i], ym)(t) == (MonthTest(ym)(t) && ProductKey(t) == ps[i]) {
      }
      SelectOfFilter(xs, MonthTest(ym), ProductKey, ps[i], CellTest(ps[i], ym));
      var s := CellSales(xs, ps[i], ym);
      if s != [] {
        MetricMeaning(s, RevenueMetric);
      }
    }
    SumOfPointwise(rows, Column(j), parts, Revenue);
  }

  /** A product with no sales in the window has an all-zero row. */
  lemma {:induction false} QuietProductRow(rows: seq<Row>, xs: seq<Transaction>, now: YearMonth, m: Metric, i: nat)
    requires IsTable(rows, xs, now, m) && i < |rows|
    requires forall k, j :: 0 <= k < |xs| && 0 <= j < 6 && ProductKey(xs[k]) == rows[i].product ==>
      xs[k].paymentDate != Some(TrailingWindow(now)[j])
    ensures forall j :: 0 <= j < 6 ==> rows[i].cells[j] == 0.0
    ensures rows[i].total == 0.0
  {
    var w := TrailingWindow(now);
    forall j | 0 <= j < 6 ensures rows[i].cells[j] == 0.0 {
      var s := CellSales(xs, rows[i].product, w[j]);
      if s != [] {
        FilterMembership(xs, CellTest(rows[i].product, w[j]), s[0]);
        assert false;
      }
    }
    SumOfZero(rows[i].cells, Identity);
  }
}
