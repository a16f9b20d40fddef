/** The per-period summary the month-over-month and year-over-year tables
    keep for each (product, month) or (month, year) cell, the metrics read
    off it, and the two growth-rate formulas the views use. */
module Periods {
  import opened Options
  import opened Transactions
  import Seqs
  import opened Grouping

  /** `{ revenue, transactions, members, totalValue }`: `revenue` and
      `totalValue` receive the same additions. */
  datatype Bucket = Bucket(revenue: real, transactions: nat, members: set<Option<string>>, totalValue: real)

  function NewBucket<K>(key: K): Bucket {
    Bucket(0.0, 0, {}, 0.0)
  }

  function AddToBucket(b: Bucket, t: Transaction): Bucket {
    Bucket(b.revenue + Value(t), b.transactions + 1, b.members + {t.memberId}, b.totalValue + Value(t))
  }

  /** A bucket that has absorbed the sales `s` holds their revenue (twice),
      their count and their distinct member ids. */
  lemma {:induction false} BucketContents<K>(k: K, s: seq<Transaction>)
    ensures Fold(NewBucket(k), s, AddToBucket) == Bucket(Revenue(s), |s|, MemberIds(s), Revenue(s))
    decreases |s|
  {
    if |s| > 0 {
      var s' := s[..|s| - 1];
      var t := s[|s| - 1];
      assert s == s' + [t];
      BucketContents(k, s');
      Seqs.SumOfSnoc(s', t, Value);
      MemberIdsSnoc(s', t);
    }
  }

  /** The metric selector. The year-over-year view offers all but `Auv`. */
  datatype Metric = RevenueMetric | TransactionsMetric | MembersMetric | Atv | Auv

  /** The `switch (selectedMetric)` on one bucket. Both averages divide the
      revenue by the transaction count (the source has no unit count). */
  function MetricValue(b: Bucket, m: Metric): real {
    match m
    case RevenueMetric => b.revenue
    case TransactionsMetric => b.transactions as real
    case MembersMetric => |b.members| as real
    case Atv => if b.transactions > 0 then b.revenue / b.transactions as real else 0.0
    case Auv => if b.transactions > 0 then b.revenue / b.transactions as real else 0.0
  }

  /** What the count-like metrics mean for the non-empty sales `s` of a
      cell: their revenue, their number, and their distinct members (at
      least one, at most one per sale). */
  lemma {:induction false} MetricMeaning(s: seq<Transaction>, m: Metric)
    requires s != []
    ensures m == RevenueMetric ==> MetricValue(Fold(NewBucket(0), s, AddToBucket), m) == Revenue(s)
    ensures m == TransactionsMetric ==> MetricValue(Fold(NewBucket(0), s, AddToBucket), m) == |s| as real
    ensures m == MembersMetric ==> MetricValue(Fold(NewBucket(0), s, AddToBucket), m) == |MemberIds(s)| as real
    ensures m == MembersMetric ==> 1.0 <= MetricValue(Fold(NewBucket(0), s, AddToBucket), m) <= |s| as real
  {
    BucketContents(0, s);
    MemberCountBounds(s);
  }

  /** Both averages are the revenue per sale of the cell: times the number
      of sales they give back the revenue. */
  lemma {:induction false} AverageMeaning(s: seq<Transaction>, m: Metric)
    requires s != [] && (m == Atv || m == Auv)
    ensures MetricValue(Fold(NewBucket(0), s, AddToBucket), m) * |s| as real == Revenue(s)
  {
    BucketContents(0, s);
    AverageOfSales(s, Fold(NewBucket(0), s, AddToBucket), m);
  }

  lemma {:induction false} AverageOfSales(s: seq<Transaction>, b: Bucket, m: Metric)
    requires m == Atv || m == Auv
    requires s != [] && b == Bucket(Revenue(s), |s|, MemberIds(s), Revenue(s))
    ensures MetricValue(b, m) * |s| as real == Revenue(s)
  {
    AverageTimesCount(b, m);
  }

  lemma {:induction false} AverageTimesCount(b: Bucket, m: Metric)
    requires m == Atv || m == Auv
    requires b.transactions > 0
    ensures MetricValue(b, m) * b.transactions as real == b.revenue
  {
    assert MetricValue(b, m) == b.revenue / b.transactions as real;
    Seqs.DivTimes(b.revenue, b.transactions);
  }

  /** The members metric never exceeds the transactions metric of the same
      bucket. */
  lemma {:induction false} MembersAtMostTransactions(s: seq<Transaction>)
    ensures MetricValue(Fold(NewBucket(0), s, AddToBucket), MembersMetric)
         <= MetricValue(Fold(NewBucket(0), s, AddToBucket), TransactionsMetric)
  {
    BucketContents(0, s);
    MemberCountBounds(s);
  }

  /** A table cell: the selected metric of the sales it covers, 0 when
      there are none (no bucket for the cell). */
  function CellValue(s: seq<Transaction>, m: Metric): real {
    if s == [] then 0.0 else MetricValue(Fold(NewBucket(0), s, AddToBucket), m)
  }

  /** `getGrowthRate` of the month-over-month table: percentage change, and
      0 when the previous value is exactly 0 (a negative previous value is
      divided by). */
  function GrowthRate(current: real, previous: real): (g: real)
    ensures previous != 0.0 ==> previous * (1.0 + g / 100.0) == current
    ensures previous == 0.0 ==> g == 0.0
  {
    if previous == 0.0 then 0.0 else ((current - previous) / previous) * 100.0
  }

  /** The growth formula of the KPI cards and the year-over-year table:
      percentage change when the previous value is positive, otherwise 0. */
  function PositiveBaseGrowth(current: real, previous: real): (g: real)
    ensures previous > 0.0 ==> previous * (1.0 + g / 100.0) == current
    ensures previous <= 0.0 ==> g == 0.0
  {
    if previous > 0.0 then ((current - previous) / previous) * 100.0 else 0.0
  }

  /** The two formulas agree on a positive base and differ on a negative
      one, where only the month-over-month rate is non-zero. On a positive
      base the rate's sign says whether the value grew. */
  lemma {:induction false} GrowthFormulasCompared(current: real, previous: real)
    ensures previous > 0.0 ==> GrowthRate(current, previous) == PositiveBaseGrowth(current, previous)
    ensures previous < 0.0 && current != previous ==>
      GrowthRate(current, previous) != 0.0 && PositiveBaseGrowth(current, previous) == 0.0
    ensures previous > 0.0 ==> (PositiveBaseGrowth(current, previous) >= 0.0 <==> current >= previous)
  {
  }
}
