/** The analytics section (SalesAnalyticsSection.tsx): it keeps the
    well-formed sales records of its input, summarises them per seller and
    per payment method, and falls back to a "no data" view when nothing is
    left. */
module SalesAnalytics {
  import opened Options
  import opened Seqs
  import opened Transactions
  import opened Grouping
  import opened Dimensions

  // ---------------------------------------------------------------------
  // Input sanitising (`salesData`)
  // ---------------------------------------------------------------------

  /** One element of the `data` prop: a falsy or non-object value, or an
      object that may lack the `paymentValue` or `paymentDate` property. */
  datatype RawItem = NonObject | Obj(hasPaymentValue: bool, hasPaymentDate: bool, sale: Transaction)

  /** The `data` prop: `null`, something that is not an array, or an array. */
  datatype RawData = Null | NotArray | Array(items: seq<RawItem>)

  /** An element survives when it is an object with both properties present
      (whatever their values). */
  predicate Kept(item: RawItem) {
    item.Obj? && item.hasPaymentValue && item.hasPaymentDate
  }

  function KeptSales(items: seq<RawItem>): (r: seq<Transaction>)
    ensures |r| <= |items|
    decreases |items|
  {
    if |items| == 0 then []
    else
      var rest := KeptSales(items[..|items| - 1]);
      var last := items[|items| - 1];
      if Kept(last) then rest + [last.sale] else rest
  }

  function Sanitize(data: RawData): seq<Transaction> {
    match data
    case Null => []
    case NotArray => []
    case Array(items) => KeptSales(items)
  }

  /** A sale is kept exactly when some element is an object carrying it with
      both required properties. */
  lemma {:induction false} KeptSalesMembership(items: seq<RawItem>, t: Transaction)
    ensures t in KeptSales(items) <==> exists i :: 0 <= i < |items| && items[i] == Obj(true, true, t)
    decreases |items|
  {
    if |items| > 0 {
      var init := items[..|items| - 1];
      KeptSalesMembership(init, t);
      if exists i :: 0 <= i < |init| && init[i] == Obj(true, true, t) {
        var i :| 0 <= i < |init| && init[i] == Obj(true, true, t);
        assert items[i] == init[i];
      }
      if exists i :: 0 <= i < |items| && items[i] == Obj(true, true, t) {
        var i :| 0 <= i < |items| && items[i] == Obj(true, true, t);
        if i < |init| {
          assert init[i] == items[i];
        }
      }
    }
  }

  /** Sanitising keeps the relative order of the kept sales: it distributes
      over concatenation. */
  lemma {:induction false} KeptSalesConcat(a: seq<RawItem>, b: seq<RawItem>)
    ensures KeptSales(a + b) == KeptSales(a) + KeptSales(b)
    decreases |b|
  {
    if |b| == 0 {
      assert a + b == a;
    } else {
      var b' := b[..|b| - 1];
      assert (a + b)[..|a + b| - 1] == a + b';
      KeptSalesConcat(a, b');
    }
  }

  /** `null` and non-arrays give no sales; an array keeps exactly its
      well-formed sales, none invented. */
  lemma {:induction false} SanitizeSpec(data: RawData, t: Transaction)
    ensures data.Null? || data.NotArray? ==> Sanitize(data) == []
    ensures data.Array? ==>
      (t in Sanitize(data) <==> exists i :: 0 <= i < |data.items| && data.items[i] == Obj(true, true, t))
    ensures data.Array? ==> |Sanitize(data)| <= |data.items|
  {
    if data.Array? {
      KeptSalesMembership(data.items, t);
    }
  }

  /** An array of well-formed sales only is passed through unchanged. */
  lemma {:induction false} SanitizeWellFormed(xs: seq<Transaction>)
    ensures Sanitize(Array(seq(|xs|, i requires 0 <= i < |xs| => Obj(true, true, xs[i])))) == xs
    decreases |xs|
  {
    var items := seq(|xs|, i requires 0 <= i < |xs| => Obj(true, true, xs[i]));
    if |xs| > 0 {
      var xs' := xs[..|xs| - 1];
      SanitizeWellFormed(xs');
      assert items[..|items| - 1] == seq(|xs'|, i requires 0 <= i < |xs'| => Obj(true, true, xs'[i]));
      assert xs == xs' + [xs[|xs| - 1]];
    }
  }

  // ---------------------------------------------------------------------
  // Seller and payment-method summaries
  // ---------------------------------------------------------------------

  /** The accumulator both groupers create for a new key. */
  datatype SalesAcc = SalesAcc(name: string, totalValue: real, transactions: nat,
                               members: set<Option<string>>, rawData: seq<Transaction>)

  function NewAcc(key: string): SalesAcc {
    SalesAcc(key, 0.0, 0, {}, [])
  }

  function AddSale(a: SalesAcc, t: Transaction): SalesAcc {
    a.(totalValue := a.totalValue + Value(t),
       transactions := a.transactions + 1,
       members := a.members + {t.memberId},
       rawData := a.rawData + [t])
  }

  lemma {:induction false} AccumulatorContents(k: string, s: seq<Transaction>)
    ensures Fold(NewAcc(k), s, AddSale) == SalesAcc(k, Revenue(s), |s|, MemberIds(s), s)
    decreases |s|
  {
    if |s| > 0 {
      var s' := s[..|s| - 1];
      var t := s[|s| - 1];
      assert s == s' + [t];
      AccumulatorContents(k, s');
      SumOfSnoc(s', t, Value);
      MemberIdsSnoc(s', t);
    }
  }

  /** A summary row: the accumulator with its member set reduced to a count. */
  datatype SalesRow = SalesRow(name: string, totalValue: real, transactions: nat,
                               uniqueMembers: nat, rawData: seq<Transaction>)

  function ToRow(a: SalesAcc): SalesRow {
    SalesRow(a.name, a.totalValue, a.transactions, |a.members|, a.rawData)
  }

  function Accumulated(xs: seq<Transaction>, d: Dimension): Groups<string, SalesAcc> {
    GroupBy(xs, KeyOf(d), NewAcc, AddSale)
  }

  /** The grouper shared by `soldByData` and `paymentMethodData`: one row per
      key in first-seen order. */
  function Summary(xs: seq<Transaction>, d: Dimension): (rows: seq<SalesRow>)
    ensures |rows| == |Accumulated(xs, d).order|
  {
    var vs := Values(Accumulated(xs, d));
    seq(|vs|, i requires 0 <= i < |vs| => ToRow(vs[i]))
  }

  /** `soldByData`: keyed by `soldBy`, "Unknown Seller" when falsy. */
  function SoldByData(salesData: seq<Transaction>): seq<SalesRow> {
    Summary(salesData, Seller)
  }

  /** `paymentMethodData`: keyed by `paymentMethod`, "Unknown Method" when
      falsy. */
  function PaymentMethodData(salesData: seq<Transaction>): seq<SalesRow> {
    Summary(salesData, PaymentMethod)
  }

  /** What a summary row says about the sales carrying its key. */
  ghost predicate IsSummaryRow(xs: seq<Transaction>, d: Dimension, r: SalesRow) {
    var s := Select(xs, KeyOf(d), r.name);
    && s != []
    && r.rawData == s
    && r.totalValue == Revenue(s)
    && r.transactions == |s|
    && r.uniqueMembers == |MemberIds(s)|
    && 1 <= r.uniqueMembers <= r.transactions
  }

  lemma {:induction false} SummaryRow(xs: seq<Transaction>, d: Dimension, k: string)
    requires k in Accumulated(xs, d).buckets
    ensures Accumulated(xs, d).buckets[k].name == k
    ensures IsSummaryRow(xs, d, ToRow(Accumulated(xs, d).buckets[k]))
  {
    var s := Select(xs, KeyOf(d), k);
    GroupBySpec(xs, KeyOf(d), NewAcc, AddSale);
    AccumulatorContents(k, s);
    MemberCountBounds(s);
  }

  /** Row `i` is the key seen `i`-th and summarises exactly the sales with
      that key. */
  lemma {:induction false} SummaryRows(xs: seq<Transaction>, d: Dimension)
    ensures forall i :: 0 <= i < |Summary(xs, d)| ==>
      Summary(xs, d)[i].name == Accumulated(xs, d).order[i] && IsSummaryRow(xs, d, Summary(xs, d)[i])
  {
    var g := Accumulated(xs, d);
    forall i | 0 <= i < |Summary(xs, d)|
      ensures Summary(xs, d)[i].name == g.order[i] && IsSummaryRow(xs, d, Summary(xs, d)[i])
    {
      assert g.order[i] in g.buckets;
      SummaryRow(xs, d, g.order[i]);
    }
  }

  function RowName(r: SalesRow): string {
    r.name
  }

  function RowSales(r: SalesRow): seq<Transaction> {
    r.rawData
  }

  function TotalValueOf(r: SalesRow): real {
    r.totalValue
  }

  /** One row per distinct key: no name twice, and every sale's key (its
      seller, or "Unknown Seller"; its method, or "Unknown Method") names a
      row. */
  lemma {:induction false} SummaryKeys(xs: seq<Transaction>, d: Dimension)
    ensures Distinct(Map(Summary(xs, d), RowName))
    ensures forall i :: 0 <= i < |xs| ==> GroupKey(xs[i], d) in Map(Summary(xs, d), RowName)
  {
    SummaryRows(xs, d);
    assert Map(Summary(xs, d), RowName) == Accumulated(xs, d).order;
    KeysCovered(xs, KeyOf(d), NewAcc, AddSale);
    forall i | 0 <= i < |xs| ensures GroupKey(xs[i], d) in Map(Summary(xs, d), RowName) {
      assert KeyOf(d)(xs[i]) in Accumulated(xs, d).order;
    }
  }

  /** The rows' sales together are the input sales, each exactly once, so
      the row totals add up to the input total. */
  lemma {:induction false} SummaryPartitions(xs: seq<Transaction>, d: Dimension)
    ensures multiset(Flatten(Map(Summary(xs, d), RowSales))) == multiset(xs)
    ensures SumOf(Summary(xs, d), TotalValueOf) == Revenue(xs)
  {
    var rows := Summary(xs, d);
    var ps := Parts(xs, KeyOf(d), Accumulated(xs, d).order);
    SummaryRows(xs, d);
    assert Map(rows, RowSales) == ps;
    GroupsPartition(xs, KeyOf(d), NewAcc, AddSale);
    forall i | 0 <= i < |rows| ensures TotalValueOf(rows[i]) == Revenue(ps[i]) {
      assert rows[i].rawData == ps[i];
    }
    SumOfPointwise(rows, TotalValueOf, ps, Revenue);
  }

  // ---------------------------------------------------------------------
  // The section outcome
  // ---------------------------------------------------------------------

  /** What the section renders: the "no sales data" message, or the tabs
      fed with the sanitised sales and the two summaries. */
  datatype Section =
    | NoData
    | Dashboard(salesData: seq<Transaction>, soldBy: seq<SalesRow>, paymentMethods: seq<SalesRow>)

  function Render(data: RawData): Section {
    var salesData := Sanitize(data);
    if |salesData| == 0 then NoData
    else Dashboard(salesData, SoldByData(salesData), PaymentMethodData(salesData))
  }

  /** The message appears exactly when no element of the input is a
      well-formed sale; otherwise both summaries are non-empty. */
  lemma {:induction false} RenderSpec(data: RawData)
    ensures Render(data).NoData? <==>
      !data.Array? || forall i :: 0 <= i < |data.items| ==> !Kept(data.items[i])
    ensures Render(data).Dashboard? ==>
      Render(data).salesData == Sanitize(data) && |Render(data).soldBy| >= 1 && |Render(data).paymentMethods| >= 1
  {
    if data.Array? {
      var items := data.items;
      if exists i :: 0 <= i < |items| && Kept(items[i]) {
        var i :| 0 <= i < |items| && Kept(items[i]);
        KeptSalesMembership(items, items[i].sale);
        assert items[i] == Obj(true, true, items[i].sale);
      } else if |Sanitize(data)| > 0 {
        KeptSalesMembership(items, Sanitize(data)[0]);
        assert false;
      }
    }
    if Render(data).Dashboard? {
      var xs := Render(data).salesData;
      SummaryKeys(xs, Seller);
      SummaryKeys(xs, PaymentMethod);
    }
  }
}
