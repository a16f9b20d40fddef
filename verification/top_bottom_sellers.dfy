/** The top/bottom performers list (TopBottomSellers.tsx): group the sales
    by a dimension, derive the ratio metrics, rank by value, then filter,
    slice and page the ranked list. */
module TopBottomSellers {
  import opened Options
  import opened Seqs
  import opened Transactions
  import opened Grouping
  import opened Dimensions
  import Ranking

  // ---------------------------------------------------------------------
  // Grouping and metrics (`getGroupedData`)
  // ---------------------------------------------------------------------

  /** The accumulator created for a key the first time it is seen. */
  datatype SellerAcc = SellerAcc(name: string, totalValue: real, unitsSold: nat, transactions: nat,
                                 members: set<Option<string>>, rawData: seq<Transaction>)

  function NewAcc(key: string): SellerAcc {
    SellerAcc(key, 0.0, 0, 0, {}, [])
  }

  /** Absorbs one sale: value (missing counts 0), one unit, one transaction,
      its member id and the sale itself. */
  function AddSale(a: SellerAcc, t: Transaction): SellerAcc {
    a.(totalValue := a.totalValue + Value(t),
       unitsSold := a.unitsSold + 1,
       transactions := a.transactions + 1,
       members := a.members + {t.memberId},
       rawData := a.rawData + [t])
  }

  /** After absorbing `s`, an accumulator holds the revenue of `s`, one unit
      and one transaction per sale, the distinct members and `s` itself. */
  lemma {:induction false} AccumulatorContents(k: string, s: seq<Transaction>)
    ensures Fold(NewAcc(k), s, AddSale) == SellerAcc(k, Revenue(s), |s|, |s|, MemberIds(s), s)
    decreases |s|
  {
    if |s| > 0 {
      var s' := s[..|s| - 1];
      var t := s[|s| - 1];
      assert s == s' + [t];
      AccumulatorContents(k, s');
      SumOfSnoc(s', t, Value);
      MemberIdsSnoc(s', t);
    }
  }

  /** A grouped row: the accumulator with its member set reduced to a count
      and the four ratio metrics filled in. */
  datatype SellerRow = SellerRow(name: string, totalValue: real, unitsSold: nat, transactions: nat,
                                 uniqueMembers: nat, atv: real, auv: real, asv: real, upt: real,
                                 rawData: seq<Transaction>)

  function TotalValueOf(r: SellerRow): real {
    r.totalValue
  }

  /** The "calculate metrics" pass. The source divides without a guard: every
      accumulator it reaches has at least one sale and one member. */
  function Finalize(a: SellerAcc): SellerRow
    requires a.transactions > 0 && a.unitsSold > 0 && |a.members| > 0
  {
    var n := |a.members|;
    SellerRow(a.name, a.totalValue, a.unitsSold, a.transactions, n,
              a.totalValue / a.transactions as real,
              a.totalValue / a.unitsSold as real,
              a.totalValue / n as real,
              a.unitsSold as real / a.transactions as real,
              a.rawData)
  }

  function Accumulated(xs: seq<Transaction>, d: Dimension): Groups<string, SellerAcc> {
    GroupBy(xs, KeyOf(d), NewAcc, AddSale)
  }

  /** Every accumulator of the grouping is the summary of the non-empty set
      of sales carrying its key. */
  lemma {:induction false} AccumulatedContents(xs: seq<Transaction>, d: Dimension, k: string)
    requires k in Accumulated(xs, d).buckets
    ensures var s := Select(xs, KeyOf(d), k);
      && s != []
      && Accumulated(xs, d).buckets[k] == SellerAcc(k, Revenue(s), |s|, |s|, MemberIds(s), s)
  {
    var s := Select(xs, KeyOf(d), k);
    GroupBySpec(xs, KeyOf(d), NewAcc, AddSale);
    AccumulatorContents(k, s);
  }

  /** What a row says about the sales `s` it summarises: their revenue; units
      equal transactions, so UPT is 1 and AUV equals ATV; the member count
      lies between 1 and the transaction count; ATV and ASV are the value per
      transaction and per member. */
  ghost predicate Summarises(r: SellerRow, s: seq<Transaction>) {
    && r.rawData == s
    && r.totalValue == Revenue(s)
    && r.unitsSold == r.transactions == |s|
    && r.uniqueMembers == |MemberIds(s)|
    && 1 <= r.uniqueMembers <= r.transactions
    && r.upt == 1.0
    && r.auv == r.atv
    && r.atv * r.transactions as real == r.totalValue
    && r.asv * r.uniqueMembers as real == r.totalValue
  }

  /** A grouped row summarises exactly the (non-empty) sales with its key. */
  ghost predicate IsGroupRow(xs: seq<Transaction>, d: Dimension, r: SellerRow) {
    && Select(xs, KeyOf(d), r.name) != []
    && Summarises(r, Select(xs, KeyOf(d), r.name))
  }

  lemma {:induction false} FinalizeSummary(k: string, s: seq<Transaction>)
    requires s != []
    ensures var a := SellerAcc(k, Revenue(s), |s|, |s|, MemberIds(s), s);
      && a.transactions > 0 && a.unitsSold > 0 && |a.members| > 0
      && Finalize(a).name == k
      && Summarises(Finalize(a), s)
  {
    MemberCountBounds(s);
    DivTimes(Revenue(s), |s|);
    DivTimes(Revenue(s), |MemberIds(s)|);
    DivSelf(|s|);
  }

  lemma {:induction false} FinalizeGroup(xs: seq<Transaction>, d: Dimension, k: string)
    requires k in Accumulated(xs, d).buckets
    ensures var a := Accumulated(xs, d).buckets[k];
      && a.transactions > 0 && a.unitsSold > 0 && |a.members| > 0
      && a.name == k
      && IsGroupRow(xs, d, Finalize(a))
  {
    var s := Select(xs, KeyOf(d), k);
    AccumulatedContents(xs, d, k);
    FinalizeSummary(k, s);
  }

  lemma {:induction false} ValuesFinalizable(xs: seq<Transaction>, d: Dimension)
    ensures forall i :: 0 <= i < |Accumulated(xs, d).order| ==>
      var a := Values(Accumulated(xs, d))[i];
      && a.transactions > 0 && a.unitsSold > 0 && |a.members| > 0
      && a.name == Accumulated(xs, d).order[i]
      && IsGroupRow(xs, d, Finalize(a))
  {
    var g := Accumulated(xs, d);
    forall i | 0 <= i < |g.order|
      ensures var a := Values(g)[i];
        && a.transactions > 0 && a.unitsSold > 0 && |a.members| > 0
        && a.name == g.order[i]
        && IsGroupRow(xs, d, Finalize(a))
    {
      assert g.order[i] in g.buckets;
      assert Values(g)[i] == g.buckets[g.order[i]];
      FinalizeGroup(xs, d, g.order[i]);
    }
  }

  /** The grouped rows in group-creation (first-seen) order, before ranking. */
  function CreationOrder(xs: seq<Transaction>, d: Dimension): (rows: seq<SellerRow>)
    ensures |rows| == |Accumulated(xs, d).order|
  {
    var g := Accumulated(xs, d);
    var vs := Values(g);
    ValuesFinalizable(xs, d);
    seq(|vs|, i requires 0 <= i < |vs| => Finalize(vs[i]))
  }

  /** One row per first-seen key, in that order, each a faithful summary of
      the sales carrying its key. */
  lemma {:induction false} CreationOrderRows(xs: seq<Transaction>, d: Dimension)
    ensures forall i :: 0 <= i < |CreationOrder(xs, d)| ==>
      CreationOrder(xs, d)[i].name == Accumulated(xs, d).order[i] && IsGroupRow(xs, d, CreationOrder(xs, d)[i])
  {
    ValuesFinalizable(xs, d);
  }

  /** `getGroupedData` for a sales dimension: the rows ranked by total value,
      largest first. */
  function SalesRows(xs: seq<Transaction>, d: Dimension): seq<SellerRow> {
    Ranking.SortDesc(CreationOrder(xs, d), TotalValueOf)
  }

  function RowSales(r: SellerRow): seq<Transaction> {
    r.rawData
  }

  function RowName(r: SellerRow): string {
    r.name
  }

  lemma {:induction false} CreationOrderNames(xs: seq<Transaction>, d: Dimension)
    ensures Map(CreationOrder(xs, d), RowName) == Accumulated(xs, d).order
  {
    CreationOrderRows(xs, d);
  }

  /** One row per key: no name appears twice, and every sale's key names a
      row. */
  lemma {:induction false} CreationOrderKeys(xs: seq<Transaction>, d: Dimension)
    ensures Distinct(Map(CreationOrder(xs, d), RowName))
    ensures forall i :: 0 <= i < |xs| ==> GroupKey(xs[i], d) in Map(CreationOrder(xs, d), RowName)
  {
    CreationOrderNames(xs, d);
    KeysCovered(xs, KeyOf(d), NewAcc, AddSale);
    forall i | 0 <= i < |xs| ensures GroupKey(xs[i], d) in Map(CreationOrder(xs, d), RowName) {
      assert KeyOf(d)(xs[i]) in Accumulated(xs, d).order;
    }
  }

  lemma {:induction false} CreationOrderRawData(xs: seq<Transaction>, d: Dimension)
    ensures Map(CreationOrder(xs, d), RowSales) == Parts(xs, KeyOf(d), Accumulated(xs, d).order)
  {
    CreationOrderRows(xs, d);
  }

  /** The rows' sales together are exactly the input sales, each once, so
      the row totals add up to the input revenue. */
  lemma {:induction false} CreationOrderPartitions(xs: seq<Transaction>, d: Dimension)
    ensures multiset(Flatten(Map(CreationOrder(xs, d), RowSales))) == multiset(xs)
    ensures SumOf(CreationOrder(xs, d), TotalValueOf) == Revenue(xs)
  {
    var rows := CreationOrder(xs, d);
    var ps := Parts(xs, KeyOf(d), Accumulated(xs, d).order);
    CreationOrderRawData(xs, d);
    GroupsPartition(xs, KeyOf(d), NewAcc, AddSale);
    forall i | 0 <= i < |rows| ensures TotalValueOf(rows[i]) == Revenue(ps[i]) {
      assert rows[i].rawData == ps[i];
      CreationOrderRows(xs, d);
    }
    SumOfPointwise(rows, TotalValueOf, ps, Revenue);
  }

  /** Ranking: the result is ordered by total value, largest first; it is a
      permutation of the grouped rows; rows of equal value keep their
      group-creation order; and the row totals add up to the input
      revenue. */
  lemma {:induction false} SalesRowsRanked(xs: seq<Transaction>, d: Dimension, v: real)
    ensures Ranking.SortedDesc(SalesRows(xs, d), TotalValueOf)
    ensures multiset(SalesRows(xs, d)) == multiset(CreationOrder(xs, d))
    ensures Ranking.Tied(SalesRows(xs, d), TotalValueOf, v) == Ranking.Tied(CreationOrder(xs, d), TotalValueOf, v)
    ensures SumOf(SalesRows(xs, d), TotalValueOf) == Revenue(xs)
  {
    var rows := CreationOrder(xs, d);
    Ranking.SortIsStable(rows, TotalValueOf, v);
    Ranking.SortPreservesSum(rows, TotalValueOf);
    CreationOrderPartitions(xs, d);
  }

  /** Every ranked row is a faithful summary of the sales carrying its key. */
  lemma {:induction false} SalesRowsSummarise(xs: seq<Transaction>, d: Dimension)
    ensures forall r :: r in SalesRows(xs, d) ==> IsGroupRow(xs, d, r)
  {
    var rows := CreationOrder(xs, d);
    CreationOrderRows(xs, d);
    forall r | r in SalesRows(xs, d) ensures IsGroupRow(xs, d, r) {
      assert multiset(SalesRows(xs, d)) == multiset(rows);
      assert r in multiset(rows);
      var i :| 0 <= i < |rows| && rows[i] == r;
    }
  }

  // ---------------------------------------------------------------------
  // The list as shown: entries, quick filter, badges, slices, paging
  // ---------------------------------------------------------------------

  /** A record of the trainers table, which the list shows as given. The
      only field read here is the `totalValue` the quick filter compares;
      trainer records normally lack it. */
  datatype TrainerRecord = TrainerRecord(trainer: string, totalValue: Option<real>)

  /** The `data` and `type` props together. */
  datatype Input = TrainerInput(records: seq<TrainerRecord>) | SalesInput(dim: Dimension, sales: seq<Transaction>)

  datatype Entry = Group(row: SellerRow) | Trainer(record: TrainerRecord)

  /** `getGroupedData`: trainer records pass through untouched; sales are
      grouped and ranked. */
  function GroupedData(input: Input): (es: seq<Entry>)
    ensures input.TrainerInput? ==> |es| == |input.records|
    ensures input.SalesInput? ==> |es| == |SalesRows(input.sales, input.dim)|
  {
    match input
    case TrainerInput(rs) => seq(|rs|, i requires 0 <= i < |rs| => Trainer(rs[i]))
    case SalesInput(d, xs) =>
      var rows := SalesRows(xs, d);
      seq(|rows|, i requires 0 <= i < |rows| => Group(rows[i]))
  }

  /** The trainer records come back one for one, in the order given. */
  lemma {:induction false} TrainersPassThrough(rs: seq<TrainerRecord>)
    ensures forall i :: 0 <= i < |rs| ==> GroupedData(TrainerInput(rs))[i] == Trainer(rs[i])
    ensures |GroupedData(TrainerInput(rs))| == |rs|
  {
  }

  /** `item.totalValue`, which is `undefined` on a trainer record without it. */
  function EntryValue(e: Entry): Option<real> {
    match e
    case Group(r) => Some(r.totalValue)
    case Trainer(t) => t.totalValue
  }

  datatype QuickFilter = All | Top | Bottom

  /** The filter callback: `undefined > 0` and `undefined === 0` are both
      false, so a missing value is neither active nor inactive. */
  predicate Keeps(f: QuickFilter, e: Entry) {
    match f
    case All => true
    case Top => EntryValue(e).Some? && EntryValue(e).value > 0.0
    case Bottom => EntryValue(e).Some? && EntryValue(e).value == 0.0
  }

  function Filtered(entries: seq<Entry>, f: QuickFilter): seq<Entry> {
    Filter(entries, e => Keeps(f, e))
  }

  /** `all` shows everything; the other filters keep exactly the entries they
      select, each as often as it occurs, in the original order. */
  lemma {:induction false} QuickFilterSelects(entries: seq<Entry>, f: QuickFilter, e: Entry)
    ensures f == All ==> Filtered(entries, f) == entries
    ensures e in Filtered(entries, f) <==> e in entries && Keeps(f, e)
    ensures multiset(Filtered(entries, f))[e] == if Keeps(f, e) then multiset(entries)[e] else 0
    ensures |Filtered(entries, f)| <= |entries|
  {
    FilterMembership(entries, e => Keeps(f, e), e);
    FilterMultiset(entries, e => Keeps(f, e), e);
    FilterLength(entries, e => Keeps(f, e));
    if f == All {
      FilterAll(entries, f);
    }
  }

  lemma {:induction false} FilterAll(entries: seq<Entry>, f: QuickFilter)
    requires f == All
    ensures Filtered(entries, f) == entries
    decreases |entries|
  {
    if |entries| > 0 {
      var e' := entries[..|entries| - 1];
      FilterAll(e', f);
      assert entries == e' + [entries[|entries| - 1]];
    }
  }

  lemma {:induction false} QuickFilterKeepsOrder(a: seq<Entry>, b: seq<Entry>, f: QuickFilter)
    ensures Filtered(a + b, f) == Filtered(a, f) + Filtered(b, f)
  {
    FilterConcat(a, b, e => Keeps(f, e));
  }

  /** Number of entries satisfying `p`, counted left to right. */
  function Count(entries: seq<Entry>, p: Entry -> bool): nat
    decreases |entries|
  {
    if |entries| == 0 then 0
    else Count(entries[..|entries| - 1], p) + (if p(entries[|entries| - 1]) then 1 else 0)
  }

  predicate Active(e: Entry) {
    EntryValue(e).Some? && EntryValue(e).value > 0.0
  }

  predicate Inactive(e: Entry) {
    EntryValue(e).Some? && EntryValue(e).value == 0.0
  }

  /** The count on each quick-filter button, computed on the unfiltered
      list. */
  function BadgeCount(grouped: seq<Entry>, f: QuickFilter): nat {
    match f
    case All => |grouped|
    case Top => Count(grouped, Active)
    case Bottom => Count(grouped, Inactive)
  }

  lemma {:induction false} CountIsFilterLength(entries: seq<Entry>, f: QuickFilter)
    requires f != All
    ensures BadgeCount(entries, f) == |Filtered(entries, f)|
    decreases |entries|
  {
    if |entries| > 0 {
      var e' := entries[..|entries| - 1];
      var x := entries[|entries| - 1];
      CountIsFilterLength(e', f);
      assert entries == e' + [x];
      FilterSnoc(e', x, e => Keeps(f, e));
    }
  }

  /** Each badge shows the length the list has under that filter. */
  lemma {:induction false} BadgeMatchesList(grouped: seq<Entry>, f: QuickFilter)
    ensures BadgeCount(grouped, f) == |Filtered(grouped, f)|
  {
    if f == All {
      FilterAll(grouped, f);
    } else {
      CountIsFilterLength(grouped, f);
    }
  }

  /** Active plus inactive never exceeds all; the gap is the number of
      entries with a negative or missing value. */
  lemma {:induction false} BadgesAddUp(grouped: seq<Entry>)
    ensures BadgeCount(grouped, Top) + BadgeCount(grouped, Bottom)
         + Count(grouped, e => EntryValue(e).None? || EntryValue(e).value < 0.0)
         == BadgeCount(grouped, All)
    decreases |grouped|
  {
    if |grouped| > 0 {
      BadgesAddUp(grouped[..|grouped| - 1]);
    }
  }

  /** JavaScript's relative index for `slice`: negative counts from the end;
      both are clamped to the list. */
  function RelativeIndex(i: int, len: nat): (r: nat)
    ensures r <= len
  {
    if i < 0 then (if len + i < 0 then 0 else len + i) else (if i < len then i else len)
  }

  /** `s.slice(start, end)`. */
  function Slice<T>(s: seq<T>, start: int, end: int): seq<T> {
    var from := RelativeIndex(start, |s|);
    var to := RelativeIndex(end, |s|);
    if from < to then s[from..to] else []
  }

  /** `filteredData.slice(0, showCount)`. */
  function TopSellers(filtered: seq<Entry>, showCount: int): seq<Entry> {
    Slice(filtered, 0, showCount)
  }

  /** `filteredData.slice(-showCount).reverse()`. */
  function BottomSellers(filtered: seq<Entry>, showCount: int): seq<Entry> {
    Reverse(Slice(filtered, -showCount, |filtered|))
  }

  function Min(a: int, b: int): int {
    if a < b then a else b
  }

  /** The top list is the first `min(showCount, n)` entries. */
  lemma {:induction false} TopSlice(filtered: seq<Entry>, showCount: int)
    requires showCount > 0
    ensures TopSellers(filtered, showCount) == filtered[..Min(showCount, |filtered|)]
  {
  }

  /** The bottom list is the last `min(showCount, n)` entries, last one
      first. */
  lemma {:induction false} BottomSlice(filtered: seq<Entry>, showCount: int)
    requires showCount > 0
    ensures |BottomSellers(filtered, showCount)| == Min(showCount, |filtered|)
    ensures forall i :: 0 <= i < |BottomSellers(filtered, showCount)| ==>
      BottomSellers(filtered, showCount)[i] == filtered[|filtered| - 1 - i]
  {
  }

  /** When everything fits, the bottom list is the top list reversed. */
  lemma {:induction false} BottomIsReversedTopWhenAllShown(filtered: seq<Entry>, showCount: int)
    requires showCount >= |filtered| && showCount > 0
    ensures BottomSellers(filtered, showCount) == Reverse(TopSellers(filtered, showCount))
  {
    TopSlice(filtered, showCount);
    BottomSlice(filtered, showCount);
    assert filtered[..|filtered|] == filtered;
  }

  /** At `showCount == 0`, `slice(-0)` is the whole list; the paging never
      reaches 0 (see `PagingInvariant`). */
  lemma {:induction false} BottomSliceAtZero(filtered: seq<Entry>)
    ensures BottomSellers(filtered, 0) == Reverse(filtered)
    ensures TopSellers(filtered, 0) == []
  {
    assert filtered[0..|filtered|] == filtered;
  }

  /** The page step and the initial and reset page size. */
  const PageSize: int := 5

  datatype Click = ShowMore | ShowLess

  /** "Show more" is rendered only when rows are hidden. */
  predicate ShowMoreShown(len: nat, showCount: int) {
    len > showCount
  }

  /** "Show less" is rendered once the list has grown. */
  predicate ShowLessShown(showCount: int) {
    showCount > PageSize
  }

  /** The number on the "Show N More" button: how many hidden rows the next
      click reveals, between 1 and a page. */
  function ShowMoreLabel(len: nat, showCount: int): (n: int)
    requires ShowMoreShown(len, showCount)
    ensures 1 <= n <= PageSize
  {
    Min(PageSize, len - showCount)
  }

  /** A click on a rendered button; clicks on absent buttons cannot happen
      and change nothing. */
  function AfterClick(showCount: int, len: nat, c: Click): int {
    match c
    case ShowMore => if ShowMoreShown(len, showCount) then showCount + PageSize else showCount
    case ShowLess => if ShowLessShown(showCount) then PageSize else showCount
  }

  /** `showCount` after a sequence of clicks, each paired with the length of
      the filtered list at that moment (the quick filter may change between
      clicks). */
  function Paging(clicks: seq<(Click, nat)>): int
    decreases |clicks|
  {
    if |clicks| == 0 then PageSize
    else
      var last := clicks[|clicks| - 1];
      AfterClick(Paging(clicks[..|clicks| - 1]), last.1, last.0)
  }

  /** Whatever the clicks, the page size stays a positive multiple of the
      page step, so the `showCount > 0` slice facts always apply. */
  lemma {:induction false} PagingInvariant(clicks: seq<(Click, nat)>)
    ensures Paging(clicks) >= PageSize && Paging(clicks) % PageSize == 0
    decreases |clicks|
  {
    if |clicks| > 0 {
      PagingInvariant(clicks[..|clicks| - 1]);
    }
  }

  /** "Show N More" reveals exactly N new top rows. */
  lemma {:induction false} ShowMoreRevealsLabel(filtered: seq<Entry>, showCount: int)
    requires showCount > 0 && ShowMoreShown(|filtered|, showCount)
    ensures |TopSellers(filtered, AfterClick(showCount, |filtered|, ShowMore))|
         == |TopSellers(filtered, showCount)| + ShowMoreLabel(|filtered|, showCount)
  {
    TopSlice(filtered, showCount);
    TopSlice(filtered, showCount + PageSize);
  }

  /** "Show less" returns to the first page. */
  lemma {:induction false} ShowLessResets(filtered: seq<Entry>, showCount: int)
    requires ShowLessShown(showCount)
    ensures TopSellers(filtered, AfterClick(showCount, |filtered|, ShowLess)) == filtered[..Min(PageSize, |filtered|)]
  {
  }
}
