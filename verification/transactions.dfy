/** The canonical transaction record every aggregation reads, after the
    field-name synonyms of the raw data have been resolved. */
module Transactions {
  import opened Options
  import opened Seqs

  type MonthNumber = m: int | 1 <= m <= 12 witness 1

  /** A calendar month as the host date library reports it for a parsed
      payment date: the full year and the month, January = 1. */
  datatype YearMonth = YearMonth(year: int, month: MonthNumber)

  /** One payment event. Every optional field is `None` when the raw record
      lacks it or holds `null`/`undefined`; `paymentDate` is `None` when the
      date text does not parse. */
  datatype Transaction = Transaction(
    paymentValue: Option<real>,
    paymentDate: Option<YearMonth>,
    memberId: Option<string>,
    cleanedProduct: Option<string>,
    paymentItem: Option<string>,
    cleanedCategory: Option<string>,
    paymentCategory: Option<string>,
    customerName: Option<string>,
    soldBy: Option<string>,
    paymentMethod: Option<string>)

  /** `item.paymentValue || 0`. */
  function Value(t: Transaction): real {
    t.paymentValue.GetOr(0.0)
  }

  /** Total payment value, a missing value counting as 0. */
  function Revenue(xs: seq<Transaction>): real {
    SumOf(xs, Value)
  }

  /** The distinct member ids of `xs`; every missing id (`null` or
      `undefined`) is the one value `None`. */
  function MemberIds(xs: seq<Transaction>): set<Option<string>> {
    set i | 0 <= i < |xs| :: xs[i].memberId
  }

  lemma {:induction false} MemberIdsSnoc(xs: seq<Transaction>, t: Transaction)
    ensures MemberIds(xs + [t]) == MemberIds(xs) + {t.memberId}
  {
    var ys := xs + [t];
    forall m | m in MemberIds(ys) ensures m in MemberIds(xs) + {t.memberId} {
      var i :| 0 <= i < |ys| && ys[i].memberId == m;
      if i < |xs| { assert xs[i] == ys[i]; }
    }
    forall m | m in MemberIds(xs) ensures m in MemberIds(ys) {
      var i :| 0 <= i < |xs| && xs[i].memberId == m;
      assert ys[i] == xs[i];
    }
    assert ys[|xs|] == t;
  }

  /** There are never more distinct members than transactions, and a
      non-empty sequence has at least one (possibly the missing id). */
  lemma {:induction false} MemberCountBounds(xs: seq<Transaction>)
    ensures |MemberIds(xs)| <= |xs|
    ensures |xs| > 0 ==> 1 <= |MemberIds(xs)|
    decreases |xs|
  {
    if |xs| == 0 {
      assert MemberIds(xs) == {};
    } else {
      var xs' := xs[..|xs| - 1];
      var t := xs[|xs| - 1];
      assert xs == xs' + [t];
      MemberIdsSnoc(xs', t);
      MemberCountBounds(xs');
      assert t.memberId in MemberIds(xs);
    }
  }
}
