/** Calendar arithmetic as the host date library performs it
    (`new Date(year, monthIndex, 1)` normalises an out-of-range month into
    the neighbouring years), and the textual keys the period views bucket by. */
module Calendar {
  import opened Options
  import opened Seqs
  import opened Transactions
  import Decimal

  /** Months since January of year 0. */
  function MonthIndex(ym: YearMonth): int {
    ym.year * 12 + ym.month - 1
  }

  function FromIndex(i: int): (ym: YearMonth)
    ensures MonthIndex(ym) == i
  {
    YearMonth(i / 12, i % 12 + 1)
  }

  lemma {:induction false} IndexRoundTrip(ym: YearMonth)
    ensures FromIndex(MonthIndex(ym)) == ym
  {
    var i := MonthIndex(ym);
    assert i == ym.year * 12 + (ym.month - 1);
    assert 0 <= ym.month - 1 < 12;
  }

  /** `new Date(now.getFullYear(), now.getMonth() - back, 1)`. */
  function MonthsBefore(now: YearMonth, back: int): (ym: YearMonth)
    ensures MonthIndex(ym) == MonthIndex(now) - back
  {
    FromIndex(MonthIndex(now) - back)
  }

  /** The calendar month after `ym`, by cases. */
  function NextMonth(ym: YearMonth): YearMonth {
    if ym.month == 12 then YearMonth(ym.year + 1, 1) else YearMonth(ym.year, ym.month + 1)
  }

  /** The month before `now`; January wraps to December of the year before. */
  function PreviousMonth(now: YearMonth): (p: YearMonth)
    ensures now.month == 1 ==> p == YearMonth(now.year - 1, 12)
    ensures now.month > 1 ==> p == YearMonth(now.year, now.month - 1)
    ensures NextMonth(p) == now
    ensures p != now
  {
    var p := MonthsBefore(now, 1);
    IndexRoundTrip(p);
    p
  }

  /** The six months ending at `now`, oldest first, as the month-over-month
      view builds them with `for (let i = 5; i >= 0; i--)`. */
  function TrailingWindow(now: YearMonth): (w: seq<YearMonth>)
    ensures |w| == 6
    ensures w[5] == now
    ensures forall j :: 0 <= j < 5 ==> NextMonth(w[j]) == w[j + 1]
    ensures forall j :: 0 <= j < 6 ==> MonthIndex(w[j]) == MonthIndex(now) - 5 + j
    ensures Distinct(w)
  {
    var w := seq(6, j requires 0 <= j < 6 => MonthsBefore(now, 5 - j));
    IndexRoundTrip(now);
    forall j | 0 <= j < 5 ensures NextMonth(w[j]) == w[j + 1] {
      var a := w[j];
      var b := w[j + 1];
      IndexRoundTrip(b);
      assert MonthIndex(b) == MonthIndex(a) + 1;
    }
    w
  }

  /** `${year}-${String(month).padStart(2, '0')}`. */
  function MonthKey(ym: YearMonth): string {
    Decimal.IntToString(ym.year) + "-" + Decimal.PadStart2(Decimal.IntToString(ym.month))
  }

  /** The key an unparseable date produces: every date getter returns NaN. */
  const InvalidMonthKey: string := "NaN-NaN"

  /** Equal keys mean equal months, and the key of a real month is never the
      key of an invalid date. */
  lemma {:induction false} MonthKeyInjective(a: YearMonth, b: YearMonth)
    ensures MonthKey(a) == MonthKey(b) <==> a == b
  {
    if MonthKey(a) == MonthKey(b) {
      var ya := Decimal.IntToString(a.year);
      var yb := Decimal.IntToString(b.year);
      var pa := Decimal.PadStart2(Decimal.IntToString(a.month));
      var pb := Decimal.PadStart2(Decimal.IntToString(b.month));
      Decimal.PaddedMonth(a.month);
      Decimal.PaddedMonth(b.month);
      assert |ya| == |yb|;
      assert ya == MonthKey(a)[..|ya|];
      assert yb == MonthKey(b)[..|yb|];
      assert pa == MonthKey(a)[|ya| + 1..];
      assert pb == MonthKey(b)[|yb| + 1..];
      Decimal.IntToStringInjective(a.year, b.year);
    }
  }

  lemma {:induction false} MonthKeyIsValid(ym: YearMonth)
    ensures MonthKey(ym) != InvalidMonthKey
  {
    var p := Decimal.PadStart2(Decimal.IntToString(ym.month));
    Decimal.PaddedMonth(ym.month);
    var k := MonthKey(ym);
    assert k[|k| - 1] == p[1];
    assert Decimal.IsDigit(k[|k| - 1]);
  }

  /** `toLocaleDateString('en-US', { month: 'long' })`, January first. */
  const MonthNames: seq<string> := ["January", "February", "March", "April", "May", "June",
    "July", "August", "September", "October", "November", "December"]

  /** What the same call produces for an unparseable date. */
  const InvalidDateName: string := "Invalid Date"

  function MonthName(ym: YearMonth): string {
    MonthNames[ym.month - 1]
  }

  lemma {:induction false} MonthNamesDistinct()
    ensures |MonthNames| == 12
    ensures Distinct(MonthNames)
    ensures InvalidDateName !in MonthNames
  {
  }

  function MonthTest(ym: YearMonth): Transaction -> bool {
    (t: Transaction) => t.paymentDate == Some(ym)
  }

  /** The sales whose parsed date falls in calendar month `ym`; a sale whose
      date does not parse falls in no month. */
  function MonthSales(xs: seq<Transaction>, ym: YearMonth): seq<Transaction> {
    Filter(xs, MonthTest(ym))
  }
}
