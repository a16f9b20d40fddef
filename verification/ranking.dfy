/** `rows.sort((a, b) => value(b) - value(a))`: JavaScript's sort is stable,
    so this orders by `value` from largest to smallest and leaves rows with
    equal values in the order they arrived. Modelled as insertion sort, which
    is stable by construction. */
module Ranking {
  import opened Seqs

  ghost predicate SortedDesc<T>(s: seq<T>, value: T -> real) {
    forall i, j :: 0 <= i < j < |s| ==> value(s[i]) >= value(s[j])
  }

  function TieTest<T>(value: T -> real, v: real): T -> bool {
    x => value(x) == v
  }

  /** The rows of `s` whose value is exactly `v`, in their order in `s`. */
  function Tied<T>(s: seq<T>, value: T -> real, v: real): seq<T> {
    Filter(s, TieTest(value, v))
  }

  /** Places `x` after every row worth at least as much, before the first row
      worth less. */
  function Insert<T>(s: seq<T>, x: T, value: T -> real): (r: seq<T>)
    ensures |r| == |s| + 1
    ensures multiset(r) == multiset(s) + multiset{x}
    decreases |s|
  {
    if |s| == 0 then [x]
    else if value(s[0]) >= value(x) then
      assert s == [s[0]] + s[1..];
      [s[0]] + Insert(s[1..], x, value)
    else [x] + s
  }

  lemma {:induction false} InsertSorted<T>(s: seq<T>, x: T, value: T -> real)
    requires SortedDesc(s, value)
    ensures SortedDesc(Insert(s, x, value), value)
    ensures |s| > 0 && value(s[0]) >= value(x) ==> Insert(s, x, value)[0] == s[0]
    ensures |s| == 0 || value(s[0]) < value(x) ==> Insert(s, x, value)[0] == x
    decreases |s|
  {
    if |s| > 0 && value(s[0]) >= value(x) {
      InsertSorted(s[1..], x, value);
      var r := Insert(s, x, value);
      var r' := Insert(s[1..], x, value);
      assert r == [s[0]] + r';
      forall j | 0 < j < |r| ensures value(r[0]) >= value(r[j]) {
        assert r[j] in multiset(r');
        assert r[j] in multiset(s[1..]) + multiset{x};
        if r[j] in multiset(s[1..]) {
          var k :| 0 <= k < |s[1..]| && s[1..][k] == r[j];
          assert s[k + 1] == r[j];
        }
      }
    }
  }

  /** A single row is its own tie class or none. */
  lemma {:induction false} TiedSingleton<T>(x: T, value: T -> real, v: real)
    ensures Tied([x], value, v) == if value(x) == v then [x] else []
  {
    FilterSnoc([], x, TieTest(value, v));
    assert [] + [x] == [x];
  }

  /** Insertion keeps `x` after the rows tied with it, and leaves every other
      tie class as it was. */
  lemma {:induction false} InsertTied<T>(s: seq<T>, x: T, value: T -> real, v: real)
    requires SortedDesc(s, value)
    ensures Tied(Insert(s, x, value), value, v)
         == Tied(s, value, v) + (if value(x) == v then [x] else [])
    decreases |s|, 1
  {
    var p := TieTest(value, v);
    if |s| == 0 {
      assert Insert(s, x, value) == [x];
      TiedSingleton(x, value, v);
    } else if value(s[0]) >= value(x) {
      InsertTiedAfterHead(s, x, value, v);
    } else {
      // every row of s is worth less than x, so none ties with x
      assert Insert(s, x, value) == [x] + s;
      FilterConcat([x], s, p);
      TiedSingleton(x, value, v);
      if value(x) == v {
        TiedBelow(s, value, v);
      }
    }
  }

  lemma {:induction false} InsertTiedAfterHead<T>(s: seq<T>, x: T, value: T -> real, v: real)
    requires SortedDesc(s, value)
    requires |s| > 0 && value(s[0]) >= value(x)
    ensures Tied(Insert(s, x, value), value, v)
         == Tied(s, value, v) + (if value(x) == v then [x] else [])
    decreases |s|, 0
  {
    var p := TieTest(value, v);
    var tail := s[1..];
    var e := if value(x) == v then [x] else [];
    assert SortedDesc(tail, value);
    InsertTied(tail, x, value, v);
    assert Insert(s, x, value) == [s[0]] + Insert(tail, x, value);
    assert s == [s[0]] + tail;
    FilterConcat([s[0]], tail, p);
    FilterConcat([s[0]], Insert(tail, x, value), p);
    assert Tied(Insert(s, x, value), value, v) == Tied([s[0]], value, v) + (Tied(tail, value, v) + e);
    assert Tied(s, value, v) == Tied([s[0]], value, v) + Tied(tail, value, v);
  }

  lemma {:induction false} TiedBelow<T>(s: seq<T>, value: T -> real, v: real)
    requires SortedDesc(s, value)
    requires |s| > 0 && value(s[0]) < v
    ensures Tied(s, value, v) == []
  {
    if Tied(s, value, v) != [] {
      var y := Tied(s, value, v)[0];
      FilterMembership(s, TieTest(value, v), y);
      assert false;
    }
  }

  /** The stable descending sort of `xs`. */
  function SortDesc<T>(xs: seq<T>, value: T -> real): (r: seq<T>)
    ensures SortedDesc(r, value)
    ensures multiset(r) == multiset(xs)
    decreases |xs|
  {
    if |xs| == 0 then []
    else
      var xs' := xs[..|xs| - 1];
      assert xs == xs' + [xs[|xs| - 1]];
      var r' := SortDesc(xs', value);
      InsertSorted(r', xs[|xs| - 1], value);
      Insert(r', xs[|xs| - 1], value)
  }

  /** Stability: among rows of equal value the sorted order is the input
      order. */
  lemma {:induction false} SortIsStable<T>(xs: seq<T>, value: T -> real, v: real)
    ensures Tied(SortDesc(xs, value), value, v) == Tied(xs, value, v)
    decreases |xs|
  {
    if |xs| > 0 {
      var xs' := xs[..|xs| - 1];
      var x := xs[|xs| - 1];
      assert xs == xs' + [x];
      SortIsStable(xs', value, v);
      assert SortDesc(xs, value) == Insert(SortDesc(xs', value), x, value);
      InsertTied(SortDesc(xs', value), x, value, v);
      FilterSnoc(xs', x, TieTest(value, v));
    }
  }

  /** Sorting an already sorted list changes nothing. */
  lemma {:induction false} SortOfSorted<T>(xs: seq<T>, value: T -> real)
    requires SortedDesc(xs, value)
    ensures SortDesc(xs, value) == xs
    decreases |xs|
  {
    if |xs| > 0 {
      var xs' := xs[..|xs| - 1];
      var x := xs[|xs| - 1];
      assert xs == xs' + [x];
      SortOfSorted(xs', value);
      InsertAtEnd(xs', x, value);
    }
  }

  lemma {:induction false} InsertAtEnd<T>(s: seq<T>, x: T, value: T -> real)
    requires forall i :: 0 <= i < |s| ==> value(s[i]) >= value(x)
    ensures Insert(s, x, value) == s + [x]
    decreases |s|
  {
    if |s| > 0 {
      InsertAtEnd(s[1..], x, value);
      assert s == [s[0]] + s[1..];
    }
  }

  /** Sorting does not change the total. */
  lemma {:induction false} SortPreservesSum<T>(xs: seq<T>, value: T -> real)
    ensures SumOf(SortDesc(xs, value), value) == SumOf(xs, value)
    decreases |xs|
  {
    if |xs| > 0 {
      var xs' := xs[..|xs| - 1];
      var x := xs[|xs| - 1];
      assert xs == xs' + [x];
      SortPreservesSum(xs', value);
      assert SortDesc(xs, value) == Insert(SortDesc(xs', value), x, value);
      InsertSum(SortDesc(xs', value), x, value);
      SumOfSnoc(xs', x, value);
    }
  }

  lemma {:induction false} InsertSum<T>(s: seq<T>, x: T, value: T -> real)
    ensures SumOf(Insert(s, x, value), value) == SumOf(s, value) + value(x)
    decreases |s|
  {
    if |s| == 0 {
      SumOfSnoc([], x, value);
      assert [] + [x] == [x];
    } else if value(s[0]) >= value(x) {
      InsertSum(s[1..], x, value);
      assert s == [s[0]] + s[1..];
      SumOfConcat([s[0]], s[1..], value);
      SumOfConcat([s[0]], Insert(s[1..], x, value), value);
    } else {
      SumOfConcat([x], s, value);
      SumOfSnoc([], x, value);
      assert [] + [x] == [x];
    }
  }
}
