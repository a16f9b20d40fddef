/** The single-pass grouping every view performs: `reduce` into a plain
    object keyed by a group key, creating an accumulator the first time a key
    is seen and updating it for each transaction, then `Object.values` to list
    the accumulators in first-seen order. */
module Grouping {
  import opened Seqs
  import opened Transactions

  /** Keys in first-seen order and the accumulator of each key. */
  datatype Groups<K(==,!new), A> = Groups(order: seq<K>, buckets: map<K, A>)

  ghost predicate WellFormed<K(!new), A>(g: Groups<K, A>) {
    && Distinct(g.order)
    && (forall k :: k in g.buckets <==> k in g.order)
  }

  function KeyTest<K(==,!new)>(key: Transaction -> K, k: K): Transaction -> bool {
    t => key(t) == k
  }

  /** The transactions whose key is `k`, in input order. */
  function Select<K(==,!new)>(xs: seq<Transaction>, key: Transaction -> K, k: K): seq<Transaction> {
    Filter(xs, KeyTest(key, k))
  }

  /** Applying `add` to every transaction of `s` in order, starting at `a`. */
  function Fold<A>(a: A, s: seq<Transaction>, add: (A, Transaction) -> A): A
    decreases |s|
  {
    if |s| == 0 then a else add(Fold(a, s[..|s| - 1], add), s[|s| - 1])
  }

  lemma {:induction false} FoldSnoc<A>(a: A, s: seq<Transaction>, t: Transaction, add: (A, Transaction) -> A)
    ensures Fold(a, s + [t], add) == add(Fold(a, s, add), t)
  {
    assert (s + [t])[..|s|] == s;
  }

  lemma {:induction false} SelectSnoc<K(!new)>(xs: seq<Transaction>, t: Transaction, key: Transaction -> K)
    ensures forall k :: Select(xs + [t], key, k) == Select(xs, key, k) + (if key(t) == k then [t] else [])
  {
    forall k ensures Select(xs + [t], key, k) == Select(xs, key, k) + (if key(t) == k then [t] else []) {
      FilterSnoc(xs, t, KeyTest(key, k));
    }
  }

  lemma {:induction false} SelectMembership<K(!new)>(xs: seq<Transaction>, key: Transaction -> K, k: K, t: Transaction)
    ensures t in Select(xs, key, k) <==> t in xs && key(t) == k
  {
    FilterMembership(xs, KeyTest(key, k), t);
  }

  /** One step of the `reduce`: `if (!acc[key]) acc[key] = init(key)`, then
      the accumulator of `key` absorbs `t`. */
  function Accumulate<K(==,!new), A>(g: Groups<K, A>, t: Transaction, key: Transaction -> K,
                            init: K -> A, add: (A, Transaction) -> A): Groups<K, A>
  {
    var k := key(t);
    if k in g.buckets then Groups(g.order, g.buckets[k := add(g.buckets[k], t)])
    else Groups(g.order + [k], g.buckets[k := add(init(k), t)])
  }

  /** The specification `GroupBy` meets on an input `xs`. */
  ghost predicate GroupsOf<K(!new), A>(g: Groups<K, A>, xs: seq<Transaction>, key: Transaction -> K,
                                      init: K -> A, add: (A, Transaction) -> A)
  {
    && WellFormed(g)
    && (forall k :: k in g.buckets <==> Select(xs, key, k) != [])
    && (forall k :: k in g.buckets ==> g.buckets[k] == Fold(init(k), Select(xs, key, k), add))
  }

  /** One `reduce` step keeps the specification, one transaction further on. */
  lemma {:induction false} AccumulateStep<K(!new), A>(g: Groups<K, A>, xs: seq<Transaction>, t: Transaction, key: Transaction -> K,
                                   init: K -> A, add: (A, Transaction) -> A)
    requires GroupsOf(g, xs, key, init, add)
    ensures GroupsOf(Accumulate(g, t, key, init, add), xs + [t], key, init, add)
  {
    var g' := Accumulate(g, t, key, init, add);
    var k0 := key(t);
    SelectSnoc(xs, t, key);
    FoldSnoc(init(k0), Select(xs, key, k0), t, add);
    if k0 in g.buckets {
      assert g'.order == g.order;
    } else {
      assert Select(xs, key, k0) == [];
      assert g'.order == g.order + [k0];
      assert Distinct(g'.order);
    }
    forall k | k in g'.buckets
      ensures g'.buckets[k] == Fold(init(k), Select(xs + [t], key, k), add)
    {
      if k != k0 {
        assert Select(xs + [t], key, k) == Select(xs, key, k);
      }
    }
  }

  /** Groups `xs` by `key`, one `reduce` step per transaction; the keys are
      listed once each and are exactly the keys with an accumulator.
      `GroupBySpec` states what the accumulators hold. */
  function GroupBy<K(==,!new), A>(xs: seq<Transaction>, key: Transaction -> K,
                         init: K -> A, add: (A, Transaction) -> A): (g: Groups<K, A>)
    ensures WellFormed(g)
    decreases |xs|
  {
    if |xs| == 0 then
      Groups([], map[])
    else
      var g' := GroupBy(xs[..|xs| - 1], key, init, add);
      var k := key(xs[|xs| - 1]);
      assert k !in g'.buckets ==> Distinct(g'.order + [k]);
      Accumulate(g', xs[|xs| - 1], key, init, add)
  }

  /** Each key of the input gets exactly one accumulator, which holds the
      fold of its own transactions and nothing else; keys are listed once
      each. */
  lemma {:induction false} GroupBySpec<K(!new), A>(xs: seq<Transaction>, key: Transaction -> K,
                                                  init: K -> A, add: (A, Transaction) -> A)
    ensures GroupsOf(GroupBy(xs, key, init, add), xs, key, init, add)
    decreases |xs|
  {
    if |xs| > 0 {
      var xs' := xs[..|xs| - 1];
      var t := xs[|xs| - 1];
      assert xs == xs' + [t];
      GroupBySpec(xs', key, init, add);
      AccumulateStep(GroupBy(xs', key, init, add), xs', t, key, init, add);
    }
  }

  /** `Object.values(grouped)`: the accumulators in first-seen key order. */
  function Values<K(==,!new), A>(g: Groups<K, A>): (vs: seq<A>)
    requires WellFormed(g)
    ensures |vs| == |g.order|
  {
    seq(|g.order|, i requires 0 <= i < |g.order| => g.buckets[g.order[i]])
  }

  /** First-seen order: the keys of any prefix of the input come first, in
      the same order. */
  lemma {:induction false} GroupOrderExtends<K(!new), A>(xs: seq<Transaction>, n: nat, key: Transaction -> K,
                                                   init: K -> A, add: (A, Transaction) -> A)
    requires n <= |xs|
    ensures GroupBy(xs[..n], key, init, add).order <= GroupBy(xs, key, init, add).order
    decreases |xs|
  {
    if n < |xs| {
      var xs' := xs[..|xs| - 1];
      assert xs'[..n] == xs[..n];
      GroupOrderExtends(xs', n, key, init, add);
    } else {
      assert xs[..n] == xs;
    }
  }

  /** Every transaction's key is one of the groups. */
  lemma {:induction false} KeysCovered<K(!new), A>(xs: seq<Transaction>, key: Transaction -> K,
                          init: K -> A, add: (A, Transaction) -> A)
    ensures forall i :: 0 <= i < |xs| ==> key(xs[i]) in GroupBy(xs, key, init, add).order
  {
    GroupBySpec(xs, key, init, add);
    forall i | 0 <= i < |xs| ensures key(xs[i]) in GroupBy(xs, key, init, add).order {
      SelectMembership(xs, key, key(xs[i]), xs[i]);
    }
  }

  /** The transactions of each key of `ks`, one sequence per key. */
  function Parts<K(==,!new)>(xs: seq<Transaction>, key: Transaction -> K, ks: seq<K>): (ps: seq<seq<Transaction>>)
    ensures |ps| == |ks|
  {
    seq(|ks|, i requires 0 <= i < |ks| => Select(xs, key, ks[i]))
  }

  lemma {:induction false} PartsSnocKey<K(!new)>(xs: seq<Transaction>, key: Transaction -> K, ks: seq<K>, k: K)
    ensures Parts(xs, key, ks + [k]) == Parts(xs, key, ks) + [Select(xs, key, k)]
  {
  }

  lemma {:induction false} EmptyParts<K(!new)>(key: Transaction -> K, ks: seq<K>)
    ensures SumOf(Parts([], key, ks), Revenue) == 0.0
    ensures Flatten(Parts([], key, ks)) == []
    decreases |ks|
  {
    if |ks| > 0 {
      var ks' := ks[..|ks| - 1];
      assert ks == ks' + [ks[|ks| - 1]];
      PartsSnocKey([], key, ks', ks[|ks| - 1]);
      assert Parts([], key, ks)[..|ks'|] == Parts([], key, ks');
      EmptyParts(key, ks');
    }
  }

  lemma {:induction false} SelectRevenueSnoc<K(!new)>(xs: seq<Transaction>, t: Transaction, key: Transaction -> K, k: K)
    ensures Revenue(Select(xs + [t], key, k)) == Revenue(Select(xs, key, k)) + (if key(t) == k then Value(t) else 0.0)
  {
    SelectSnoc(xs, t, key);
    if key(t) == k {
      SumOfSnoc(Select(xs, key, k), t, Value);
    } else {
      assert Select(xs + [t], key, k) == Select(xs, key, k);
    }
  }

  /** Appending one transaction adds its value to exactly the part of its
      key, when that key is listed once. */
  lemma {:induction false} PartitionSumStep<K(!new)>(xs: seq<Transaction>, t: Transaction, key: Transaction -> K, ks: seq<K>)
    requires Distinct(ks)
    ensures SumOf(Parts(xs + [t], key, ks), Revenue)
         == SumOf(Parts(xs, key, ks), Revenue) + (if key(t) in ks then Value(t) else 0.0)
    decreases |ks|
  {
    if |ks| > 0 {
      var ks' := ks[..|ks| - 1];
      var k := ks[|ks| - 1];
      assert ks == ks' + [k];
      PartitionSumStep(xs, t, key, ks');
      PartsSnocKey(xs, key, ks', k);
      PartsSnocKey(xs + [t], key, ks', k);
      var a := Parts(xs, key, ks');
      var b := Parts(xs + [t], key, ks');
      SumOfSnoc(a, Select(xs, key, k), Revenue);
      SumOfSnoc(b, Select(xs + [t], key, k), Revenue);
      SelectRevenueSnoc(xs, t, key, k);
      assert key(t) in ks <==> key(t) in ks' || key(t) == k;
      assert key(t) == k ==> key(t) !in ks';
    }
  }

  lemma {:induction false} PartsFlattenSnoc<K(!new)>(xs: seq<Transaction>, key: Transaction -> K, ks: seq<K>, k: K)
    ensures multiset(Flatten(Parts(xs, key, ks + [k])))
         == multiset(Flatten(Parts(xs, key, ks))) + multiset(Select(xs, key, k))
  {
    PartsSnocKey(xs, key, ks, k);
    FlattenSnoc(Parts(xs, key, ks), Select(xs, key, k));
  }

  lemma {:induction false} Interleave<T>(a: multiset<T>, b: multiset<T>, c: multiset<T>, d: multiset<T>)
    ensures (a + b) + (c + d) == (a + c) + (b + d)
  {
  }

  lemma {:induction false} LastKey<K>(ks: seq<K>, k: K, x: K)
    requires Distinct(ks + [k])
    ensures x in ks + [k] <==> x in ks || x == k
    ensures x == k ==> x !in ks
  {
    if x in ks {
      var i :| 0 <= i < |ks| && ks[i] == x;
      assert (ks + [k])[i] != (ks + [k])[|ks|];
    }
  }

  /** Appending one transaction adds it to exactly the part of its key, when
      that key is listed once. */
  lemma {:induction false} PartitionMultisetStep<K(!new)>(xs: seq<Transaction>, t: Transaction, key: Transaction -> K, ks: seq<K>)
    requires Distinct(ks)
    ensures multiset(Flatten(Parts(xs + [t], key, ks)))
         == multiset(Flatten(Parts(xs, key, ks))) + (if key(t) in ks then multiset{t} else multiset{})
    decreases |ks|
  {
    if |ks| > 0 {
      var ks' := ks[..|ks| - 1];
      var k := ks[|ks| - 1];
      assert ks == ks' + [k];
      PartitionMultisetStep(xs, t, key, ks');
      PartsFlattenSnoc(xs, key, ks', k);
      PartsFlattenSnoc(xs + [t], key, ks', k);
      FilterSnoc(xs, t, KeyTest(key, k));
      var here := if key(t) == k then multiset{t} else multiset{};
      var earlier := if key(t) in ks' then multiset{t} else multiset{};
      var rest := multiset(Flatten(Parts(xs, key, ks')));
      var own := multiset(Select(xs, key, k));
      assert multiset(Select(xs + [t], key, k)) == own + here;
      LastKey(ks', k, key(t));
      assert earlier + here == if key(t) in ks then multiset{t} else multiset{};
      Interleave(rest, earlier, own, here);
    }
  }

  /** Grouping is a partition: over any duplicate-free key list that covers
      every transaction, the parts together hold each transaction exactly
      once and their revenues add up to the input revenue. */
  lemma {:induction false} Partition<K(!new)>(xs: seq<Transaction>, key: Transaction -> K, ks: seq<K>)
    requires Distinct(ks)
    requires forall i :: 0 <= i < |xs| ==> key(xs[i]) in ks
    ensures SumOf(Parts(xs, key, ks), Revenue) == Revenue(xs)
    ensures multiset(Flatten(Parts(xs, key, ks))) == multiset(xs)
    decreases |xs|
  {
    if |xs| == 0 {
      EmptyParts(key, ks);
    } else {
      var xs' := xs[..|xs| - 1];
      var t := xs[|xs| - 1];
      assert xs == xs' + [t];
      Partition(xs', key, ks);
      PartitionSumStep(xs', t, key, ks);
      PartitionMultisetStep(xs', t, key, ks);
      SumOfSnoc(xs', t, Value);
    }
  }

  /** The partition fact for the groups `GroupBy` itself creates. */
  lemma {:induction false} GroupsPartition<K(!new), A>(xs: seq<Transaction>, key: Transaction -> K,
                              init: K -> A, add: (A, Transaction) -> A)
    ensures SumOf(Parts(xs, key, GroupBy(xs, key, init, add).order), Revenue) == Revenue(xs)
    ensures multiset(Flatten(Parts(xs, key, GroupBy(xs, key, init, add).order))) == multiset(xs)
  {
    KeysCovered(xs, key, init, add);
    Partition(xs, key, GroupBy(xs, key, init, add).order);
  }

  /** A grouping used as the step of an enclosing `reduce`, as when each
      accumulator is itself a keyed object (`acc[outer][inner]`). */
  function AccumulateInto<K(==,!new), A>(key: Transaction -> K, init: K -> A, add: (A, Transaction) -> A)
    : (Groups<K, A>, Transaction) -> Groups<K, A>
  {
    (g, t) => Accumulate(g, t, key, init, add)
  }

  /** Folding the grouping step from an empty object is the grouping. */
  lemma {:induction false} FoldAccumulate<K(!new), A>(s: seq<Transaction>, key: Transaction -> K,
                                                     init: K -> A, add: (A, Transaction) -> A)
    ensures Fold(Groups([], map[]), s, AccumulateInto(key, init, add)) == GroupBy(s, key, init, add)
    decreases |s|
  {
    if |s| > 0 {
      FoldAccumulate(s[..|s| - 1], key, init, add);
    }
  }

  /** Two-level grouping: the inner object of outer key `k` is the grouping,
      by the inner key, of exactly the transactions whose outer key is `k`. */
  lemma {:induction false} NestedGroups<K(!new), J(!new), A>(xs: seq<Transaction>, outer: Transaction -> K, empty: K -> Groups<J, A>,
                                          inner: Transaction -> J, init: J -> A, add: (A, Transaction) -> A, k: K)
    requires forall k :: empty(k) == Groups([], map[])
    requires k in GroupBy(xs, outer, empty, AccumulateInto(inner, init, add)).buckets
    ensures GroupBy(xs, outer, empty, AccumulateInto(inner, init, add)).buckets[k]
         == GroupBy(Select(xs, outer, k), inner, init, add)
  {
    GroupBySpec(xs, outer, empty, AccumulateInto(inner, init, add));
    FoldAccumulate(Select(xs, outer, k), inner, init, add);
    assert empty(k) == Groups([], map[]);
  }

  /** Selecting a key among filtered transactions keeps exactly those that
      pass the filter and carry the key. */
  lemma {:induction false} SelectOfFilter<K(!new)>(xs: seq<Transaction>, q: Transaction -> bool,
                                                  key: Transaction -> K, k: K, r: Transaction -> bool)
    requires forall t :: r(t) == (q(t) && key(t) == k)
    ensures Select(Filter(xs, q), key, k) == Filter(xs, r)
    decreases |xs|
  {
    if |xs| > 0 {
      var xs' := xs[..|xs| - 1];
      var t := xs[|xs| - 1];
      assert xs == xs' + [t];
      SelectOfFilter(xs', q, key, k, r);
      FilterSnoc(xs', t, q);
      FilterSnoc(xs', t, r);
      assert r(t) == (q(t) && key(t) == k);
      if q(t) {
        SelectSnoc(Filter(xs', q), t, key);
        assert Select(Filter(xs, q), key, k) == Select(Filter(xs', q) + [t], key, k);
      } else {
        assert Filter(xs, q) == Filter(xs', q);
      }
    }
  }

  /** Selecting by one key and then by another keeps exactly the
      transactions carrying both. */
  lemma {:induction false} SelectSelect<K(!new), J(!new)>(xs: seq<Transaction>, key1: Transaction -> K, k1: K,
                                                         key2: Transaction -> J, k2: J, r: Transaction -> bool)
    requires forall t :: r(t) == (key1(t) == k1 && key2(t) == k2)
    ensures Select(Select(xs, key1, k1), key2, k2) == Filter(xs, r)
    decreases |xs|
  {
    if |xs| > 0 {
      var xs' := xs[..|xs| - 1];
      var t := xs[|xs| - 1];
      assert xs == xs' + [t];
      SelectSelect(xs', key1, k1, key2, k2, r);
      SelectSnoc(xs', t, key1);
      FilterSnoc(xs', t, r);
      assert r(t) == (key1(t) == k1 && key2(t) == k2);
      if key1(t) == k1 {
        SelectSnoc(Select(xs', key1, k1), t, key2);
        assert Select(Select(xs, key1, k1), key2, k2) == Select(Select(xs', key1, k1) + [t], key2, k2);
      } else {
        assert Select(xs, key1, k1) == Select(xs', key1, k1);
      }
    }
  }
}
