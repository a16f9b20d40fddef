/** The groupers accumulate into a plain object literal `{}`. Such an object
    inherits members from `Object.prototype`, so `acc[key]` is already
    truthy for a key such as "constructor" or "toString": no accumulator is
    created, and the update that follows reaches `uniqueMembers.add` on a
    value without that property, which throws a TypeError. This module
    models that behaviour and relates it to `Grouping.GroupBy`, the grouping
    the rest of the model uses, which keys by own entries only. */
module PlainObjectKeys {
  import opened Options
  import Seqs
  import opened Transactions
  import opened Grouping
  import Dimensions
  import TopBottomSellers
  import SalesAnalytics

  /** Names every plain object inherits from `Object.prototype`; each of
      them reads as a truthy value. */
  const InheritedNames: set<string> := {
    "constructor", "__proto__", "toString", "toLocaleString", "valueOf",
    "hasOwnProperty", "isPrototypeOf", "propertyIsEnumerable",
    "__defineGetter__", "__defineSetter__", "__lookupGetter__", "__lookupSetter__"
  }

  /** A grouping run either completes or throws part-way. */
  datatype Outcome<T> = Completed(value: T) | Crashed

  /** The `reduce` as written: a key with no own accumulator but an
      inherited member skips the initialisation and then throws. */
  function GroupAsWritten<A>(xs: seq<Transaction>, key: Transaction -> string,
                             init: string -> A, add: (A, Transaction) -> A): Outcome<Groups<string, A>>
    decreases |xs|
  {
    if |xs| == 0 then Completed(Groups([], map[]))
    else
      match GroupAsWritten(xs[..|xs| - 1], key, init, add)
      case Crashed => Crashed
      case Completed(g) =>
        var t := xs[|xs| - 1];
        if key(t) !in g.buckets && key(t) in InheritedNames then Crashed
        else Completed(Accumulate(g, t, key, init, add))
  }

  /** No inherited name among the keys of `xs`. */
  predicate OwnKeysOnly(xs: seq<Transaction>, key: Transaction -> string) {
    forall i :: 0 <= i < |xs| ==> key(xs[i]) !in InheritedNames
  }

  /** Every bucket is named by the key of some sale. */
  lemma {:induction false} BucketHasSale<A>(xs: seq<Transaction>, key: Transaction -> string,
                         init: string -> A, add: (A, Transaction) -> A, k: string)
    ensures k in GroupBy(xs, key, init, add).buckets ==> exists i :: 0 <= i < |xs| && key(xs[i]) == k
  {
    var s := Select(xs, key, k);
    GroupBySpec(xs, key, init, add);
    if s != [] {
      SelectMembership(xs, key, k, s[0]);
    }
  }

  /** When every key is an own name, no bucket carries an inherited name. */
  lemma {:induction false} NoInheritedBucket<A>(xs: seq<Transaction>, key: Transaction -> string,
                             init: string -> A, add: (A, Transaction) -> A, k: string)
    requires OwnKeysOnly(xs, key)
    requires k in InheritedNames
    ensures k !in GroupBy(xs, key, init, add).buckets
  {
    BucketHasSale(xs, key, init, add, k);
  }

  lemma {:induction false} OwnKeysSnoc(xs: seq<Transaction>, key: Transaction -> string)
    requires |xs| > 0
    ensures OwnKeysOnly(xs, key) <==>
      OwnKeysOnly(xs[..|xs| - 1], key) && key(xs[|xs| - 1]) !in InheritedNames
  {
    var xs' := xs[..|xs| - 1];
    if OwnKeysOnly(xs', key) && key(xs[|xs| - 1]) !in InheritedNames {
      forall i | 0 <= i < |xs| ensures key(xs[i]) !in InheritedNames {
        if i < |xs'| {
          assert xs[i] == xs'[i];
        }
      }
    }
    if OwnKeysOnly(xs, key) {
      forall i | 0 <= i < |xs'| ensures key(xs'[i]) !in InheritedNames {
        assert xs'[i] == xs[i];
      }
    }
  }

  /** The run throws exactly when some sale's key is an inherited name, and
      otherwise yields the own-key grouping. */
  lemma {:induction false} AsWrittenAgreesOrCrashes<A>(xs: seq<Transaction>, key: Transaction -> string,
                                                       init: string -> A, add: (A, Transaction) -> A)
    ensures GroupAsWritten(xs, key, init, add).Crashed? <==> !OwnKeysOnly(xs, key)
    ensures OwnKeysOnly(xs, key) ==> GroupAsWritten(xs, key, init, add) == Completed(GroupBy(xs, key, init, add))
    decreases |xs|
  {
    if |xs| > 0 {
      var xs' := xs[..|xs| - 1];
      var t := xs[|xs| - 1];
      AsWrittenAgreesOrCrashes(xs', key, init, add);
      OwnKeysSnoc(xs, key);
      if !OwnKeysOnly(xs', key) {
        assert GroupAsWritten(xs, key, init, add) == Crashed;
      } else {
        var g := GroupBy(xs', key, init, add);
        assert GroupAsWritten(xs', key, init, add) == Completed(g);
        if key(t) in InheritedNames {
          NoInheritedBucket(xs', key, init, add, key(t));
          assert GroupAsWritten(xs, key, init, add) == Crashed;
        } else {
          assert GroupAsWritten(xs, key, init, add) == Completed(Accumulate(g, t, key, init, add));
          assert GroupBy(xs, key, init, add) == Accumulate(g, t, key, init, add);
        }
      }
    }
  }

  /** A sale whose only set field is its seller. */
  function SaleBy(seller: string): Transaction {
    Transaction(Some(100.0), None, None, None, None, None, None, None, Some(seller), None)
  }

  /** A sale whose only set field is its payment method. */
  function SalePaidBy(name: string): Transaction {
    Transaction(Some(100.0), None, None, None, None, None, None, None, None, Some(name))
  }

  /** One sale by a seller named "constructor": the run as written throws,
      while the own-key grouping lists that seller with the sale's value. */
  lemma {:induction false} ConstructorSellerCrashes()
    ensures GroupAsWritten([SaleBy("constructor")], Dimensions.KeyOf(Dimensions.Seller),
                           TopBottomSellers.NewAcc, TopBottomSellers.AddSale).Crashed?
    ensures TopBottomSellers.SalesRows([SaleBy("constructor")], Dimensions.Seller)[0].name == "constructor"
    ensures TopBottomSellers.SalesRows([SaleBy("constructor")], Dimensions.Seller)[0].totalValue == 100.0
  {
    var xs := [SaleBy("constructor")];
    var d := Dimensions.Seller;
    assert Dimensions.GroupKey(xs[0], d) == "constructor";
    AsWrittenAgreesOrCrashes(xs, Dimensions.KeyOf(d), TopBottomSellers.NewAcc, TopBottomSellers.AddSale);
    TopBottomSellers.CreationOrderKeys(xs, d);
    var rows := TopBottomSellers.SalesRows(xs, d);
    var r := rows[0];
    TopBottomSellers.SalesRowsSummarise(xs, d);
    TopBottomSellers.SalesRowsRanked(xs, d, 0.0);
    assert |Seqs.Map(TopBottomSellers.CreationOrder(xs, d), TopBottomSellers.RowName)| >= 1;
    assert |TopBottomSellers.CreationOrder(xs, d)| == 1 by {
      Seqs.FilterLength(xs, (t: Transaction) => true);
    }
  }

  /** One sale paid by a method named "toString": the payment-method summary
      as written throws, while the own-key summary has one row for it. */
  lemma {:induction false} ToStringMethodCrashes()
    ensures GroupAsWritten([SalePaidBy("toString")], Dimensions.KeyOf(Dimensions.PaymentMethod),
                           SalesAnalytics.NewAcc, SalesAnalytics.AddSale).Crashed?
    ensures |SalesAnalytics.PaymentMethodData([SalePaidBy("toString")])| == 1
    ensures SalesAnalytics.PaymentMethodData([SalePaidBy("toString")])[0].name == "toString"
    ensures SalesAnalytics.PaymentMethodData([SalePaidBy("toString")])[0].transactions == 1
  {
    var xs := [SalePaidBy("toString")];
    var d := Dimensions.PaymentMethod;
    assert Dimensions.GroupKey(xs[0], d) == "toString";
    AsWrittenAgreesOrCrashes(xs, Dimensions.KeyOf(d), SalesAnalytics.NewAcc, SalesAnalytics.AddSale);
    SalesAnalytics.SummaryKeys(xs, d);
    SalesAnalytics.SummaryRows(xs, d);
    var rows := SalesAnalytics.Summary(xs, d);
    assert "toString" in Seqs.Map(rows, SalesAnalytics.RowName);
    assert |rows| == 1 by {
      var g := SalesAnalytics.Accumulated(xs, d);
      assert Select(xs, Dimensions.KeyOf(d), "toString") != [];
      assert |g.order| <= 1;
    }
  }
}
