/** The dimensions a sales list can be grouped by, and the key each
    transaction falls under (TopBottomSellers.tsx, the `switch (type)`). */
module Dimensions {
  import opened Options
  import opened Transactions

  datatype Dimension = Product | Category | Member | Seller | PaymentMethod

  /** The key of a transaction none of whose source fields is set. */
  function Sentinel(d: Dimension): string {
    match d
    case Product => "Unknown Product"
    case Category => "Unknown Category"
    case Member => "Unknown Member"
    case Seller => "Unknown Seller"
    case PaymentMethod => "Unknown Method"
  }

  /** The fields a dimension reads its key from, most preferred first. */
  function SourceFields(t: Transaction, d: Dimension): seq<Option<string>> {
    match d
    case Product => [t.cleanedProduct, t.paymentItem]
    case Category => [t.cleanedCategory, t.paymentCategory]
    case Member => [t.customerName]
    case Seller => [t.soldBy]
    case PaymentMethod => [t.paymentMethod]
  }

  /** The first truthy field, or `fallback` when there is none. */
  function FirstTruthy(fields: seq<Option<string>>, fallback: string): string
    decreases |fields|
  {
    if |fields| == 0 then fallback
    else if Truthy(fields[0]) then fields[0].value
    else FirstTruthy(fields[1..], fallback)
  }

  /** `item.cleanedProduct || item.paymentItem || 'Unknown Product'` and its
      siblings: the first set field of the dimension, else its sentinel. The
      key is never empty. */
  function GroupKey(t: Transaction, d: Dimension): (k: string)
    ensures k == FirstTruthy(SourceFields(t, d), Sentinel(d))
    ensures k != ""
  {
    match d
    case Product =>
      assert SourceFields(t, d)[1..] == [t.paymentItem];
      assert FirstTruthy([t.paymentItem], "Unknown Product") == OrElse(t.paymentItem, "Unknown Product");
      OrElse(t.cleanedProduct, OrElse(t.paymentItem, "Unknown Product"))
    case Category =>
      assert SourceFields(t, d)[1..] == [t.paymentCategory];
      assert FirstTruthy([t.paymentCategory], "Unknown Category") == OrElse(t.paymentCategory, "Unknown Category");
      OrElse(t.cleanedCategory, OrElse(t.paymentCategory, "Unknown Category"))
    case Member => OrElse(t.customerName, "Unknown Member")
    case Seller => OrElse(t.soldBy, "Unknown Seller")
    case PaymentMethod => OrElse(t.paymentMethod, "Unknown Method")
  }

  /** The group key as a function value, for the grouper. */
  function KeyOf(d: Dimension): Transaction -> string {
    t => GroupKey(t, d)
  }
}
