/**
  The `Order` schema: a required `orderId` with a unique index, a snapshot of
  the product's name and images, and non-negative amounts.
*/
module OrderModel {
  import opened Wrappers
  import opened JsStrings
  import opened Documents

  /** The copy of the product taken when the order is placed: only its name and images. */
  datatype ProductDetails = ProductDetails(name: Option<string>, image: seq<string>)

  datatype Order = Order(
    userId: Option<ObjectId>,
    orderId: Option<string>,
    productId: Option<ObjectId>,
    productDetails: ProductDetails,
    paymentId: Option<string>,
    paymentStatus: Option<string>,
    deliveryAddress: Option<ObjectId>,
    subTotalAmt: int,
    totalAmt: int,
    invoiceReceipt: Option<string>)

  /** The document `new OrderModel({})` builds: every default and no order id. */
  const Defaults: Order := Order(
    userId := None,
    orderId := None,
    productId := None,
    productDetails := ProductDetails(None, []),
    paymentId := None,
    paymentStatus := None,
    deliveryAddress := None,
    subTotalAmt := 0,
    totalAmt := 0,
    invoiceReceipt := None)

  /** What `save` accepts: an order id and the two `min: 0` bounds; nothing relates the two amounts. */
  predicate Valid(o: Order) {
    && Truthy(o.orderId)
    && o.subTotalAmt >= 0
    && o.totalAmt >= 0
  }

  /** No two orders of the collection share an order id (the unique index on `orderId`). */
  predicate UniqueOrderIds(orders: seq<Order>) {
    forall i, j :: 0 <= i < j < |orders| ==> orders[i].orderId != orders[j].orderId
  }

  predicate OrderIdTaken(orders: seq<Order>, orderId: Option<string>) {
    exists i :: 0 <= i < |orders| && orders[i].orderId == orderId
  }

  /**
    `new OrderModel({ orderId })`: every other field at its default. The id
    has no `trim` setter, so it is kept as given and validates whenever it is
    non-empty, even if it is whitespace only.
  */
  function New(orderId: string): (o: Order)
    ensures o.orderId == Some(orderId)
    ensures o.(orderId := None) == Defaults
    ensures Valid(o) <==> orderId != ""
  {
    Defaults.(orderId := Some(orderId))
  }

  /** An order without an id does not validate. */
  lemma DefaultsInvalid()
    ensures !Valid(Defaults)
  {
  }

  /**
    The amounts are checked one by one: any two non-negative amounts are
    accepted, a total below the subtotal included, and a negative one is refused.
  */
  lemma AmountsIndependent(orderId: string, subTotal: int, total: int)
    requires orderId != ""
    ensures Valid(New(orderId).(subTotalAmt := subTotal, totalAmt := total)) <==> subTotal >= 0 && total >= 0
  {
  }

  /** Adding an order whose id is not yet taken keeps the order ids unique. */
  lemma AppendKeepsUniqueOrderIds(orders: seq<Order>, o: Order)
    requires UniqueOrderIds(orders)
    requires !OrderIdTaken(orders, o.orderId)
    ensures UniqueOrderIds(orders + [o])
  {
    var all := orders + [o];
    forall i, j | 0 <= i < j < |all| ensures all[i].orderId != all[j].orderId {
      if j == |orders| {
        assert all[i] == orders[i];
      }
    }
  }

  /** Adding an order whose id is already taken breaks uniqueness: the unique index must refuse it. */
  lemma AppendTakenBreaksUnique(orders: seq<Order>, o: Order)
    requires OrderIdTaken(orders, o.orderId)
    ensures !UniqueOrderIds(orders + [o])
  {
    var i :| 0 <= i < |orders| && orders[i].orderId == o.orderId;
    var all := orders + [o];
    assert all[i].orderId == all[|orders|].orderId;
  }
}
