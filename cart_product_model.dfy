/** The `CartProduct` schema: optional product and user references and a quantity of at least 1. */
module CartProductModel {
  import opened Wrappers
  import opened Documents

  datatype CartProduct = CartProduct(productId: Option<ObjectId>, quantity: int, userId: Option<ObjectId>)

  const MinQuantity: int := 1

  /** The `min: 1` bound on the quantity is the only validator. */
  predicate Valid(c: CartProduct) {
    c.quantity >= MinQuantity
  }

  /** `new CartProductModel({ productId, userId })`: the quantity defaults to 1, so the item is valid. */
  function New(productId: Option<ObjectId>, userId: Option<ObjectId>): (c: CartProduct)
    ensures c.productId == productId && c.userId == userId
    ensures c.quantity == 1
    ensures Valid(c)
  {
    CartProduct(productId, 1, userId)
  }

  /** A quantity of 0 or less is refused, whatever the references. */
  lemma NonPositiveQuantityInvalid(c: CartProduct)
    requires c.quantity <= 0
    ensures !Valid(c)
  {
  }

  /** The references are optional: their presence or absence never changes validity. */
  lemma ReferencesIrrelevant(c: CartProduct, productId: Option<ObjectId>, userId: Option<ObjectId>)
    ensures Valid(c.(productId := productId, userId := userId)) <==> Valid(c)
    ensures Valid(c) <==> c.quantity >= 1
  {
  }
}
