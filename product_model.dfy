/**
  The `Product` schema: a required name, non-negative stock, price and
  discount, and the custom validator `v <= this.price` on the discount.
*/
module ProductModel {
  import opened Wrappers
  import opened JsStrings
  import opened Documents

  /**
    A product document. `more_details` is an arbitrary object, kept here as
    a map from keys to their (textual) values.
  */
  datatype Product = Product(
    name: Option<string>,
    image: seq<string>,
    category: seq<ObjectId>,
    subCategory: seq<ObjectId>,
    unit: Option<string>,
    stock: int,
    price: int,
    discount: int,
    description: Option<string>,
    moreDetails: map<string, string>,
    publish: bool)

  /** The document `new ProductModel({})` builds: every default and no name. */
  const Defaults: Product := Product(
    name := None,
    image := [],
    category := [],
    subCategory := [],
    unit := None,
    stock := 0,
    price := 0,
    discount := 0,
    description := None,
    moreDetails := map[],
    publish := true)

  /** What `save` accepts: a name, the three `min: 0` bounds and the discount validator. */
  predicate Valid(p: Product) {
    && Truthy(p.name)
    && p.stock >= 0
    && p.price >= 0
    && p.discount >= 0
    && p.discount <= p.price
  }

  /** `new ProductModel({ name })`: the name through its `trim` setter, every other field at its default. */
  function New(name: string): (p: Product)
    ensures p.name == Some(Trim(name)) && IsTrimmed(p.name.value)
    ensures p.(name := None) == Defaults
    ensures Valid(p) <==> !AllWhitespace(name)
  {
    TrimEmptyIff(name);
    Defaults.(name := Some(Trim(name)))
  }

  /** A product without a name does not validate. */
  lemma DefaultsInvalid()
    ensures !Valid(Defaults)
  {
  }

  /**
    In a valid product the discounted price `price - discount` lies between 0
    and the price, and a free product carries no discount.
  */
  lemma ValidDiscountedPrice(p: Product)
    requires Valid(p)
    ensures 0 <= p.price - p.discount <= p.price
    ensures p.price == 0 ==> p.discount == 0
  {
  }

  /** A positive discount on a product whose price is 0 is refused. */
  lemma DiscountOnFreeProductInvalid(p: Product)
    requires p.price == 0 && p.discount > 0
    ensures !Valid(p)
  {
  }

  /**
    Setting the three numbers of a named product validates exactly when none
    is negative and the discount does not exceed the price; the other fields
    play no part.
  */
  lemma PricingValid(name: string, stock: int, price: int, discount: int)
    ensures Valid(New(name).(stock := stock, price := price, discount := discount))
        <==> !AllWhitespace(name) && stock >= 0 && 0 <= discount <= price
  {
    TrimEmptyIff(name);
  }
}
