/** The test module's product record and the checks of its compact
    constructor. Only the sign of the Double price matters, so the price is
    a real number. */
module TestProductModel {
  import opened Common

  datatype ProductRecord = ProductRecord(id: Option<int>, name: string, price: real)

  /** What the compact constructor lets through: a non-blank name and a
      price that is not negative (zero included). */
  predicate Admissible(p: ProductRecord)
  {
    !IsBlank(p.name) && p.price >= 0.0
  }

  /** A Java Product instance: one that got past its constructor. */
  type Product = p: ProductRecord | Admissible(p)
    // the assert exhibits the non-whitespace character that IsBlank quantifies over
    witness assert "x"[0] == 'x'; ProductRecord(None, "x", 0.0)

  const NameCannotBeBlank := "Product name cannot be blank"
  const PriceMustBePositive := "Product price must be positive"

  /** `new Product(id, name, price)`: the name is checked before the price;
      the id is not checked at all and may be null. */
  function NewProduct(id: Option<int>, name: Option<string>, price: Option<real>): (r: Result<Product, Failure>)
    ensures r.Ok? <==> !IsNullOrBlank(name) && price.Some? && price.value >= 0.0
    ensures r.Ok? ==> r.value == ProductRecord(id, name.value, price.value)
    ensures IsNullOrBlank(name) ==> r == Err(IllegalArgument(NameCannotBeBlank))
    ensures !IsNullOrBlank(name) && (price.None? || price.value < 0.0) ==> r == Err(IllegalArgument(PriceMustBePositive))
  {
    if IsNullOrBlank(name) then Err(IllegalArgument(NameCannotBeBlank))
    else if price.None? || price.value < 0.0 then Err(IllegalArgument(PriceMustBePositive))
    else Ok(ProductRecord(id, name.value, price.value))
  }

  /** A price of zero is accepted, although the message for a rejected
      price says it must be positive. */
  lemma ZeroPriceIsAccepted(id: Option<int>, name: string)
    requires !IsBlank(name)
    ensures NewProduct(id, Some(name), Some(0.0)) == Ok(ProductRecord(id, name, 0.0))
  {
  }

  /** Re-running the constructor on the components of a product always
      succeeds and gives the same product back; the repository relies on
      this when it re-creates a product with a generated id. */
  lemma {:induction false} ReconstructionSucceeds(p: Product, id: Option<int>)
    ensures NewProduct(id, Some(p.name), Some(p.price)) == Ok(p.(id := id))
  {
  }
}
