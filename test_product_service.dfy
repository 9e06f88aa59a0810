/** The test module's product service over the in-memory repository. */
module TestProductService {
  import opened Common
  import opened TestProductModel
  import opened TestProductRepository

  function NotFoundMessage(id: int): string
  {
    "Product not found with id: " + IntToString(id)
  }

  class ProductService {
    const repository: InMemoryProductRepository

    /** Through the service every stored id was issued by the generator,
        so it lies below the generator's next value. */
    ghost predicate Valid()
      reads this, repository
    {
      && repository.Valid()
      && (forall id :: id in repository.store ==> 0 < id < repository.idGenerator)
    }

    constructor (repository: InMemoryProductRepository)
      requires repository.Valid()
      requires forall id :: id in repository.store ==> 0 < id < repository.idGenerator
      ensures this.repository == repository
      ensures Valid()
    {
      this.repository := repository;
    }

    /** createProduct: `new Product(null, name, price)` is checked before
        anything is saved; the saved product gets a never-used id. */
    method CreateProduct(name: Option<string>, price: Option<real>) returns (r: Result<Product, Failure>)
      requires Valid()
      modifies repository
      ensures Valid()
      ensures r.Ok? <==> NewProduct(None, name, price).Ok?
      ensures r.Err? ==> r == Err(NewProduct(None, name, price).error)
      ensures r.Err? ==> repository.store == old(repository.store) && repository.idGenerator == old(repository.idGenerator)
      ensures r.Ok? ==> r.value == ProductRecord(Some(old(repository.idGenerator)), name.value, price.value)
      ensures r.Ok? ==> old(repository.idGenerator) !in old(repository.store)
      ensures r.Ok? ==> repository.store == old(repository.store)[old(repository.idGenerator) := r.value]
      ensures r.Ok? ==> repository.idGenerator == old(repository.idGenerator) + 1
    {
      var product := NewProduct(None, name, price);
      if product.Err? {
        return Err(product.error);
      }
      var saved := repository.Save(product.value);
      r := Ok(saved);
    }

    method GetProductById(id: int) returns (r: Result<Product, Failure>)
      ensures r.Ok? <==> id in repository.store
      ensures r.Ok? ==> r.value == repository.store[id]
      ensures r.Err? ==> r.error == NotFound(NotFoundMessage(id))
    {
      var found := repository.FindById(id);
      if found.None? {
        return Err(NotFound(NotFoundMessage(id)));
      }
      r := Ok(found.value);
    }

    method GetAllProducts(order: seq<int>) returns (products: seq<Product>)
      requires Enumerates(order, repository.store)
      ensures |products| == |repository.store|
      ensures forall i :: 0 <= i < |products| ==> products[i] == repository.store[order[i]]
      ensures forall id :: id in repository.store ==> repository.store[id] in products
    {
      products := repository.FindAll(order);
    }

    /** updatePrice: look the product up (not-found first), rebuild it with
        the new price (which re-runs the price check), save it under the
        same id. */
    method UpdatePrice(id: int, newPrice: Option<real>) returns (r: Result<Product, Failure>)
      requires Valid()
      modifies repository
      ensures Valid()
      ensures repository.idGenerator == old(repository.idGenerator)
      ensures id !in old(repository.store) ==>
                r == Err(NotFound(NotFoundMessage(id))) && repository.store == old(repository.store)
      ensures id in old(repository.store) && (newPrice.None? || newPrice.value < 0.0) ==>
                r == Err(IllegalArgument(PriceMustBePositive)) && repository.store == old(repository.store)
      ensures id in old(repository.store) && newPrice.Some? && newPrice.value >= 0.0 ==>
                && r == Ok(ProductRecord(Some(id), old(repository.store)[id].name, newPrice.value))
                && repository.store == old(repository.store)[id := r.value]
    {
      var product := GetProductById(id);
      if product.Err? {
        return Err(product.error);
      }
      var updated := NewProduct(product.value.id, Some(product.value.name), newPrice);
      if updated.Err? {
        return Err(updated.error);
      }
      var saved := repository.Save(updated.value);
      r := Ok(saved);
    }

    /** deleteProduct: no existence check, an absent id is not an error. */
    method DeleteProduct(id: int)
      requires Valid()
      modifies repository
      ensures Valid()
      ensures repository.store == old(repository.store) - {id}
      ensures repository.idGenerator == old(repository.idGenerator)
    {
      repository.DeleteById(id);
    }

    method ClearAll()
      requires Valid()
      modifies repository
      ensures Valid()
      ensures repository.store == map[] && repository.idGenerator == 1
    {
      repository.Clear();
    }
  }

  /** Two successful creations in a row return different ids. */
  method SuccessiveCreatesGetDistinctIds(s: ProductService, name1: string, price1: real, name2: string, price2: real)
    returns (first: Result<Product, Failure>, second: Result<Product, Failure>)
    requires s.Valid()
    requires !IsBlank(name1) && price1 >= 0.0 && !IsBlank(name2) && price2 >= 0.0
    modifies s.repository
    ensures first.Ok? && second.Ok?
    ensures first.value.id.Some? && second.value.id.Some? && first.value.id != second.value.id
    ensures first.value.id.value in s.repository.store && second.value.id.value in s.repository.store
  {
    first := s.CreateProduct(Some(name1), Some(price1));
    second := s.CreateProduct(Some(name2), Some(price2));
  }

  /** After deleteProduct the product is gone, and deleting it again is
      still not an error. */
  method DeleteThenGet(s: ProductService, id: int) returns (read: Result<Product, Failure>)
    requires s.Valid()
    modifies s.repository
    ensures read == Err(NotFound(NotFoundMessage(id)))
  {
    s.DeleteProduct(id);
    read := s.GetProductById(id);
    s.DeleteProduct(id);
  }

  /** After clearAll, getAllProducts returns nothing. */
  method ClearThenList(s: ProductService) returns (products: seq<Product>)
    requires s.Valid()
    modifies s.repository
    ensures products == []
  {
    s.ClearAll();
    products := s.GetAllProducts([]);
  }
}
