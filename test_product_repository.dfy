/** The test module's in-memory product repository: a map from Long ids to
    products and an AtomicLong id generator starting at 1, which `clear`
    resets. */
module TestProductRepository {
  import opened Common
  import opened TestProductModel

  class InMemoryProductRepository {
    var store: map<int, Product>
    var idGenerator: nat

    /** Every product sits under its own id; the generator never hands out
        an id below 1. */
    ghost predicate Valid()
      reads this
    {
      && idGenerator >= 1
      && (forall id :: id in store ==> store[id].id == Some(id))
    }

    constructor ()
      ensures Valid()
      ensures store == map[] && idGenerator == 1
    {
      store := map[];
      idGenerator := 1;
    }

    /** save: a product without id gets the generator's current value and
        the generator advances; a product with an id replaces whatever is
        stored under it and the generator stays. */
    method Save(product: Product) returns (r: Product)
      requires Valid()
      modifies this
      ensures Valid()
      ensures product.id.None? ==> r == product.(id := Some(old(idGenerator))) && idGenerator == old(idGenerator) + 1
      ensures product.id.Some? ==> r == product && idGenerator == old(idGenerator)
      ensures r.id.Some? && store == old(store)[r.id.value := r]
    {
      var productToSave := product;
      if product.id.None? {
        ReconstructionSucceeds(product, Some(idGenerator));
        productToSave := product.(id := Some(idGenerator));
        idGenerator := idGenerator + 1;
      }
      store := store[productToSave.id.value := productToSave];
      r := productToSave;
    }

    method FindById(id: int) returns (r: Option<Product>)
      ensures r.Some? <==> id in store
      ensures r.Some? ==> r.value == store[id]
    {
      r := if id in store then Some(store[id]) else None;
    }

    /** findAll: a copy of the values, in iteration order. */
    method FindAll(order: seq<int>) returns (products: seq<Product>)
      requires Enumerates(order, store)
      ensures |products| == |store|
      ensures forall i :: 0 <= i < |products| ==> products[i] == store[order[i]]
      ensures forall id :: id in store ==> store[id] in products
    {
      products := ValuesIn(store, order);
      EnumerationCoversKeys(order, store);
      forall id | id in store
        ensures store[id] in products
      {
        var i :| 0 <= i < |order| && order[i] == id;
        assert products[i] == store[id];
      }
    }

    /** deleteById: removes the key if present, silently does nothing otherwise. */
    method DeleteById(id: int)
      requires Valid()
      modifies this
      ensures Valid()
      ensures store == old(store) - {id} && idGenerator == old(idGenerator)
    {
      store := store - {id};
    }

    /** clear: empties the store and resets the generator to 1. */
    method Clear()
      requires Valid()
      modifies this
      ensures Valid()
      ensures store == map[] && idGenerator == 1
    {
      store := map[];
      idGenerator := 1;
    }
  }

  /** Whatever save returns can be found under its id. */
  method SaveThenFind(repo: InMemoryProductRepository, product: Product) returns (saved: Product, found: Option<Product>)
    requires repo.Valid()
    modifies repo
    ensures saved.id.Some? && found == Some(saved)
  {
    saved := repo.Save(product);
    found := repo.FindById(saved.id.value);
  }

  /** After clear, the next product saved without id gets id 1. */
  method ClearThenSave(repo: InMemoryProductRepository, product: Product) returns (saved: Product)
    requires repo.Valid() && product.id.None?
    modifies repo
    ensures saved.id == Some(1)
    ensures repo.store == map[1 := saved]
  {
    repo.Clear();
    saved := repo.Save(product);
  }
}
