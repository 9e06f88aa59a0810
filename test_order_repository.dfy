/** The test module's in-memory order repository: a map from Long ids to
    orders and an AtomicLong id generator starting at 1. */
module TestOrderRepository {
  import opened Common
  import opened TestOrderModel

  class InMemoryOrderRepository {
    var store: map<int, Order>
    var idGenerator: nat

    ghost predicate Valid()
      reads this
    {
      && idGenerator >= 1
      && (forall id :: id in store ==> store[id].id == Some(id))
    }

    constructor ()
      ensures Valid()
      ensures store == map[] && idGenerator == 1
    {
      store := map[];
      idGenerator := 1;
    }

    /** save: an order without id is rebuilt with the generator's value
        (customer id, status and request id kept) and the generator
        advances; an order with an id is stored as given. */
    method Save(order: Order) returns (r: Order)
      requires Valid()
      modifies this
      ensures Valid()
      ensures order.id.None? ==> r == order.(id := Some(old(idGenerator))) && idGenerator == old(idGenerator) + 1
      ensures order.id.Some? ==> r == order && idGenerator == old(idGenerator)
      ensures r.id.Some? && store == old(store)[r.id.value := r]
    {
      var orderToSave := order;
      if order.id.None? {
        orderToSave := order.(id := Some(idGenerator));
        idGenerator := idGenerator + 1;
      }
      store := store[orderToSave.id.value := orderToSave];
      r := orderToSave;
    }
  }
}
