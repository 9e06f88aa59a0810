/** The http-client module's demo service with sequential ids: a map from
    Long ids to demos and an AtomicLong generator that starts at 1. The
    service itself does not validate names (the REST layer does). */
module HttpClientDemoService {
  import opened Common

  /** A demo. The service builds stored demos with a numeric id; an
      incoming demo may carry any id, or none, and it is ignored. */
  datatype Demo = Demo(id: Option<nat>, name: Option<string>)

  function NotFoundMessage(id: nat): string
  {
    "Demo with id " + NatToString(id) + " not found"
  }

  class DemoService {
    var store: map<nat, Demo>
    var generator: nat
    /** Every id the generator has handed out so far. */
    ghost var issued: set<nat>

    /** Ids come from the generator only: each stored demo sits under its
        own id, every issued id is below the generator's next value, and
        the issued ids are exactly 1 .. generator - 1. */
    ghost predicate Valid()
      reads this
    {
      && generator >= 1
      && store.Keys <= issued
      && (forall id :: id in store ==> store[id].id == Some(id))
      && (forall id :: id in issued <==> 1 <= id < generator)
    }

    constructor ()
      ensures Valid()
      ensures store == map[] && generator == 1 && issued == {}
    {
      store := map[];
      generator := 1;
      issued := {};
    }

    /** createDemo: getAndIncrement on the generator, the incoming id is
        discarded. The new id was never issued before, so no entry is
        overwritten and no deleted id comes back. */
    method CreateDemo(demo: Demo) returns (r: Demo)
      requires Valid()
      modifies this
      ensures Valid()
      ensures r == Demo(Some(old(generator)), demo.name)
      ensures old(generator) !in old(issued) && old(generator) !in old(store)
      ensures generator == old(generator) + 1
      ensures issued == old(issued) + {old(generator)}
      ensures store == old(store)[old(generator) := r]
    {
      var id := generator;
      generator := generator + 1;
      issued := issued + {id};
      var newDemo := Demo(Some(id), demo.name);
      store := store[id := newDemo];
      r := newDemo;
    }

    /** updateDemo: the path id wins over the incoming one. */
    method UpdateDemo(id: nat, demo: Demo) returns (r: Result<Demo, Failure>)
      requires Valid()
      modifies this
      ensures Valid()
      ensures generator == old(generator) && issued == old(issued)
      ensures id !in old(store) ==> r == Err(NotFound(NotFoundMessage(id))) && store == old(store)
      ensures id in old(store) ==> r == Ok(Demo(Some(id), demo.name)) && store == old(store)[id := r.value]
    {
      if id !in store {
        return Err(NotFound(NotFoundMessage(id)));
      }
      var updatedDemo := Demo(Some(id), demo.name);
      store := store[id := updatedDemo];
      r := Ok(updatedDemo);
    }

    /** getAllDemos: the values in iteration order. */
    method GetAllDemos(order: seq<nat>) returns (demos: seq<Demo>)
      requires Valid()
      requires Enumerates(order, store)
      ensures |demos| == |store|
      ensures forall i :: 0 <= i < |demos| ==> demos[i] == store[order[i]] && demos[i].id == Some(order[i])
      ensures forall id :: id in store ==> store[id] in demos
    {
      demos := ValuesIn(store, order);
      EnumerationCoversKeys(order, store);
      forall id | id in store
        ensures store[id] in demos
      {
        var i :| 0 <= i < |order| && order[i] == id;
        assert demos[i] == store[id];
      }
    }

    method GetDemoById(id: nat) returns (r: Result<Demo, Failure>)
      ensures r.Ok? <==> id in store
      ensures r.Ok? ==> r.value == store[id]
      ensures r.Err? ==> r.error == NotFound(NotFoundMessage(id))
    {
      if id in store {
        r := Ok(store[id]);
      } else {
        r := Err(NotFound(NotFoundMessage(id)));
      }
    }

    /** deleteDemo: removes only the given key; the id stays issued. */
    method DeleteDemo(id: nat) returns (r: Outcome<Failure>)
      requires Valid()
      modifies this
      ensures Valid()
      ensures generator == old(generator) && issued == old(issued)
      ensures id in old(store) ==> r == Pass && store == old(store) - {id}
      ensures id !in old(store) ==> r == Fail(NotFound(NotFoundMessage(id))) && store == old(store)
    {
      if id !in store {
        return Fail(NotFound(NotFoundMessage(id)));
      }
      store := store - {id};
      r := Pass;
    }
  }

  /** On a fresh service the first two creations get ids 1 and 2, and the
      ids they carried in are ignored. */
  method FirstIdsAreOneAndTwo(first: Demo, second: Demo) returns (a: Demo, b: Demo)
    ensures a == Demo(Some(1), first.name)
    ensures b == Demo(Some(2), second.name)
  {
    var service := new DemoService();
    a := service.CreateDemo(first);
    b := service.CreateDemo(second);
  }

  /** A deleted id is not reissued by a later creation. */
  method DeleteThenCreate(s: DemoService, id: nat, demo: Demo) returns (created: Demo)
    requires s.Valid() && id in s.store
    modifies s
    ensures created.id != Some(id)
    ensures id !in s.store
  {
    var deleted := s.DeleteDemo(id);
    created := s.CreateDemo(demo);
  }
}
