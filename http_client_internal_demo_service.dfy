/** The http-client module's internal demo service: a map from UUID
    strings to demos, without validation of its own. */
module HttpClientInternalDemoService {
  import opened Common

  /** The REST demo record: the id is read-only for clients and may be
      absent on the way in. */
  datatype Demo = Demo(id: Option<string>, name: Option<string>)

  function NotFoundMessage(id: string): string
  {
    "Demo with id " + id + " not found"
  }

  class DemoService {
    var store: map<string, Demo>

    ghost predicate Valid()
      reads this
    {
      forall id :: id in store ==> store[id].id == Some(id)
    }

    constructor ()
      ensures Valid() && store == map[]
    {
      store := map[];
    }

    /** createDemo, with the random UUID passed in as `freshId`; the
        incoming id is discarded. */
    method CreateDemo(demo: Demo, freshId: string) returns (r: Demo)
      requires Valid()
      requires freshId !in store
      modifies this
      ensures Valid()
      ensures r == Demo(Some(freshId), demo.name)
      ensures store == old(store)[freshId := r]
    {
      var newDemo := Demo(Some(freshId), demo.name);
      store := store[freshId := newDemo];
      r := newDemo;
    }

    /** updateDemo: the path id replaces the incoming one. */
    method UpdateDemo(id: string, demo: Demo) returns (r: Result<Demo, Failure>)
      requires Valid()
      modifies this
      ensures Valid()
      ensures id !in old(store) ==> r == Err(NotFound(NotFoundMessage(id))) && store == old(store)
      ensures id in old(store) ==> r == Ok(Demo(Some(id), demo.name)) && store == old(store)[id := r.value]
    {
      if id !in store {
        return Err(NotFound(NotFoundMessage(id)));
      }
      var updatedDemo := Demo(Some(id), demo.name);
      store := store[id := updatedDemo];
      r := Ok(updatedDemo);
    }

    /** getAllDemos: the stored values, one per key, in iteration order. */
    method GetAllDemos(order: seq<string>) returns (demos: seq<Demo>)
      requires Valid()
      requires Enumerates(order, store)
      ensures |demos| == |store|
      ensures forall i :: 0 <= i < |demos| ==> demos[i] == store[order[i]] && demos[i].id == Some(order[i])
      ensures forall id :: id in store ==> store[id] in demos
    {
      demos := ValuesIn(store, order);
      EnumerationCoversKeys(order, store);
      forall id | id in store
        ensures store[id] in demos
      {
        var i :| 0 <= i < |order| && order[i] == id;
        assert demos[i] == store[id];
      }
    }

    method GetDemoById(id: string) returns (r: Result<Demo, Failure>)
      ensures r.Ok? <==> id in store
      ensures r.Ok? ==> r.value == store[id]
      ensures r.Err? ==> r.error == NotFound(NotFoundMessage(id))
    {
      if id in store {
        r := Ok(store[id]);
      } else {
        r := Err(NotFound(NotFoundMessage(id)));
      }
    }

    method DeleteDemo(id: string) returns (r: Outcome<Failure>)
      requires Valid()
      modifies this
      ensures Valid()
      ensures id in old(store) ==> r == Pass && store == old(store) - {id}
      ensures id !in old(store) ==> r == Fail(NotFound(NotFoundMessage(id))) && store == old(store)
    {
      if id !in store {
        return Fail(NotFound(NotFoundMessage(id)));
      }
      store := store - {id};
      r := Pass;
    }
  }

  /** Deleting the same id twice: the second call raises not-found and
      leaves the store as the first call left it. */
  method DeleteTwice(s: DemoService, id: string) returns (first: Outcome<Failure>, second: Outcome<Failure>)
    requires s.Valid() && id in s.store
    modifies s
    ensures first == Pass
    ensures second == Fail(NotFound(NotFoundMessage(id)))
    ensures s.store == old(s.store) - {id}
  {
    first := s.DeleteDemo(id);
    second := s.DeleteDemo(id);
  }
}
