/** The gRPC module's demo service: an in-memory map from UUID strings to
    demos whose names are validated (non-blank, at most 50 UTF-16 units). */
module GrpcDemoService {
  import opened Common

  datatype Demo = Demo(id: string, name: string)

  const MaxNameLength := 50
  const NameMustNotBeBlank := "Name must not be blank"
  const NameTooLong := "Name must not exceed 50 characters"

  function NotFoundMessage(id: string): string
  {
    "Demo with id " + id + " not found"
  }

  /** The names validateName lets through. */
  predicate IsValidName(name: Option<string>)
  {
    name.Some? && !IsBlank(name.value) && Utf16Length(name.value) <= MaxNameLength
  }

  /** validateName: blankness is checked before length. */
  function ValidateName(name: Option<string>): (r: Outcome<Failure>)
    ensures r.Pass? <==> IsValidName(name)
    ensures r.Fail? && IsNullOrBlank(name) ==> r.error == IllegalArgument(NameMustNotBeBlank)
    ensures r.Fail? && !IsNullOrBlank(name) ==> r.error == IllegalArgument(NameTooLong)
  {
    if IsNullOrBlank(name) then Fail(IllegalArgument(NameMustNotBeBlank))
    else if Utf16Length(name.value) > MaxNameLength then Fail(IllegalArgument(NameTooLong))
    else Pass
  }

  /** The limit counts UTF-16 units: a name of Basic Multilingual Plane
      characters may have 50 of them, a name made only of characters
      outside that plane (emoji, say) only 25. */
  lemma {:induction false} LengthIsCountedInUtf16Units(s: string)
    requires !IsBlank(s)
    ensures |s| <= 25 ==> IsValidName(Some(s))
    ensures |s| > 50 ==> !IsValidName(Some(s))
    ensures (forall i :: 0 <= i < |s| ==> s[i] as int <= 0xFFFF) ==> (IsValidName(Some(s)) <==> |s| <= 50)
    ensures (forall i :: 0 <= i < |s| ==> s[i] as int > 0xFFFF) ==> (IsValidName(Some(s)) <==> |s| <= 25)
  {
    if forall i :: 0 <= i < |s| ==> s[i] as int > 0xFFFF {
      AllSupplementaryCountTwice(s);
    }
  }

  lemma {:induction false} AllSupplementaryCountTwice(s: string)
    requires forall i :: 0 <= i < |s| ==> s[i] as int > 0xFFFF
    ensures Utf16Length(s) == 2 * |s|
  {
    if s != [] {
      AllSupplementaryCountTwice(s[1..]);
    }
  }

  class DemoService {
    var store: map<string, Demo>

    /** Every demo sits under its own id and has a valid name. */
    ghost predicate Valid()
      reads this
    {
      forall id :: id in store ==> store[id].id == id && IsValidName(Some(store[id].name))
    }

    constructor ()
      ensures Valid() && store == map[]
    {
      store := map[];
    }

    /** createDemo, with the random UUID passed in as `freshId`. */
    method CreateDemo(name: Option<string>, freshId: string) returns (r: Result<Demo, Failure>)
      requires Valid()
      requires freshId !in store
      modifies this
      ensures Valid()
      ensures r.Ok? <==> IsValidName(name)
      ensures r.Err? ==> Fail(r.error) == ValidateName(name) && store == old(store)
      ensures r.Ok? ==> r.value == Demo(freshId, name.value) && store == old(store)[freshId := r.value]
    {
      var valid := ValidateName(name);
      if valid.Fail? {
        return Err(valid.error);
      }
      var demo := Demo(freshId, name.value);
      store := store[freshId := demo];
      r := Ok(demo);
    }

    /** updateDemo: the name is validated before the id is looked up, so an
        invalid name is reported even for an absent id. */
    method UpdateDemo(id: string, name: Option<string>) returns (r: Result<Demo, Failure>)
      requires Valid()
      modifies this
      ensures Valid()
      ensures !IsValidName(name) ==> r.Err? && Fail(r.error) == ValidateName(name) && store == old(store)
      ensures IsValidName(name) && id !in old(store) ==> r == Err(NotFound(NotFoundMessage(id))) && store == old(store)
      ensures IsValidName(name) && id in old(store) ==>
                r == Ok(Demo(id, name.value)) && store == old(store)[id := r.value]
    {
      var valid := ValidateName(name);
      if valid.Fail? {
        return Err(valid.error);
      }
      if id in store {
        var demo := Demo(id, name.value);
        store := store[id := demo];
        r := Ok(demo);
      } else {
        r := Err(NotFound(NotFoundMessage(id)));
      }
    }

    /** getDemoById: computeIfAbsent with a throwing mapping, so nothing is
        ever inserted. */
    method GetDemoById(id: string) returns (r: Result<Demo, Failure>)
      ensures r.Ok? <==> id in store
      ensures r.Ok? ==> r.value == store[id]
      ensures r.Err? ==> r.error == NotFound(NotFoundMessage(id))
    {
      if id in store {
        r := Ok(store[id]);
      } else {
        r := Err(NotFound(NotFoundMessage(id)));
      }
    }

    /** getAllDemos: an immutable copy of the values, in iteration order. */
    method GetAllDemos(order: seq<string>) returns (demos: seq<Demo>)
      requires Valid()
      requires Enumerates(order, store)
      ensures |demos| == |store|
      ensures forall i :: 0 <= i < |demos| ==> demos[i] in store.Values && demos[i].id == order[i]
      ensures forall id :: id in store ==> exists i :: 0 <= i < |demos| && demos[i] == store[id]
    {
      demos := ValuesIn(store, order);
      EnumerationCoversKeys(order, store);
      forall id | id in store
        ensures exists i :: 0 <= i < |demos| && demos[i] == store[id]
      {
        var i :| 0 <= i < |order| && order[i] == id;
        assert demos[i] == store[id];
      }
    }

    /** deleteDemo: an absent id raises not-found and changes nothing. */
    method DeleteDemo(id: string) returns (r: Outcome<Failure>)
      requires Valid()
      modifies this
      ensures Valid()
      ensures id in old(store) ==> r == Pass && store == old(store) - {id}
      ensures id !in old(store) ==> r == Fail(NotFound(NotFoundMessage(id))) && store == old(store)
    {
      if id !in store {
        return Fail(NotFound(NotFoundMessage(id)));
      }
      store := store - {id};
      r := Pass;
    }
  }

  /** After deleteDemo succeeds, getDemoById and a second deleteDemo both
      raise not-found. */
  method DeleteThenGet(s: DemoService, id: string)
    returns (deleted: Outcome<Failure>, read: Result<Demo, Failure>, again: Outcome<Failure>)
    requires s.Valid() && id in s.store
    modifies s
    ensures deleted == Pass
    ensures read == Err(NotFound(NotFoundMessage(id)))
    ensures again == Fail(NotFound(NotFoundMessage(id)))
    ensures s.store == old(s.store) - {id}
  {
    deleted := s.DeleteDemo(id);
    read := s.GetDemoById(id);
    again := s.DeleteDemo(id);
  }
}
