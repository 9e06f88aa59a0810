/** The GraphQL module's product service: an in-memory map from UUID
    strings to products, with offset paging over a snapshot of the map and
    a partial update that keeps whatever the input leaves null. */
module GraphqlProductService {
  import opened Common

  datatype ProductData = ProductData(color: Option<string>, capacity: Option<string>, generation: Option<string>)

  /** A stored product. Its name has passed `ValidateName`, so it is never null. */
  datatype Product = Product(id: string, name: string, data: Option<ProductData>)

  datatype CreateProduct = CreateProduct(name: Option<string>, data: Option<ProductData>)

  /** A partial update: a null component means "keep the stored one". */
  datatype UpdateProduct = UpdateProduct(name: Option<string>, data: Option<ProductData>)

  /** What `PageImpl` carries: the slice, the request and the total it reports. */
  datatype Page = Page(content: seq<Product>, pageNumber: int, pageSize: int, totalElements: int)

  const NameMustNotBeBlank := "Name must not be blank"

  function NotFoundMessage(id: string): string
  {
    "Product not found with id: " + id
  }

  /** validateName: a null or blank name is refused. */
  function ValidateName(name: Option<string>): (r: Outcome<Failure>)
    ensures r.Pass? <==> name.Some? && !IsBlank(name.value)
    ensures r.Fail? ==> r.error == IllegalArgument(NameMustNotBeBlank)
  {
    if IsNullOrBlank(name) then Fail(IllegalArgument(NameMustNotBeBlank)) else Pass
  }

  /** The index arithmetic of getProducts on a snapshot `all`, in Java int
      arithmetic: fromIndex = page * size and toIndex = min(fromIndex +
      size, |all|), both wrapped to 32 bits. When fromIndex is below |all|
      the slice is taken, and subList refuses a negative fromIndex or one
      past toIndex; otherwise the content is empty. PageRequest.of then
      refuses a negative page or a size below one. */
  function PageSlice<T>(all: seq<T>, page: int, size: int): (r: Result<seq<T>, Failure>)
    requires IsInt32(page) && IsInt32(size) && |all| <= IntMax
    ensures r.Ok? <==>
              var from := Wrap32(page * size);
              page >= 0 && size >= 1 && (from < |all| ==> 0 <= from <= Wrap32(from + size))
    ensures r.Err? ==> r.error == InvalidPageRequest
    ensures r.Ok? ==>
              var from := Wrap32(page * size);
              |r.value| == (if from >= |all| then 0 else Min(size, |all| - from))
    ensures r.Ok? ==>
              forall i :: 0 <= i < |r.value| ==> r.value[i] == all[Wrap32(page * size) + i]
  {
    SliceFrom(all, Wrap32(page * size), page, size)
  }

  /** PageSlice once the wrapped fromIndex is known. */
  function SliceFrom<T>(all: seq<T>, fromIndex: int, page: int, size: int): (r: Result<seq<T>, Failure>)
    requires IsInt32(fromIndex) && IsInt32(size) && |all| <= IntMax
    ensures r.Ok? <==>
              page >= 0 && size >= 1 && (fromIndex < |all| ==> 0 <= fromIndex <= Wrap32(fromIndex + size))
    ensures r.Err? ==> r.error == InvalidPageRequest
    ensures r.Ok? ==> |r.value| == (if fromIndex >= |all| then 0 else Min(size, |all| - fromIndex))
    ensures r.Ok? ==> forall i :: 0 <= i < |r.value| ==> r.value[i] == all[fromIndex + i]
  {
    var toIndex := Min(Wrap32(fromIndex + size), |all|);
    var content: Result<seq<T>, Failure> :=
      if fromIndex < |all| then
        if fromIndex < 0 || fromIndex > toIndex then Err(InvalidPageRequest)
        else Ok(all[fromIndex..toIndex])
      else Ok([]);
    if content.Err? then content
    else if page < 0 || size < 1 then Err(InvalidPageRequest)
    else content
  }

  /** The total a Spring Data PageImpl reports for content taken at
      `offset` (computed in long arithmetic) with the given page size: the
      total passed in, unless the content is non-empty and the page reaches
      past that total, in which case the offset plus the content size. */
  function PageTotal(offset: int, pageSize: int, contentSize: nat, total: nat): int
  {
    if contentSize > 0 && offset + pageSize > total then offset + contentSize else total
  }

  /** While page * size + size fits in an int, the arithmetic does not wrap:
      every valid request succeeds with the slice starting at page * size,
      and the reported total is the snapshot size. */
  lemma PageSliceWithoutOverflow<T>(all: seq<T>, page: int, size: int)
    requires IsInt32(page) && IsInt32(size) && |all| <= IntMax
    requires page >= 0 && size >= 1 && page * size + size <= IntMax
    ensures Wrap32(page * size) == page * size
    ensures PageSlice(all, page, size).Ok?
    ensures PageTotal(page * size, size, |PageSlice(all, page, size).value|, |all|) == |all|
  {
    assert 0 <= page * size;
  }

  /** Paging loses nothing: element j of the snapshot is element j % size
      of page j / size, as long as the last index plus the size fits in an int. */
  lemma {:induction false} PageSliceFindsEveryElement<T>(all: seq<T>, size: int, j: nat)
    requires IsInt32(size) && size >= 1 && j < |all| && |all| - 1 + size <= IntMax
    ensures PageSlice(all, j / size, size).Ok?
    ensures j % size < |PageSlice(all, j / size, size).value|
    ensures PageSlice(all, j / size, size).value[j % size] == all[j]
  {
    var page := j / size;
    var from := page * size;
    DivisionSplits(j, size);
    PageSliceWithoutOverflow(all, page, size);
    var r := PageSlice(all, page, size);
    assert Wrap32(page * size) == from;
    assert |r.value| == Min(size, |all| - from);
    assert r.value[j - from] == all[j];
  }

  lemma DivisionSplits(j: nat, size: int)
    requires size >= 1
    ensures 0 <= j / size <= j
    ensures j / size * size <= j < j / size * size + size
    ensures j % size == j - j / size * size
  {
  }

  /** Past 2^31 the offset wraps: page 65536 of size 65536 starts at offset
      2^32, which the int arithmetic turns into 0, so every product comes
      back and the page reports a total of 2^32 plus the store size. */
  lemma WrappedOffsetRestartsAtFirstPage<T>(all: seq<T>)
    requires 1 <= |all| <= 65536
    ensures PageSlice(all, 65536, 65536) == Ok(all)
    ensures PageTotal(65536 * 65536, 65536, |all|, |all|) == 0x1_0000_0000 + |all|
  {
    assert Wrap32(65536 * 65536) == 0;
    assert Wrap32(0 + 65536) == 65536;
    assert all[0..|all|] == all;
  }

  /** A valid request can still fail: page 2^30 of size 2 has the offset
      2^31, which wraps to a negative fromIndex that subList refuses. */
  lemma WrappedOffsetIsRefused<T>(all: seq<T>)
    requires 1 <= |all| <= IntMax
    ensures PageSlice(all, 0x4000_0000, 2) == Err(InvalidPageRequest)
  {
    assert Wrap32(0x4000_0000 * 2) == IntMin;
  }

  /** The end of the page can wrap too: page 2147483639 of size 2147483647
      over ten products has fromIndex 9, but fromIndex + size wraps
      negative, so toIndex falls below fromIndex and subList refuses. */
  lemma WrappedEndIsRefused<T>(all: seq<T>)
    requires |all| == 10
    ensures Wrap32(2147483639 * 2147483647) == 9
    ensures PageSlice(all, 2147483639, 2147483647) == Err(InvalidPageRequest)
  {
    assert Wrap32(9 + 2147483647) == -2147483640;
  }

  /** The merge updateProduct performs once the input name, if any, is valid. */
  function Patched(existing: Product, input: UpdateProduct): (p: Product)
    requires input.name.None? || !IsBlank(input.name.value)
    ensures p.id == existing.id
    ensures !IsBlank(existing.name) ==> !IsBlank(p.name)
  {
    Product(existing.id,
            if input.name.Some? then input.name.value else existing.name,
            if input.data.Some? then input.data else existing.data)
  }

  /** An update that supplies nothing changes nothing. */
  lemma PatchedEmptyIsIdentity(existing: Product)
    ensures Patched(existing, UpdateProduct(None, None)) == existing
  {
  }

  /** Replaying the same update is harmless. */
  lemma PatchedIdempotent(existing: Product, input: UpdateProduct)
    requires input.name.None? || !IsBlank(input.name.value)
    ensures Patched(Patched(existing, input), input) == Patched(existing, input)
  {
  }

  class ProductService {
    var store: map<string, Product>

    /** Every product sits under its own id and has a non-blank name. */
    ghost predicate Valid()
      reads this
    {
      forall id :: id in store ==> store[id].id == id && !IsBlank(store[id].name)
    }

    constructor ()
      ensures Valid() && store == map[]
    {
      store := map[];
    }

    /** getProductById: computeIfAbsent whose mapping function throws, so
        an absent id inserts nothing and raises not-found. */
    method GetProductById(id: string) returns (r: Result<Product, Failure>)
      ensures r.Ok? <==> id in store
      ensures r.Ok? ==> r.value == store[id]
      ensures r.Err? ==> r.error == NotFound(NotFoundMessage(id))
    {
      if id in store {
        r := Ok(store[id]);
      } else {
        r := Err(NotFound(NotFoundMessage(id)));
      }
    }

    /** getProducts: a page of the snapshot taken in iteration order
        `order`, in Java int arithmetic; the page reports the total PageImpl
        computes. */
    method GetProducts(page: int, size: int, order: seq<string>) returns (r: Result<Page, Failure>)
      requires Enumerates(order, store)
      requires IsInt32(page) && IsInt32(size) && |store| <= IntMax
      ensures r.Ok? <==>
                var from := Wrap32(page * size);
                page >= 0 && size >= 1 && (from < |store| ==> 0 <= from <= Wrap32(from + size))
      ensures r.Err? ==> r.error == InvalidPageRequest
      ensures page >= 0 && size >= 1 && page * size + size <= IntMax ==>
                r.Ok? && r.value.totalElements == |store|
      ensures r.Ok? ==> r.value.pageNumber == page && r.value.pageSize == size
      ensures r.Ok? ==> r.value.totalElements == PageTotal(page * size, size, |r.value.content|, |store|)
      ensures r.Ok? ==>
                var from := Wrap32(page * size);
                |r.value.content| == (if from >= |store| then 0 else Min(size, |store| - from))
      ensures r.Ok? ==>
                forall i :: 0 <= i < |r.value.content| ==>
                  r.value.content[i] == store[order[Wrap32(page * size) + i]]
    {
      var allProducts := ValuesIn(store, order);
      var content := PageSlice(allProducts, page, size);
      if page >= 0 && size >= 1 && page * size + size <= IntMax {
        PageSliceWithoutOverflow(allProducts, page, size);
      }
      if content.Ok? {
        r := Ok(Page(content.value, page, size, PageTotal(page * size, size, |content.value|, |allProducts|)));
      } else {
        r := Err(content.error);
      }
    }

    /** createProduct, with the random UUID passed in as `freshId`. */
    method CreateProduct(input: CreateProduct, freshId: string) returns (r: Result<Product, Failure>)
      requires Valid()
      requires freshId !in store
      modifies this
      ensures Valid()
      ensures r.Ok? <==> !IsNullOrBlank(input.name)
      ensures r.Err? ==> r.error == IllegalArgument(NameMustNotBeBlank) && store == old(store)
      ensures r.Ok? ==> r.value == Product(freshId, input.name.value, input.data)
      ensures r.Ok? ==> store == old(store)[freshId := r.value]
    {
      var valid := ValidateName(input.name);
      if valid.Fail? {
        return Err(valid.error);
      }
      var product := Product(freshId, input.name.value, input.data);
      store := store[freshId := product];
      r := Ok(product);
    }

    /** updateProduct: the existence check comes first (inside compute),
        then the validation of a non-null name; a throw leaves the entry. */
    method UpdateProduct(id: string, input: UpdateProduct) returns (r: Result<Product, Failure>)
      requires Valid()
      modifies this
      ensures Valid()
      ensures id !in old(store) ==> r == Err(NotFound(NotFoundMessage(id))) && store == old(store)
      ensures id in old(store) && input.name.Some? && IsBlank(input.name.value) ==>
                r == Err(IllegalArgument(NameMustNotBeBlank)) && store == old(store)
      ensures id in old(store) && (input.name.None? || !IsBlank(input.name.value)) ==>
                && r == Ok(Patched(old(store)[id], input))
                && store == old(store)[id := r.value]
    {
      if id !in store {
        return Err(NotFound(NotFoundMessage(id)));
      }
      var existing := store[id];
      var newName := existing.name;
      var newData := existing.data;
      if input.name.Some? {
        var valid := ValidateName(input.name);
        if valid.Fail? {
          return Err(valid.error);
        }
        newName := input.name.value;
      }
      if input.data.Some? {
        newData := input.data;
      }
      var product := Product(id, newName, newData);
      store := store[id := product];
      r := Ok(product);
    }

    /** deleteProduct: remove, or raise not-found when nothing was removed. */
    method DeleteProduct(id: string) returns (r: Result<bool, Failure>)
      requires Valid()
      modifies this
      ensures Valid()
      ensures id in old(store) ==> r == Ok(true) && store == old(store) - {id}
      ensures id !in old(store) ==> r == Err(NotFound(NotFoundMessage(id))) && store == old(store)
    {
      if id in store {
        store := store - {id};
        r := Ok(true);
      } else {
        r := Err(NotFound(NotFoundMessage(id)));
      }
    }
  }

  /** A product that was created can be read back until it is deleted, and
      not afterwards. */
  method CreateReadDelete(s: ProductService, input: CreateProduct, freshId: string)
    returns (read: Result<Product, Failure>, deleted: Result<bool, Failure>, reread: Result<Product, Failure>)
    requires s.Valid() && freshId !in s.store && !IsNullOrBlank(input.name)
    modifies s
    ensures read == Ok(Product(freshId, input.name.value, input.data))
    ensures deleted == Ok(true)
    ensures reread == Err(NotFound(NotFoundMessage(freshId)))
    ensures s.store == old(s.store)
  {
    var created := s.CreateProduct(input, freshId);
    read := s.GetProductById(freshId);
    deleted := s.DeleteProduct(freshId);
    reread := s.GetProductById(freshId);
  }
}
