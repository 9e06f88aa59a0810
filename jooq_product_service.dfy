/** The jOOQ module's product service: the repository's statements with
    "system" as the audit user, rows mapped to REST products, and
    not-found errors where the repository reports no row. */
module JooqProductService {
  import opened Common
  import opened JooqProductRepository
  import opened JooqProductMapper

  const SystemUser := "system"

  function NotFoundMessage(id: int): string
  {
    "Product not found with id: " + IntToString(id)
  }

  predicate AllKnown(records: seq<ProductsRecord>)
  {
    forall i :: 0 <= i < |records| ==> KnownStatus(records[i].status)
  }

  /** The position of the first row whose status names no constant. */
  function FirstUnknown(records: seq<ProductsRecord>): (k: nat)
    requires !AllKnown(records)
    ensures k < |records| && !KnownStatus(records[k].status)
    ensures forall j :: 0 <= j < k ==> KnownStatus(records[j].status)
    decreases |records|
  {
    if !KnownStatus(records[0].status) then 0
    else
      assert !AllKnown(records[1..]) by {
        var i :| 0 <= i < |records| && !KnownStatus(records[i].status);
        assert records[1..][i - 1] == records[i];
      }
      1 + FirstUnknown(records[1..])
  }

  /** The position of the first id in `window` whose row's status names no
      constant. */
  function FirstUnknownAt(rows: map<int, ProductsRecord>, window: seq<int>): (k: nat)
    requires forall i :: 0 <= i < |window| ==> window[i] in rows
    requires !forall i :: 0 <= i < |window| ==> KnownStatus(rows[window[i]].status)
    ensures k < |window| && !KnownStatus(rows[window[k]].status) && rows[window[k]].status.Some?
    ensures forall j :: 0 <= j < k ==> KnownStatus(rows[window[j]].status)
    decreases |window|
  {
    if !KnownStatus(rows[window[0]].status) then 0
    else
      assert !forall i :: 0 <= i < |window[1..]| ==> KnownStatus(rows[window[1..][i]].status) by {
        var i :| 0 <= i < |window| && !KnownStatus(rows[window[i]].status);
        assert window[1..][i - 1] == window[i];
      }
      1 + FirstUnknownAt(rows, window[1..])
  }

  /** For rows fetched under `window`, ids drawn from `matching`: mapping
      them succeeds exactly when every row under `window` has a known
      status, so in particular when every row in `matching` does; a failure
      is valueOf's error for the first id whose status is unknown; a
      success maps the row under each id in place. */
  lemma FetchedStatuses(rows: map<int, ProductsRecord>, matching: set<int>, window: seq<int>, page: Page<ProductsRecord>)
    requires |page.content| == |window|
    requires matching <= rows.Keys
    requires forall i :: 0 <= i < |window| ==> window[i] in matching && page.content[i] == rows[window[i]]
    requires forall id :: id in rows ==> rows[id].id == id
    ensures (forall id :: id in matching ==> KnownStatus(rows[id].status)) ==> MapPage(page).Ok?
    ensures MapPage(page).Ok? <==> forall i :: 0 <= i < |window| ==> KnownStatus(rows[window[i]].status)
    ensures MapPage(page).Err? ==>
              MapPage(page).error == IllegalArgument(NoEnumConstant(rows[window[FirstUnknownAt(rows, window)]].status.value))
    ensures MapPage(page).Ok? ==>
              && MapPage(page).value.total == page.total
              && |MapPage(page).value.content| == |page.content|
              && forall i :: 0 <= i < |window| ==>
                   && MapPage(page).value.content[i].id == Some(window[i])
                   && ToProduct(Some(rows[window[i]])) == Ok(Some(MapPage(page).value.content[i]))
  {
    var content := page.content;
    if forall id :: id in matching ==> KnownStatus(rows[id].status) {
      assert forall i :: 0 <= i < |window| ==> KnownStatus(rows[window[i]].status);
    }
    if MapPage(page).Ok? {
      forall i | 0 <= i < |window|
        ensures MapPage(page).value.content[i].id == Some(window[i])
      {
        assert ToProduct(Some(content[i])) == Ok(Some(MapPage(page).value.content[i]));
        assert content[i].id == window[i];
      }
    } else {
      var k, k' := FirstUnknown(content), FirstUnknownAt(rows, window);
      assert content[k] == rows[window[k]] && content[k'] == rows[window[k']];
      assert k == k';
    }
  }

  /** Page.map(mapper::toProduct): the content mapped, the total kept. */
  function MapPage(page: Page<ProductsRecord>): (r: Result<Page<Product>, Failure>)
    ensures r.Ok? <==> AllKnown(page.content)
    ensures r.Err? ==> r.error == IllegalArgument(NoEnumConstant(page.content[FirstUnknown(page.content)].status.value))
    ensures r.Ok? ==>
              && r.value.total == page.total
              && |r.value.content| == |page.content|
              && forall i :: 0 <= i < |page.content| ==> ToProduct(Some(page.content[i])) == Ok(Some(r.value.content[i]))
  {
    match MapAll(page.content)
    case Err(e) => Err(e)
    case Ok(content) => Ok(Page(content, page.total))
  }

  /** Page.map(mapper::toProduct) on the content: every row mapped in
      order, the first unknown status failing the whole page with the
      IllegalArgumentException valueOf throws for it. */
  function MapAll(records: seq<ProductsRecord>): (r: Result<seq<Product>, Failure>)
    ensures r.Ok? <==> AllKnown(records)
    ensures r.Err? ==> r.error == IllegalArgument(NoEnumConstant(records[FirstUnknown(records)].status.value))
    ensures r.Ok? ==> |r.value| == |records|
    ensures r.Ok? ==> forall i :: 0 <= i < |records| ==> ToProduct(Some(records[i])) == Ok(Some(r.value[i]))
    decreases |records|
  {
    if records == [] then Ok([])
    else
      match ToProduct(Some(records[0]))
      case Err(e) => Err(e)
      case Ok(first) =>
        match MapAll(records[1..])
        case Err(e) => Err(e)
        case Ok(rest) => Ok([first.value] + rest)
  }

  class ProductService {
    const repository: ProductRepository

    ghost predicate Valid()
      reads this, repository
    {
      repository.Valid()
    }

    constructor (repository: ProductRepository)
      requires repository.Valid()
      ensures this.repository == repository
      ensures Valid()
    {
      this.repository := repository;
    }

    /** createProduct: insert as "system" and map the row read back. */
    method CreateProduct(request: CreateProductRequest, newId: int, now: Timestamp) returns (r: Result<Product, Failure>)
      requires Valid()
      requires forall id :: id in repository.rows ==> id < newId
      modifies repository
      ensures Valid()
      ensures r == Ok(Product(Some(newId), request.name, request.description, request.price,
                              request.stockQuantity, request.sku, request.category,
                              Some(if request.status.Some? then request.status.value else Active),
                              Some(now), None, Some(SystemUser), None))
      ensures newId !in old(repository.rows) && newId in repository.rows
      ensures ToProduct(Some(repository.rows[newId])) == Ok(Some(r.value))
      ensures repository.rows - {newId} == old(repository.rows)
    {
      var record := repository.Create(request, SystemUser, newId, now);
      var status := if request.status.Some? then request.status.value else Active;
      ToProductRecoversStatus(record.value, status);
      var mapped := ToProduct(record);
      r := Ok(mapped.value.value);
    }

    /** getProductById: the mapped row, or not-found. */
    method GetProductById(id: int) returns (r: Result<Product, Failure>)
      requires Valid()
      ensures id !in repository.rows ==> r == Err(NotFound(NotFoundMessage(id)))
      ensures id in repository.rows ==> (r.Ok? <==> KnownStatus(repository.rows[id].status))
      ensures id in repository.rows && r.Err? ==>
                && repository.rows[id].status.Some?
                && r.error == IllegalArgument(NoEnumConstant(repository.rows[id].status.value))
      ensures r.Ok? ==> ToProduct(Some(repository.rows[id])) == Ok(Some(r.value)) && r.value.id == Some(id)
    {
      var record := repository.FindById(id);
      if record.None? {
        return Err(NotFound(NotFoundMessage(id)));
      }
      var mapped := ToProduct(record);
      if mapped.Err? {
        return Err(mapped.error);
      }
      r := Ok(mapped.value.value);
    }

    /** findAll: the repository's page with its content mapped; the total
        is kept. Only the rows on the requested page are mapped, so the call
        fails exactly when one of them has an unknown status, and the first
        such row names the error. */
    method FindAll(pageable: Pageable, status: Option<ProductStatus>, category: Option<string>, scanOrder: seq<int>)
      returns (r: Result<Page<Product>, Failure>)
      requires Valid()
      requires Enumerates(scanOrder, repository.rows)
      ensures (forall id :: id in repository.MatchingIds(status, category) ==> KnownStatus(repository.rows[id].status))
              ==> r.Ok?
      ensures var window := repository.PageIds(pageable, scanOrder, status, category);
              r.Ok? <==> forall i :: 0 <= i < |window| ==> KnownStatus(repository.rows[window[i]].status)
      ensures var window := repository.PageIds(pageable, scanOrder, status, category);
              r.Err? ==>
                r.error == IllegalArgument(NoEnumConstant(
                             repository.rows[window[FirstUnknownAt(repository.rows, window)]].status.value))
      ensures r.Ok? ==> r.value.total == |repository.MatchingIds(status, category)|
      ensures r.Ok? ==> |r.value.content| == (if Offset(pageable) >= r.value.total then 0
                                              else Min(pageable.pageSize, r.value.total - Offset(pageable)))
      ensures var window := repository.PageIds(pageable, scanOrder, status, category);
              r.Ok? ==>
                && |r.value.content| == |window|
                && forall i :: 0 <= i < |window| ==>
                     && r.value.content[i].id == Some(window[i])
                     && ToProduct(Some(repository.rows[window[i]])) == Ok(Some(r.value.content[i]))
    {
      var page := repository.FindAll(pageable, status, category, scanOrder);
      FetchedStatuses(repository.rows, repository.MatchingIds(status, category),
                      repository.PageIds(pageable, scanOrder, status, category), page);
      r := MapPage(page);
    }

    /** updateProduct: update as "system" and map the row read back, or
        not-found when no row has that id. */
    method UpdateProduct(id: int, request: UpdateProductRequest, now: Timestamp) returns (r: Result<Product, Failure>)
      requires Valid()
      modifies repository
      ensures Valid()
      ensures id !in old(repository.rows) ==>
                r == Err(NotFound(NotFoundMessage(id))) && repository.rows == old(repository.rows)
      ensures id in old(repository.rows) ==>
        var before := old(repository.rows)[id];
        && r == Ok(Product(Some(id), request.name, request.description, request.price,
                           request.stockQuantity, request.sku, request.category, request.status,
                           before.createdAt, Some(now), before.createdBy, Some(SystemUser)))
        && id in repository.rows
        && ToProduct(Some(repository.rows[id])) == Ok(Some(r.value))
        && repository.rows - {id} == old(repository.rows) - {id}
    {
      var record := repository.Update(id, request, SystemUser, now);
      if record.None? {
        return Err(NotFound(NotFoundMessage(id)));
      }
      if request.status.Some? {
        ToProductRecoversStatus(record.value, request.status.value);
      }
      var mapped := ToProduct(record);
      r := Ok(mapped.value.value);
    }

    /** deleteProduct: not-found when no row was deleted. */
    method DeleteProduct(id: int) returns (r: Outcome<Failure>)
      requires Valid()
      modifies repository
      ensures Valid()
      ensures r.Pass? <==> id in old(repository.rows)
      ensures r.Fail? ==> r.error == NotFound(NotFoundMessage(id))
      ensures repository.rows == old(repository.rows) - {id}
    {
      var deleted := repository.DeleteById(id);
      if !deleted {
        return Fail(NotFound(NotFoundMessage(id)));
      }
      r := Pass;
    }
  }

  /** A created product can be read back, equal to what creation returned. */
  method CreateThenGet(s: ProductService, request: CreateProductRequest, newId: int, now: Timestamp)
    returns (created: Result<Product, Failure>, read: Result<Product, Failure>)
    requires s.Valid()
    requires forall id :: id in s.repository.rows ==> id < newId
    modifies s.repository
    ensures created.Ok? && read == created
  {
    created := s.CreateProduct(request, newId, now);
    read := s.GetProductById(newId);
  }

  /** An updated product reads back as the update returned it. */
  method UpdateThenGet(s: ProductService, id: int, request: UpdateProductRequest, now: Timestamp)
    returns (updated: Result<Product, Failure>, read: Result<Product, Failure>)
    requires s.Valid() && id in s.repository.rows
    modifies s.repository
    ensures updated.Ok? && read == updated
  {
    updated := s.UpdateProduct(id, request, now);
    read := s.GetProductById(id);
  }

  /** An update that sends nulls erases those columns: the product read
      back has no description, no category and no status. */
  method PartialUpdateErasesColumns(s: ProductService, id: int, name: string, now: Timestamp)
    returns (updated: Result<Product, Failure>)
    requires s.Valid() && id in s.repository.rows
    modifies s.repository
    ensures updated.Ok?
    ensures updated.value.name == Some(name)
    ensures updated.value.description.None? && updated.value.category.None? && updated.value.status.None?
  {
    updated := s.UpdateProduct(id, UpdateProductRequest(Some(name), None, None, None, None, None, None), now);
  }

  /** Deleting succeeds once; deleting the same id again is not-found. */
  method DeleteTwice(s: ProductService, id: int) returns (first: Outcome<Failure>, second: Outcome<Failure>)
    requires s.Valid() && id in s.repository.rows
    modifies s.repository
    ensures first.Pass?
    ensures second == Fail(NotFound(NotFoundMessage(id)))
  {
    first := s.DeleteProduct(id);
    second := s.DeleteProduct(id);
  }
}
