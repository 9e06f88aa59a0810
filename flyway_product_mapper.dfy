/** The Flyway module's mapper between the REST records and the entity:
    requests become entities without id (or with the path id), without
    audit columns, and with ACTIVE as the default status; entities become
    responses without the audit users. A null argument maps to null. */
module FlywayProductMapper {
  import opened Common
  import opened FlywayProduct

  datatype ProductRequest = ProductRequest(
    name: Option<string>,
    description: Option<string>,
    price: Option<int>,
    stockQuantity: Option<int>,
    sku: Option<string>,
    category: Option<ProductCategory>,
    status: Option<ProductStatus>)

  datatype ProductResponse = ProductResponse(
    id: Option<int>,
    name: Option<string>,
    description: Option<string>,
    price: Option<int>,
    stockQuantity: Option<int>,
    sku: Option<string>,
    category: Option<ProductCategory>,
    status: Option<ProductStatus>,
    createdAt: Option<Instant>,
    updatedAt: Option<Instant>)

  /** The business components a request asks for, status as sent. */
  function Requested(r: ProductRequest): BusinessFields
  {
    BusinessFields(r.name, r.description, r.price, r.stockQuantity, r.sku, r.category, r.status)
  }

  /** The business components a response shows. */
  function Shown(r: ProductResponse): BusinessFields
  {
    BusinessFields(r.name, r.description, r.price, r.stockQuantity, r.sku, r.category, r.status)
  }

  /** mapStatus: the requested status, ACTIVE when none was sent. */
  function MapStatus(request: ProductRequest): (s: ProductStatus)
    ensures request.status.Some? ==> s == request.status.value
    ensures request.status.None? ==> s == Active
  {
    if request.status.Some? then request.status.value else Active
  }

  /** toResponse: everything but the audit users; null for null. */
  function ToResponse(product: Option<Product>): (r: Option<ProductResponse>)
    ensures r.Some? <==> product.Some?
    ensures r.Some? ==> Shown(r.value) == Business(product.value)
    ensures r.Some? ==> r.value.id == product.value.id
    ensures r.Some? ==> r.value.createdAt == product.value.createdAt && r.value.updatedAt == product.value.updatedAt
  {
    match product
    case None => None
    case Some(p) =>
      Some(ProductResponse(p.id, p.name, p.description, p.price, p.stockQuantity, p.sku,
                           p.category, p.status, p.createdAt, p.updatedAt))
  }

  /** toEntity(request): no id, no audit columns, status defaulted. */
  function ToEntity(request: Option<ProductRequest>): (r: Option<Product>)
    ensures r.Some? <==> request.Some?
    ensures r.Some? ==> r.value.id.None?
  {
    ToEntityWithId(None, request)
  }

  /** toEntity(id, request): as toEntity(request), with the given id. */
  function ToEntityWithId(id: Option<int>, request: Option<ProductRequest>): (r: Option<Product>)
    ensures r.Some? <==> request.Some?
    ensures r.Some? ==> r.value.id == id
    ensures r.Some? ==> Business(r.value) == Requested(request.value).(status := Some(MapStatus(request.value)))
    ensures r.Some? ==> r.value.createdAt.None? && r.value.updatedAt.None?
    ensures r.Some? ==> r.value.createdBy.None? && r.value.updatedBy.None?
  {
    match request
    case None => None
    case Some(q) =>
      Some(Product(id, q.name, q.description, q.price, q.stockQuantity, q.sku, q.category,
                   Some(MapStatus(q)), None, None, None, None))
  }

  /** The two toEntity overloads differ in the id alone. */
  lemma ToEntityOverloadsAgree(id: Option<int>, request: ProductRequest)
    ensures ToEntityWithId(id, Some(request)) == Some(ToEntity(Some(request)).value.(id := id))
  {
  }

  /** An entity built from a request always has a status, so @NotNull on
      the status holds even when the request left it out. */
  lemma ToEntityHasStatus(id: Option<int>, request: ProductRequest)
    ensures ToEntityWithId(id, Some(request)).value.status.Some?
  {
  }

  /** The constraints a request declares, those of the entity's business
      components with the status optional. */
  predicate ValidRequest(r: ProductRequest)
  {
    ValidBusiness(Requested(r).(status := Some(MapStatus(r))))
  }

  /** A request that passes its own validation yields an entity that passes
      all of the entity's constraints. */
  lemma ValidRequestGivesValidEntity(id: Option<int>, request: ProductRequest)
    requires ValidRequest(request)
    ensures ValidProduct(ToEntityWithId(id, Some(request)).value)
  {
  }

  /** Round trip: the response to a freshly mapped request echoes the
      request's business components with the defaulted status, under the
      given id and without timestamps; a request that names its status is
      echoed exactly. */
  lemma ResponseEchoesRequest(id: Option<int>, request: ProductRequest)
    ensures var r := ToResponse(ToEntityWithId(id, Some(request)));
      && r.Some?
      && r.value == ProductResponse(id, request.name, request.description, request.price,
                                    request.stockQuantity, request.sku, request.category,
                                    Some(MapStatus(request)), None, None)
      && (request.status.Some? ==> Shown(r.value) == Requested(request))
  {
  }
}
