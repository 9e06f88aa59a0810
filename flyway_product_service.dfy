/** The Flyway module's product service over a Spring Data JDBC
    repository. The repository is its table of rows keyed by id, with the
    library's save and delete semantics: saving an entity without id
    inserts it under a database-generated id; saving one with an id
    updates that row and fails when there is none; deleting an absent id
    does nothing. The clock, the audit user and the generated id are
    parameters. */
module FlywayProductService {
  import opened Common
  import opened FlywayProduct

  function NotFoundMessage(id: int): string
  {
    "Product not found with id: " + IntToString(id)
  }

  class ProductService {
    /** The products table. */
    var rows: map<int, Product>

    /** Every row carries its own key as id. */
    ghost predicate Valid()
      reads this
    {
      forall id :: id in rows ==> rows[id].id == Some(id)
    }

    constructor ()
      ensures Valid() && rows == map[]
    {
      rows := map[];
    }

    /** findById: the stored row, or not-found. */
    method FindById(id: int) returns (r: Result<Product, Failure>)
      ensures r.Ok? <==> id in rows
      ensures r.Ok? ==> r.value == rows[id]
      ensures r.Err? ==> r.error == NotFound(NotFoundMessage(id))
    {
      if id !in rows {
        return Err(NotFound(NotFoundMessage(id)));
      }
      r := Ok(rows[id]);
    }

    /** CrudRepository.save as Spring Data JDBC performs it. */
    method Save(product: Product, generatedId: int) returns (r: Result<Product, Failure>)
      requires Valid()
      requires product.id.None? ==> generatedId !in rows
      modifies this
      ensures Valid()
      ensures product.id.None? ==>
                r == Ok(product.(id := Some(generatedId))) && rows == old(rows)[generatedId := r.value]
      ensures product.id.Some? && product.id.value in old(rows) ==>
                r == Ok(product) && rows == old(rows)[product.id.value := product]
      ensures product.id.Some? && product.id.value !in old(rows) ==>
                r == Err(UpdateOfMissingRow) && rows == old(rows)
    {
      if product.id.None? {
        var inserted := product.(id := Some(generatedId));
        rows := rows[generatedId := inserted];
        return Ok(inserted);
      }
      if product.id.value !in rows {
        return Err(UpdateOfMissingRow);
      }
      rows := rows[product.id.value := product];
      r := Ok(product);
    }

    /** create: stamp both audit pairs with the clock and the current user,
        then save. */
    method Create(product: Product, now: Instant, user: string, generatedId: int) returns (r: Result<Product, Failure>)
      requires Valid()
      requires product.id.None? ==> generatedId !in rows
      modifies this
      ensures Valid()
      ensures var stamped := WithAuditFields(product, now, user);
        && (product.id.None? ==>
              r == Ok(stamped.(id := Some(generatedId))) && rows == old(rows)[generatedId := r.value])
        && (product.id.Some? && product.id.value in old(rows) ==>
              r == Ok(stamped) && rows == old(rows)[product.id.value := stamped])
        && (product.id.Some? && product.id.value !in old(rows) ==>
              r == Err(UpdateOfMissingRow) && rows == old(rows))
    {
      var productToSave := WithAuditFields(product, now, user);
      r := Save(productToSave, generatedId);
    }

    /** update: the stored row (not-found first) takes the argument's
        business components and the clock's and user's update stamp; its
        id and creation stamp stay, and the argument's id is ignored. */
    method Update(id: int, product: Product, now: Instant, user: string) returns (r: Result<Product, Failure>)
      requires Valid()
      modifies this
      ensures Valid()
      ensures id !in old(rows) ==> r == Err(NotFound(NotFoundMessage(id))) && rows == old(rows)
      ensures id in old(rows) ==>
        && r.Ok?
        && r.value == WithUpdatedFields(old(rows)[id], product.name, product.description, product.price,
                                        product.stockQuantity, product.sku, product.category, product.status,
                                        Some(now), Some(user))
        && rows == old(rows)[id := r.value]
    {
      var existing := FindById(id);
      if existing.Err? {
        return Err(existing.error);
      }
      var updatedProduct := WithUpdatedFields(existing.value, product.name, product.description, product.price,
                                              product.stockQuantity, product.sku, product.category, product.status,
                                              Some(now), Some(user));
      // The stored row carries its key, so this save is an update and
      // uses no generated id.
      r := Save(updatedProduct, id);
    }

    /** deleteById: no existence check; an absent id is not an error. */
    method DeleteById(id: int)
      requires Valid()
      modifies this
      ensures Valid()
      ensures rows == old(rows) - {id}
    {
      rows := rows - {id};
    }
  }

  /** A created product can be found under the id it was given, carrying
      the creation stamp in both audit pairs. */
  method CreateThenFind(s: ProductService, product: Product, now: Instant, user: string, generatedId: int)
    returns (created: Result<Product, Failure>, found: Result<Product, Failure>)
    requires s.Valid() && generatedId !in s.rows && product.id.None?
    modifies s
    ensures created.Ok? && found == created
    ensures found.value.id == Some(generatedId)
    ensures found.value.createdAt == found.value.updatedAt == Some(now)
    ensures found.value.createdBy == found.value.updatedBy == Some(user)
  {
    created := s.Create(product, now, user, generatedId);
    found := s.FindById(generatedId);
  }

  /** Creating then updating keeps the creation stamp and the id. */
  method CreateThenUpdate(s: ProductService, product: Product, changes: Product, created: Instant,
                          creator: string, later: Instant, updater: string, generatedId: int)
    returns (updated: Result<Product, Failure>)
    requires s.Valid() && generatedId !in s.rows && product.id.None?
    modifies s
    ensures updated.Ok?
    ensures updated.value.id == Some(generatedId)
    ensures updated.value.createdAt == Some(created) && updated.value.createdBy == Some(creator)
    ensures updated.value.updatedAt == Some(later) && updated.value.updatedBy == Some(updater)
    ensures Business(updated.value) == Business(changes)
  {
    var _ := s.Create(product, created, creator, generatedId);
    updated := s.Update(generatedId, changes, later, updater);
  }

  /** After deleteById the row is gone, and deleting again is no error. */
  method DeleteThenFind(s: ProductService, id: int) returns (found: Result<Product, Failure>)
    requires s.Valid()
    modifies s
    ensures found == Err(NotFound(NotFoundMessage(id)))
  {
    s.DeleteById(id);
    found := s.FindById(id);
    s.DeleteById(id);
  }
}
