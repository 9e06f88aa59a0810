/** The jOOQ module's mapper from a PRODUCTS row to the REST product: a
    column-by-column copy in which the status name is turned back into the
    enum constant, and a null row maps to null. */
module JooqProductMapper {
  import opened Common
  import opened JooqProductRepository

  /** The REST product record. */
  datatype Product = Product(
    id: Option<int>,
    name: Option<string>,
    description: Option<string>,
    price: Option<Cents>,
    stockQuantity: Option<int>,
    sku: Option<string>,
    category: Option<string>,
    status: Option<ProductStatus>,
    createdAt: Option<Timestamp>,
    updatedAt: Option<Timestamp>,
    createdBy: Option<string>,
    updatedBy: Option<string>)

  function NoEnumConstant(name: string): string
  {
    "No enum constant io.github.mm.jooq.product.rest.dto.ProductStatus." + name
  }

  /** ProductStatus.valueOf: the constant with exactly that name; any other
      name is an IllegalArgumentException. */
  function ValueOf(name: string): (r: Result<ProductStatus, Failure>)
    ensures r.Ok? <==> exists s :: StatusName(s) == name
    ensures r.Ok? ==> StatusName(r.value) == name
    ensures r.Err? ==> r.error == IllegalArgument(NoEnumConstant(name))
  {
    if name == "ACTIVE" then assert StatusName(Active) == name; Ok(Active)
    else if name == "INACTIVE" then assert StatusName(Inactive) == name; Ok(Inactive)
    else if name == "DISCONTINUED" then assert StatusName(Discontinued) == name; Ok(Discontinued)
    else
      assert forall s :: StatusName(s) != name;
      Err(IllegalArgument(NoEnumConstant(name)))
  }

  /** Status names round-trip through valueOf. */
  lemma ValueOfInvertsName(s: ProductStatus)
    ensures ValueOf(StatusName(s)) == Ok(s)
  {
  }

  /** A status column the mapper accepts: NULL or a constant's name. */
  predicate KnownStatus(column: Option<string>)
  {
    column.None? || exists s :: StatusName(s) == column.value
  }

  /** toProduct: null for null; otherwise every column copied, with the
      status name mapped by valueOf (NULL stays null). An unknown status
      name fails the mapping. */
  function ToProduct(record: Option<ProductsRecord>): (r: Result<Option<Product>, Failure>)
    ensures record.None? ==> r == Ok(None)
    ensures record.Some? ==> (r.Ok? <==> KnownStatus(record.value.status))
    ensures r.Ok? && record.Some? ==>
      var row := record.value;
      && r.value.Some?
      && r.value.value.id == Some(row.id)
      && r.value.value.(status := None) ==
           Product(Some(row.id), row.name, row.description, row.price, row.stockQuantity, row.sku,
                   row.category, None, row.createdAt, row.updatedAt, row.createdBy, row.updatedBy)
      && (r.value.value.status.None? <==> row.status.None?)
      && (row.status.Some? ==> StatusName(r.value.value.status.value) == row.status.value)
    ensures r.Err? ==> record.Some? && record.value.status.Some?
                       && r.error == IllegalArgument(NoEnumConstant(record.value.status.value))
  {
    match record
    case None => Ok(None)
    case Some(row) =>
      var status :=
        if row.status.None? then Ok(None)
        else match ValueOf(row.status.value)
          case Ok(s) => Ok(Some(s))
          case Err(e) => Err(e);
      match status
      case Err(e) => Err(e)
      case Ok(s) =>
        Ok(Some(Product(Some(row.id), row.name, row.description, row.price, row.stockQuantity, row.sku,
                        row.category, s, row.createdAt, row.updatedAt, row.createdBy, row.updatedBy)))
  }

  /** Every row the repository writes maps: create stores a constant's name
      and update a constant's name or NULL. */
  lemma WrittenStatusesAreKnown(requested: Option<ProductStatus>)
    ensures KnownStatus(Some(if requested.Some? then StatusName(requested.value) else StatusName(Active)))
    ensures KnownStatus(if requested.Some? then Some(StatusName(requested.value)) else None)
  {
  }

  /** Mapping a row with a known status recovers the status the row was
      written with. */
  lemma ToProductRecoversStatus(row: ProductsRecord, s: ProductStatus)
    requires row.status == Some(StatusName(s))
    ensures ToProduct(Some(row)).Ok?
    ensures ToProduct(Some(row)).value.value.status == Some(s)
  {
    ValueOfInvertsName(s);
  }
}
