/** The Flyway module's product entity: a record of twelve nullable
    columns, its two copy-with operations and the bean-validation
    constraints declared on its components. Prices are BigDecimal amounts
    with at most two fraction digits, held here as whole cents. */
module FlywayProduct {
  import opened Common

  /** ProductStatus. ACTIVE is the one constant the code names; the other
      constants of the enum are carried by their names. */
  datatype ProductStatus = Active | OtherStatus(name: string)

  /** ProductCategory, a Java enum, by constant name. */
  datatype ProductCategory = ProductCategory(name: string)

  /** java.time.Instant. */
  type Instant = int

  datatype Product = Product(
    id: Option<int>,
    name: Option<string>,
    description: Option<string>,
    price: Option<int>,
    stockQuantity: Option<int>,
    sku: Option<string>,
    category: Option<ProductCategory>,
    status: Option<ProductStatus>,
    createdAt: Option<Instant>,
    updatedAt: Option<Instant>,
    createdBy: Option<string>,
    updatedBy: Option<string>)

  /** The seven business components, the ones a request carries. */
  datatype BusinessFields = BusinessFields(
    name: Option<string>,
    description: Option<string>,
    price: Option<int>,
    stockQuantity: Option<int>,
    sku: Option<string>,
    category: Option<ProductCategory>,
    status: Option<ProductStatus>)

  function Business(p: Product): BusinessFields
  {
    BusinessFields(p.name, p.description, p.price, p.stockQuantity, p.sku, p.category, p.status)
  }

  /** withUpdatedFields: a copy with the seven business components and the
      last-update audit pair replaced; id and creation audit are kept. */
  function WithUpdatedFields(
    p: Product,
    name: Option<string>,
    description: Option<string>,
    price: Option<int>,
    stockQuantity: Option<int>,
    sku: Option<string>,
    category: Option<ProductCategory>,
    status: Option<ProductStatus>,
    updatedAt: Option<Instant>,
    updatedBy: Option<string>): (r: Product)
    ensures r.id == p.id && r.createdAt == p.createdAt && r.createdBy == p.createdBy
    ensures Business(r) == BusinessFields(name, description, price, stockQuantity, sku, category, status)
    ensures r.updatedAt == updatedAt && r.updatedBy == updatedBy
  {
    Product(p.id, name, description, price, stockQuantity, sku, category, status,
            p.createdAt, updatedAt, p.createdBy, updatedBy)
  }

  /** withAuditFields: both timestamps become `now` and both audit users
      `username`; id and business components are kept. */
  function WithAuditFields(p: Product, now: Instant, username: string): (r: Product)
    ensures r.id == p.id && Business(r) == Business(p)
    ensures r.createdAt == r.updatedAt == Some(now)
    ensures r.createdBy == r.updatedBy == Some(username)
  {
    Product(p.id, p.name, p.description, p.price, p.stockQuantity, p.sku, p.category, p.status,
            Some(now), Some(now), Some(username), Some(username))
  }

  /** A later withAuditFields overrides an earlier one entirely, so applying
      it twice with the same arguments is applying it once. */
  lemma WithAuditFieldsLastWins(p: Product, now1: Instant, user1: string, now2: Instant, user2: string)
    ensures WithAuditFields(WithAuditFields(p, now1, user1), now2, user2) == WithAuditFields(p, now2, user2)
    ensures WithAuditFields(WithAuditFields(p, now2, user2), now2, user2) == WithAuditFields(p, now2, user2)
  {
  }

  /** A later withUpdatedFields overrides an earlier one entirely. */
  lemma WithUpdatedFieldsLastWins(p: Product, b1: BusinessFields, at1: Option<Instant>, by1: Option<string>,
                                  b2: BusinessFields, at2: Option<Instant>, by2: Option<string>)
    ensures var once := WithUpdatedFields(p, b1.name, b1.description, b1.price, b1.stockQuantity, b1.sku,
                                          b1.category, b1.status, at1, by1);
            WithUpdatedFields(once, b2.name, b2.description, b2.price, b2.stockQuantity, b2.sku,
                              b2.category, b2.status, at2, by2)
            == WithUpdatedFields(p, b2.name, b2.description, b2.price, b2.stockQuantity, b2.sku,
                                 b2.category, b2.status, at2, by2)
  {
  }

  /** An update after creation keeps what creation recorded: the creation
      time and user stay, whoever updates and whenever. */
  lemma UpdateKeepsCreationAudit(p: Product, now: Instant, creator: string, b: BusinessFields,
                                 later: Instant, updater: string)
    ensures var updated := WithUpdatedFields(WithAuditFields(p, now, creator), b.name, b.description,
                                             b.price, b.stockQuantity, b.sku, b.category, b.status,
                                             Some(later), Some(updater));
      && updated.createdAt == Some(now) && updated.createdBy == Some(creator)
      && updated.updatedAt == Some(later) && updated.updatedBy == Some(updater)
      && updated.id == p.id && Business(updated) == b
  {
  }

  /** The largest price the record admits, 99,999,999.99, in cents. */
  const MaxPriceCents := 99_999_999_99

  /** @NotBlank as Hibernate Validator checks it: the text is not empty once
      trim() has removed every leading and trailing character up to U+0020,
      that is, some character lies above U+0020. This is not String.isBlank:
      U+3000 counts as content here, and U+0001 as blank. */
  predicate NotBlank(s: string)
  {
    exists i :: 0 <= i < |s| && s[i] > ' '
  }

  /** The two notions of blankness part ways on U+3000 and U+0001. */
  lemma NotBlankIsNotIsBlank()
    ensures NotBlank("\U{3000}") && IsBlank("\U{3000}")
    ensures !NotBlank("\U{0001}") && !IsBlank("\U{0001}")
  {
    assert "\U{3000}"[0] > ' ';
    assert !IsWhitespace("\U{0001}"[0]);
  }

  /** The constraints declared on the business components: name not blank
      and of 1 to 200 characters, description at most 5000, price present
      and between 0.01 and 99,999,999.99 (eight integer digits, two fraction
      digits), stock not negative, SKU at most 50 characters, status
      present. A null component passes every constraint but @NotNull and
      @NotBlank. */
  predicate ValidBusiness(b: BusinessFields)
  {
    && b.name.Some? && NotBlank(b.name.value) && 1 <= Utf16Length(b.name.value) <= 200
    && (b.description.None? || Utf16Length(b.description.value) <= 5000)
    && b.price.Some? && 1 <= b.price.value <= MaxPriceCents
    && (b.stockQuantity.None? || b.stockQuantity.value >= 0)
    && (b.sku.None? || Utf16Length(b.sku.value) <= 50)
    && b.status.Some?
  }

  /** An audit user column: null, or at most 100 characters. */
  predicate ValidAuditUser(user: Option<string>)
  {
    user.None? || Utf16Length(user.value) <= 100
  }

  /** Every constraint declared on the record. */
  predicate ValidProduct(p: Product)
  {
    ValidBusiness(Business(p)) && ValidAuditUser(p.createdBy) && ValidAuditUser(p.updatedBy)
  }

  /** withAuditFields keeps a valid product valid exactly when the user
      name fits the audit columns. */
  lemma WithAuditFieldsValidity(p: Product, now: Instant, username: string)
    requires ValidBusiness(Business(p))
    ensures ValidProduct(WithAuditFields(p, now, username)) <==> Utf16Length(username) <= 100
  {
  }

  /** The result of withUpdatedFields is valid exactly when the new business
      components are, the new audit user fits, and the kept creator fits. */
  lemma WithUpdatedFieldsValidity(p: Product, b: BusinessFields, updatedAt: Option<Instant>, updatedBy: Option<string>)
    ensures ValidProduct(WithUpdatedFields(p, b.name, b.description, b.price, b.stockQuantity, b.sku,
                                           b.category, b.status, updatedAt, updatedBy))
            <==> ValidBusiness(b) && ValidAuditUser(p.createdBy) && ValidAuditUser(updatedBy)
  {
  }
}
