/** The jOOQ module's product repository: typed SQL statements against the
    PRODUCTS table. The table is a map from the identity column to its
    rows; the identity value of an insert and the timestamp a statement
    writes are parameters. */
module JooqProductRepository {
  import opened Common

  datatype ProductStatus = Active | Inactive | Discontinued

  /** Enum.name(). */
  function StatusName(s: ProductStatus): string
  {
    match s
    case Active => "ACTIVE"
    case Inactive => "INACTIVE"
    case Discontinued => "DISCONTINUED"
  }

  /** java.time.LocalDateTime. */
  type Timestamp = int

  /** A BigDecimal price as a whole number of cents: 1299.99 is 129999.
      Prices are only copied between request, row and product, never
      computed with. Amounts with more than two fraction digits, and the
      scale that tells 1299.9 from 1299.90, are not represented. */
  type Cents = int

  datatype CreateProductRequest = CreateProductRequest(
    name: Option<string>,
    description: Option<string>,
    price: Option<Cents>,
    stockQuantity: Option<int>,
    sku: Option<string>,
    category: Option<string>,
    status: Option<ProductStatus>)

  /** Every component may be null. */
  datatype UpdateProductRequest = UpdateProductRequest(
    name: Option<string>,
    description: Option<string>,
    price: Option<Cents>,
    stockQuantity: Option<int>,
    sku: Option<string>,
    category: Option<string>,
    status: Option<ProductStatus>)

  /** A row of PRODUCTS; the status column holds an enum constant's name. */
  datatype ProductsRecord = ProductsRecord(
    id: int,
    name: Option<string>,
    description: Option<string>,
    price: Option<Cents>,
    stockQuantity: Option<int>,
    sku: Option<string>,
    category: Option<string>,
    status: Option<string>,
    createdAt: Option<Timestamp>,
    updatedAt: Option<Timestamp>,
    createdBy: Option<string>,
    updatedBy: Option<string>)

  /** A page request: a page index and a page size of at least one. */
  datatype PageRequest = PageRequest(pageNumber: nat, pageSize: nat)
  type Pageable = p: PageRequest | p.pageSize >= 1 witness PageRequest(0, 1)

  function Offset(pageable: Pageable): nat
  {
    pageable.pageNumber * pageable.pageSize
  }

  /** A page of content with the total number of matching elements. */
  datatype Page<T> = Page(content: seq<T>, total: nat)

  /** SQL lower() on the letters A to Z. */
  function LowerAscii(c: char): char
  {
    if 'A' <= c <= 'Z' then (c as int + 32) as char else c
  }

  function Lower(s: string): string
  {
    seq(|s|, i requires 0 <= i < |s| => LowerAscii(s[i]))
  }

  /** Field.equalIgnoreCase: lower(a) = lower(b). */
  predicate EqualIgnoreCase(a: string, b: string)
  {
    Lower(a) == Lower(b)
  }

  /** The WHERE condition findAll builds: STATUS = status.name() when a
      status is given, and the case-insensitive category comparison when a
      category is given and not blank. A NULL column satisfies neither. */
  function Matches(row: ProductsRecord, status: Option<ProductStatus>, category: Option<string>): (m: bool)
    ensures status.None? && IsNullOrBlank(category) ==> m
    ensures m && status.Some? ==> row.status.Some?
    ensures m && !IsNullOrBlank(category) ==> row.category.Some?
  {
    && (status.None? || row.status == Some(StatusName(status.value)))
    && (IsNullOrBlank(category) || (row.category.Some? && EqualIgnoreCase(row.category.value, category.value)))
  }

  predicate StrictlyIncreasing(r: seq<int>)
  {
    forall i, j :: 0 <= i < j < |r| ==> r[i] < r[j]
  }

  predicate Distinct(xs: seq<int>)
  {
    forall i, j :: 0 <= i < j < |xs| ==> xs[i] != xs[j]
  }

  /** `x` put into its place in an ascending sequence. */
  function InsertAscending(x: int, r: seq<int>): (q: seq<int>)
    requires StrictlyIncreasing(r) && x !in r
    ensures StrictlyIncreasing(q)
    ensures |q| == |r| + 1
    ensures forall k :: k in q <==> k == x || k in r
    decreases |r|
  {
    if r == [] || x < r[0] then [x] + r
    else
      var rest := InsertAscending(x, r[1..]);
      assert forall i :: 0 <= i < |rest| ==> rest[i] in rest;
      assert forall k :: k in r[1..] ==> r[0] < k;
      assert forall i :: 0 <= i < |rest| ==> r[0] < rest[i];
      [r[0]] + rest
  }

  /** ORDER BY ID over the ids a scan produced, in whatever order. */
  function SortAscending(xs: seq<int>): (r: seq<int>)
    requires Distinct(xs)
    ensures StrictlyIncreasing(r)
    ensures |r| == |xs|
    ensures forall k :: k in r <==> k in xs
    decreases |xs|
  {
    if xs == [] then []
    else
      var last := |xs| - 1;
      assert forall k :: k in xs <==> k in xs[..last] || k == xs[last];
      InsertAscending(xs[last], SortAscending(xs[..last]))
  }

  lemma EmptyIffNoElements(s: seq<int>)
    ensures s == [] <==> forall k :: k !in s
  {
    if s != [] {
      var k := s[0];
      assert k in s;
    }
  }

  /** The head of an ascending sequence is its least element. */
  lemma HeadIsLeast(a: seq<int>)
    requires StrictlyIncreasing(a) && a != []
    ensures forall k :: k in a ==> a[0] <= k
  {
  }

  /** The tail of an ascending sequence holds every element but the head. */
  lemma TailIsRest(a: seq<int>)
    requires StrictlyIncreasing(a) && a != []
    ensures StrictlyIncreasing(a[1..])
    ensures forall k :: k in a[1..] <==> k in a && k != a[0]
  {
    assert a == [a[0]] + a[1..];
  }

  /** Two ascending sequences with the same elements are the same sequence,
      so ORDER BY ID does not depend on the order the rows were scanned. */
  lemma {:induction false} AscendingIsUnique(a: seq<int>, b: seq<int>)
    requires StrictlyIncreasing(a) && StrictlyIncreasing(b)
    requires forall k :: k in a <==> k in b
    ensures a == b
    decreases |a|
  {
    EmptyIffNoElements(a);
    EmptyIffNoElements(b);
    if a != [] && b != [] {
      HeadIsLeast(a);
      HeadIsLeast(b);
      assert a[0] == b[0] by {
        assert a[0] in b && b[0] in a;
      }
      TailIsRest(a);
      TailIsRest(b);
      AscendingIsUnique(a[1..], b[1..]);
      assert a == [a[0]] + a[1..] && b == [b[0]] + b[1..];
    }
  }

  /** The ids of `order` whose rows the condition keeps, in scan order. */
  function MatchingIn(rows: map<int, ProductsRecord>, order: seq<int>, status: Option<ProductStatus>,
                      category: Option<string>): (r: seq<int>)
    requires forall i :: 0 <= i < |order| ==> order[i] in rows
    ensures forall k :: k in r <==> k in order && Matches(rows[k], status, category)
    ensures Distinct(order) ==> Distinct(r)
    decreases |order|
  {
    if order == [] then []
    else
      var rest := MatchingIn(rows, order[1..], status, category);
      assert forall k :: k in order <==> k == order[0] || k in order[1..];
      if Matches(rows[order[0]], status, category) then [order[0]] + rest else rest
  }


  /** The page of `ids` a LIMIT size OFFSET offset clause keeps. */
  function Window(ids: seq<int>, offset: nat, size: nat): (r: seq<int>)
    ensures |r| == (if offset >= |ids| then 0 else Min(size, |ids| - offset))
    ensures forall i :: 0 <= i < |r| ==> r[i] == ids[offset + i]
  {
    if offset >= |ids| then [] else ids[offset..Min(offset + size, |ids|)]
  }

  /** A window of an ascending sequence is ascending. */
  lemma WindowKeepsOrder(ids: seq<int>, offset: nat, size: nat)
    requires StrictlyIncreasing(ids)
    ensures StrictlyIncreasing(Window(ids, offset, size))
  {
    var w := Window(ids, offset, size);
    forall i, j | 0 <= i < j < |w|
      ensures w[i] < w[j]
    {
      assert w[i] == ids[offset + i] && w[j] == ids[offset + j];
    }
  }

  /** Paging loses nothing: the j-th id of an ordering is on page
      j / size, at position j % size. */
  lemma WindowFindsEveryId(ids: seq<int>, size: nat, j: nat)
    requires size >= 1 && j < |ids|
    ensures j % size < |Window(ids, (j / size) * size, size)|
    ensures Window(ids, (j / size) * size, size)[j % size] == ids[j]
  {
    assert (j / size) * size + j % size == j;
  }

  class ProductRepository {
    /** The PRODUCTS table, keyed by its identity column. */
    var rows: map<int, ProductsRecord>

    ghost predicate Valid()
      reads this
    {
      forall id :: id in rows ==> rows[id].id == id
    }

    constructor ()
      ensures Valid() && rows == map[]
    {
      rows := map[];
    }

    /** The ids of the rows the condition keeps. */
    function MatchingIds(status: Option<ProductStatus>, category: Option<string>): (ids: set<int>)
      reads this
      ensures ids <= rows.Keys
      ensures forall id :: id in ids ==> Matches(rows[id], status, category)
    {
      set id | id in rows && Matches(rows[id], status, category)
    }

    /** The ids the condition keeps, ORDER BY ID, for a scan of the table
        in the order `scanOrder`. */
    function OrderedMatches(scanOrder: seq<int>, status: Option<ProductStatus>, category: Option<string>): (ids: seq<int>)
      reads this
      requires Enumerates(scanOrder, rows)
      ensures StrictlyIncreasing(ids)
      ensures forall k :: k in ids <==> k in MatchingIds(status, category)
      ensures forall i :: 0 <= i < |ids| ==> ids[i] in rows && Matches(rows[ids[i]], status, category)
      ensures |ids| == |MatchingIds(status, category)|
    {
      EnumerationCoversKeys(scanOrder, rows);
      var matching := MatchingIn(rows, scanOrder, status, category);
      DistinctCardinality(matching);
      assert (set i | 0 <= i < |matching| :: matching[i]) == MatchingIds(status, category) by {
        forall k | k in MatchingIds(status, category)
          ensures k in set i | 0 <= i < |matching| :: matching[i]
        {
          assert k in matching;
          var i :| 0 <= i < |matching| && matching[i] == k;
        }
        forall i | 0 <= i < |matching|
          ensures matching[i] in MatchingIds(status, category)
        {
          assert matching[i] in matching;
        }
      }
      var sorted := SortAscending(matching);
      assert forall i :: 0 <= i < |sorted| ==> sorted[i] in sorted;
      sorted
    }

    /** create: one INSERT writing the request's columns, the status name
        (ACTIVE when none is given), the creation time and user, then the
        row read back under its new identity value. The update columns are
        left NULL. */
    method Create(request: CreateProductRequest, createdBy: string, newId: int, now: Timestamp)
      returns (r: Option<ProductsRecord>)
      requires Valid()
      requires forall id :: id in rows ==> id < newId
      modifies this
      ensures Valid()
      ensures newId !in old(rows)
      ensures r == Some(ProductsRecord(
                newId, request.name, request.description, request.price, request.stockQuantity,
                request.sku, request.category,
                Some(if request.status.Some? then StatusName(request.status.value) else StatusName(Active)),
                Some(now), None, Some(createdBy), None))
      ensures rows == old(rows)[newId := r.value]
    {
      var status := if request.status.Some? then StatusName(request.status.value) else StatusName(Active);
      var inserted := ProductsRecord(newId, request.name, request.description, request.price,
                                     request.stockQuantity, request.sku, request.category, Some(status),
                                     Some(now), None, Some(createdBy), None);
      rows := rows[newId := inserted];
      r := FindById(newId);
    }

    /** findById: the row with that id, if any. */
    method FindById(id: int) returns (r: Option<ProductsRecord>)
      requires Valid()
      ensures r.Some? <==> id in rows
      ensures r.Some? ==> r.value == rows[id] && r.value.id == id
    {
      r := if id in rows then Some(rows[id]) else None;
    }

    /** findAll: the count of the matching rows, and the matching rows
        ordered by id after skipping the page offset, at most a page size
        of them. The table is scanned in the order `scanOrder`. */
    method FindAll(pageable: Pageable, status: Option<ProductStatus>, category: Option<string>, scanOrder: seq<int>)
      returns (page: Page<ProductsRecord>)
      requires Valid()
      requires Enumerates(scanOrder, rows)
      ensures page.total == |MatchingIds(status, category)|
      ensures |page.content| == (if Offset(pageable) >= page.total then 0
                                 else Min(pageable.pageSize, page.total - Offset(pageable)))
      ensures forall i :: 0 <= i < |page.content| ==>
                page.content[i].id in rows && rows[page.content[i].id] == page.content[i]
                && Matches(page.content[i], status, category)
      ensures forall i, j :: 0 <= i < j < |page.content| ==> page.content[i].id < page.content[j].id
      ensures forall i :: 0 <= i < |page.content| ==>
                page.content[i].id == OrderedMatches(scanOrder, status, category)[Offset(pageable) + i]
      ensures |page.content| == |PageIds(pageable, scanOrder, status, category)|
      ensures forall i :: 0 <= i < |page.content| ==>
                page.content[i] == rows[PageIds(pageable, scanOrder, status, category)[i]]
    {
      var ids := OrderedMatches(scanOrder, status, category);
      var window := PageIds(pageable, scanOrder, status, category);
      var content := RowsOf(window);
      RowsOfMatches(window, status, category);
      page := Page(content, |ids|);
    }

    /** The ids on the requested page: the matching ids ordered by id,
        from the page offset on, at most a page size of them. */
    function PageIds(pageable: Pageable, scanOrder: seq<int>, status: Option<ProductStatus>, category: Option<string>): (w: seq<int>)
      reads this
      requires Enumerates(scanOrder, rows)
      ensures var total := |MatchingIds(status, category)|;
              |w| == (if Offset(pageable) >= total then 0 else Min(pageable.pageSize, total - Offset(pageable)))
      ensures forall i :: 0 <= i < |w| ==> w[i] == OrderedMatches(scanOrder, status, category)[Offset(pageable) + i]
      ensures forall i :: 0 <= i < |w| ==>
                w[i] in rows && w[i] in MatchingIds(status, category) && Matches(rows[w[i]], status, category)
      ensures StrictlyIncreasing(w)
    {
      var ids := OrderedMatches(scanOrder, status, category);
      WindowKeepsOrder(ids, Offset(pageable), pageable.pageSize);
      var w := Window(ids, Offset(pageable), pageable.pageSize);
      assert forall i :: 0 <= i < |w| ==> w[i] in ids;
      w
    }

    /** The rows stored under `ids`, in that order. */
    function RowsOf(ids: seq<int>): (r: seq<ProductsRecord>)
      reads this
      requires forall i :: 0 <= i < |ids| ==> ids[i] in rows
      ensures |r| == |ids|
      ensures forall i :: 0 <= i < |ids| ==> r[i] == rows[ids[i]]
    {
      if ids == [] then [] else [rows[ids[0]]] + RowsOf(ids[1..])
    }

    /** The stored rows under ids that all match are matching rows, each
        under its own id. */
    lemma RowsOfMatches(ids: seq<int>, status: Option<ProductStatus>, category: Option<string>)
      requires Valid()
      requires forall i :: 0 <= i < |ids| ==> ids[i] in rows && Matches(rows[ids[i]], status, category)
      ensures forall i :: 0 <= i < |ids| ==>
                && RowsOf(ids)[i].id == ids[i]
                && rows[RowsOf(ids)[i].id] == RowsOf(ids)[i]
                && Matches(RowsOf(ids)[i], status, category)
    {
    }

    /** update: one UPDATE writing every business column from the request
        as given, nulls included (a null status becomes a NULL column), and
        the update time and user; the row is read back when one was
        changed. */
    method Update(id: int, request: UpdateProductRequest, updatedBy: string, now: Timestamp)
      returns (r: Option<ProductsRecord>)
      requires Valid()
      modifies this
      ensures Valid()
      ensures id !in old(rows) ==> r.None? && rows == old(rows)
      ensures id in old(rows) ==>
        var before := old(rows)[id];
        && r == Some(ProductsRecord(
                  id, request.name, request.description, request.price, request.stockQuantity,
                  request.sku, request.category,
                  if request.status.Some? then Some(StatusName(request.status.value)) else None,
                  before.createdAt, Some(now), before.createdBy, Some(updatedBy)))
        && rows == old(rows)[id := r.value]
    {
      if id !in rows {
        return None;
      }
      var before := rows[id];
      var after := ProductsRecord(
        id, request.name, request.description, request.price, request.stockQuantity,
        request.sku, request.category,
        if request.status.Some? then Some(StatusName(request.status.value)) else None,
        before.createdAt, Some(now), before.createdBy, Some(updatedBy));
      rows := rows[id := after];
      r := FindById(id);
    }

    /** deleteById: true exactly when a row was deleted. */
    method DeleteById(id: int) returns (deleted: bool)
      requires Valid()
      modifies this
      ensures Valid()
      ensures deleted <==> id in old(rows)
      ensures rows == old(rows) - {id}
    {
      deleted := id in rows;
      rows := rows - {id};
    }
  }

  /** A blank category filters nothing, as no category at all. */
  lemma BlankCategoryFiltersNothing(row: ProductsRecord, status: Option<ProductStatus>, category: string)
    requires IsBlank(category)
    ensures Matches(row, status, Some(category)) <==> Matches(row, status, None)
  {
  }

  lemma {:induction false} LowerIsIdempotent(s: string)
    ensures Lower(Lower(s)) == Lower(s)
  {
    assert forall i :: 0 <= i < |s| ==> LowerAscii(LowerAscii(s[i])) == LowerAscii(s[i]);
  }

  lemma {:induction false} LowerKeepsBlankness(s: string)
    ensures IsBlank(Lower(s)) <==> IsBlank(s)
  {
    var t := Lower(s);
    assert |t| == |s|;
    assert forall i :: 0 <= i < |s| ==> t[i] == LowerAscii(s[i]);
    assert forall i :: 0 <= i < |s| ==> (IsWhitespace(t[i]) <==> IsWhitespace(s[i]));
  }

  /** The category filter does not see letter case: asking for a category
      in lower case keeps the same rows. */
  lemma {:induction false} CategoryFilterIgnoresCase(row: ProductsRecord, status: Option<ProductStatus>, category: string)
    ensures Matches(row, status, Some(Lower(category))) <==> Matches(row, status, Some(category))
  {
    LowerIsIdempotent(category);
    LowerKeepsBlankness(category);
  }

  /** Without a status and without a category, every row matches, so the
      total is the number of rows. */
  lemma UnfilteredTotalIsRowCount(repo: ProductRepository)
    ensures repo.MatchingIds(None, None) == repo.rows.Keys
  {
    forall id | id in repo.rows
      ensures id in repo.MatchingIds(None, None)
    {
      assert Matches(repo.rows[id], None, None);
    }
  }

  /** Adding a category to a status filter can only narrow the match. */
  lemma CategoryNarrowsTheMatch(repo: ProductRepository, status: Option<ProductStatus>, category: Option<string>)
    ensures repo.MatchingIds(status, category) <= repo.MatchingIds(status, None)
    ensures repo.MatchingIds(status, None) <= repo.MatchingIds(None, None)
  {
    forall id | id in repo.MatchingIds(status, category)
      ensures id in repo.MatchingIds(status, None)
    {
      assert Matches(repo.rows[id], status, None);
    }
    forall id | id in repo.MatchingIds(status, None)
      ensures id in repo.MatchingIds(None, None)
    {
      assert Matches(repo.rows[id], None, None);
    }
  }

  /** The page content does not depend on the order the table is scanned
      in: any two scans give the same ordered matches. */
  lemma ScanOrderDoesNotMatter(repo: ProductRepository, scan1: seq<int>, scan2: seq<int>,
                               status: Option<ProductStatus>, category: Option<string>)
    requires Enumerates(scan1, repo.rows) && Enumerates(scan2, repo.rows)
    ensures repo.OrderedMatches(scan1, status, category) == repo.OrderedMatches(scan2, status, category)
  {
    AscendingIsUnique(repo.OrderedMatches(scan1, status, category), repo.OrderedMatches(scan2, status, category));
  }
}
