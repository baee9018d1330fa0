/**
 * The generic resource repository over one table, held as its rows in
 * storage order. A criterion is a predicate on rows; the count query and
 * the find query both select the rows it accepts.
 */
module ResourceRepository {
  import opened Wrappers
  import opened Paginated

  /** The caller's pagination request: rows to skip and rows to take. */
  datatype PaginationData = PaginationData(offset: int, limit: int)

  function Min(a: int, b: int): int {
    if a <= b then a else b
  }

  // ---------------------------------------------------------------------
  // The two store reads
  // ---------------------------------------------------------------------

  /** The rows the criterion accepts, in storage order. */
  function Filter<T>(rows: seq<T>, criteria: T -> bool): (r: seq<T>)
    ensures |r| <= |rows|
    ensures forall i :: 0 <= i < |r| ==> r[i] in rows && criteria(r[i])
    ensures forall i :: 0 <= i < |rows| && criteria(rows[i]) ==> rows[i] in r
  {
    if rows == [] then []
    else (if criteria(rows[0]) then [rows[0]] else []) + Filter(rows[1..], criteria)
  }

  /** Selecting from a table of one row: that row when accepted, else nothing. */
  lemma FilterSingleRow<T>(x: T, criteria: T -> bool)
    ensures Filter([x], criteria) == if criteria(x) then [x] else []
  {
    assert [x][1..] == [];
  }

  /**
   * Selection distributes over concatenation of tables; with the single-row
   * case this fixes the order and multiplicity of the selected rows.
   */
  lemma {:induction false} FilterAppend<T>(a: seq<T>, b: seq<T>, criteria: T -> bool)
    ensures Filter(a + b, criteria) == Filter(a, criteria) + Filter(b, criteria)
  {
    if a == [] {
      assert a + b == b;
    } else {
      assert (a + b)[1..] == a[1..] + b;
      FilterAppend(a[1..], b, criteria);
    }
  }

  /** A criterion that accepts every row selects the whole table, in order. */
  lemma {:induction false} FilterAcceptAll<T>(rows: seq<T>, criteria: T -> bool)
    requires forall i :: 0 <= i < |rows| ==> criteria(rows[i])
    ensures Filter(rows, criteria) == rows
  {
    if rows != [] {
      FilterAcceptAll(rows[1..], criteria);
    }
  }

  /** countResource: the number of rows the criterion accepts. */
  function CountResource<T>(rows: seq<T>, criteria: T -> bool): (r: nat)
    ensures r == |Filter(rows, criteria)|
    ensures r <= |rows|
    ensures r == 0 <==> forall i :: 0 <= i < |rows| ==> !criteria(rows[i])
  {
    if rows == [] then 0
    else (if criteria(rows[0]) then 1 else 0) + CountResource(rows[1..], criteria)
  }

  /** The rows after skipping `offset` of them, at most `limit` of them. */
  function Window<T>(xs: seq<T>, offset: nat, limit: nat): (r: seq<T>)
    ensures |r| == if offset >= |xs| then 0 else Min(limit, |xs| - offset)
    ensures forall i :: 0 <= i < |r| ==> r[i] == xs[offset + i]
  {
    if offset >= |xs| then []
    else if offset + limit >= |xs| then xs[offset..]
    else xs[offset..offset + limit]
  }

  /** findOneById: the first row carrying `id`, or none. */
  function FindOneById<T>(rows: seq<T>, idOf: T -> int, id: int): (r: Option<T>)
    ensures r.Some? ==> r.value in rows && idOf(r.value) == id
    ensures r.None? <==> forall i :: 0 <= i < |rows| ==> idOf(rows[i]) != id
  {
    if rows == [] then None
    else if idOf(rows[0]) == id then Some(rows[0])
    else FindOneById(rows[1..], idOf, id)
  }

  /** With unique ids (a primary key), findOneById returns exactly the row carrying `id`. */
  lemma {:induction false} FindOneByIdFindsKey<T>(rows: seq<T>, idOf: T -> int, k: int)
    requires forall i, j :: 0 <= i < |rows| && 0 <= j < |rows| && idOf(rows[i]) == idOf(rows[j]) ==> i == j
    requires 0 <= k < |rows|
    ensures FindOneById(rows, idOf, idOf(rows[k])) == Some(rows[k])
    decreases k
  {
    if k > 0 {
      assert idOf(rows[0]) != idOf(rows[k]);
      var tail := rows[1..];
      assert tail[k - 1] == rows[k];
      forall i, j | 0 <= i < |tail| && 0 <= j < |tail| && idOf(tail[i]) == idOf(tail[j])
        ensures i == j
      {
        assert tail[i] == rows[i + 1] && tail[j] == rows[j + 1];
      }
      FindOneByIdFindsKey(tail, idOf, k - 1);
    }
  }

  // ---------------------------------------------------------------------
  // Page arithmetic
  // ---------------------------------------------------------------------

  /** Math.ceil(n / d) for a positive divisor: the least page count covering `n` rows. */
  function CeilDiv(n: nat, d: int): (r: nat)
    requires d > 0
    ensures (r - 1) * d < n <= r * d
  {
    var q := n / d;
    assert n == q * d + n % d;
    if n % d == 0 then q else q + 1
  }

  /** A product of a positive and a non-negative number is non-negative, positive when both are. */
  lemma {:induction false} ProductSign(x: int, d: int)
    requires x >= 0 && d > 0
    ensures x * d >= 0
    ensures x > 0 ==> x * d >= d
    decreases x
  {
    if x > 0 {
      ProductSign(x - 1, d);
      assert x * d == (x - 1) * d + d;
    }
  }

  /** `a * d > b * d` exactly when `a > b`, for a positive `d`. */
  lemma {:induction false} ScaleCompare(a: int, b: int, d: int)
    requires d > 0
    ensures a * d > b * d <==> a > b
  {
    if a > b {
      ProductSign(a - b, d);
      assert a * d == (a - b) * d + b * d;
    } else {
      ProductSign(b - a, d);
      assert b * d == (b - a) * d + a * d;
    }
  }

  /**
   * A positive row count needs at least one page, and every page but the
   * last starts below it.
   */
  lemma {:induction false} SomeRowsSomePages(n: nat, d: int, page: int)
    requires d > 0 && n > 0 && page <= CeilDiv(n, d)
    ensures CeilDiv(n, d) >= 1
    ensures (page - 1) * d < n
  {
    var total := CeilDiv(n, d);
    ScaleCompare(total, 0, d);
    ScaleCompare(total - 1, page - 1, d);
  }

  /** The page an offset falls on, counting from 1. */
  function RequestedPage(offset: int, limit: int): (r: int)
    requires offset >= 0 && limit > 0
    ensures r >= 1
    ensures (r - 1) * limit <= offset < r * limit
  {
    var q := offset / limit;
    assert offset == q * limit + offset % limit;
    q + 1
  }

  /** The offset at which page `page` starts, counting pages from 1. */
  function PageOffset(page: int, limit: int): (r: nat)
    requires page >= 1 && limit > 0
    ensures r == (page - 1) * limit
  {
    ProductSign(page - 1, limit);
    (page - 1) * limit
  }

  /** With rows present, any page from the first up to the last starts inside them. */
  lemma ClampedOffsetInRange(n: nat, d: int, page: int)
    requires d > 0 && n > 0 && 1 <= page <= CeilDiv(n, d)
    ensures 0 <= (page - 1) * d < n
  {
    SomeRowsSomePages(n, d, page);
    ProductSign(page - 1, d);
  }

  /**
   * The clamp of a requested page: start at `requested`, and when its
   * offset lies past the last page's, move to the last page. The result
   * is the smaller of the two, and its offset is always (page - 1) * limit.
   */
  method ClampPage(requested: int, totalPageNumber: int, limit: int) returns (currentPageNumber: int, offset: int)
    requires limit > 0
    ensures currentPageNumber == Min(requested, totalPageNumber)
    ensures currentPageNumber <= totalPageNumber
    ensures offset == (currentPageNumber - 1) * limit
  {
    currentPageNumber := requested;
    offset := (currentPageNumber - 1) * limit;
    ScaleCompare(requested - 1, totalPageNumber - 1, limit);
    if offset > (totalPageNumber - 1) * limit {
      offset := (totalPageNumber - 1) * limit;
      currentPageNumber := totalPageNumber;
    }
  }

  /** The clamp fires exactly when the requested page lies past the last one. */
  lemma ClampFiresIff(requested: int, totalPageNumber: int, limit: int)
    requires limit > 0
    ensures (requested - 1) * limit > (totalPageNumber - 1) * limit <==> requested > totalPageNumber
  {
    ScaleCompare(requested - 1, totalPageNumber - 1, limit);
  }

  // ---------------------------------------------------------------------
  // findByPaginated
  // ---------------------------------------------------------------------

  /**
   * findByPaginated as written: the requested page is the limit itself,
   * the query runs with the caller's unclamped offset and limit, and the
   * constructor receives (rows, count, total pages, current page, limit).
   */
  method FindByPaginated<T>(rows: seq<T>, criteria: T -> bool, paginationData: PaginationData) returns (r: PaginatedResources<T>)
    requires paginationData.limit > 0 && paginationData.offset >= 0
    ensures r.resources == Window(Filter(rows, criteria), paginationData.offset, paginationData.limit)
    ensures r.page == CountResource(rows, criteria)
    ensures r.nbPages == CeilDiv(r.page, paginationData.limit)
    ensures r.nbResults == Min(paginationData.limit, r.nbPages) && r.nbResults <= r.nbPages
    ensures r.nbResultsPerPage == paginationData.limit
    ensures r.page == 0 ==> r.nbPages == 0 && r.nbResults == 0
  {
    var resourcesCount := CountResource(rows, criteria);
    var totalPageNumber := CeilDiv(resourcesCount, paginationData.limit);
    var currentPageNumber, offset := ClampPage(paginationData.limit, totalPageNumber, paginationData.limit);
    var resources := Window(Filter(rows, criteria), paginationData.offset, paginationData.limit);
    r := PaginatedResources(resources, resourcesCount, totalPageNumber, currentPageNumber, paginationData.limit);
  }

  /**
   * As written, an offset at or past the number of matching rows yields
   * an empty page although at least one page of results exists.
   */
  lemma OutOfRangeOffsetGivesEmptyPage<T>(rows: seq<T>, criteria: T -> bool, paginationData: PaginationData)
    requires paginationData.limit > 0
    requires 0 < CountResource(rows, criteria) <= paginationData.offset
    ensures CeilDiv(CountResource(rows, criteria), paginationData.limit) >= 1
    ensures Window(Filter(rows, criteria), paginationData.offset, paginationData.limit) == []
  {
    SomeRowsSomePages(CountResource(rows, criteria), paginationData.limit, 1);
  }

  /**
   * findByPaginated as evidently intended: the requested page follows
   * from the offset, is clamped to the last page, the query runs with the
   * clamped offset, and the counters go to the fields their names say.
   */
  method FindByPaginatedClamped<T>(rows: seq<T>, criteria: T -> bool, paginationData: PaginationData) returns (r: PaginatedResources<T>)
    requires paginationData.limit > 0 && paginationData.offset >= 0
    ensures r.nbResults == CountResource(rows, criteria)
    ensures r.nbPages == CeilDiv(r.nbResults, paginationData.limit)
    ensures r.page == Min(RequestedPage(paginationData.offset, paginationData.limit), r.nbPages) && r.page <= r.nbPages
    ensures r.nbResultsPerPage == paginationData.limit
    ensures r.nbResults > 0 ==> 1 <= r.page
    ensures r.nbResults > 0 ==> r.resources == Window(Filter(rows, criteria), PageOffset(r.page, paginationData.limit), paginationData.limit)
    ensures r.nbResults > 0 ==> 0 < |r.resources| <= paginationData.limit
  {
    var limit := paginationData.limit;
    var resourcesCount := CountResource(rows, criteria);
    var totalPageNumber := CeilDiv(resourcesCount, limit);
    var currentPageNumber, offset := ClampPage(RequestedPage(paginationData.offset, limit), totalPageNumber, limit);
    var resources := [];
    if resourcesCount > 0 {
      SomeRowsSomePages(resourcesCount, limit, 1);
      ClampedOffsetInRange(resourcesCount, limit, currentPageNumber);
      resources := Window(Filter(rows, criteria), offset, limit);
    }
    r := PaginatedResources(resources, currentPageNumber, totalPageNumber, resourcesCount, limit);
  }
}
