/** Offset/limit pagination of the product listing: the inclusive row range
    requested from the database and the `pagination` block of the response.
 */
module Pagination {
  import opened Wrappers
  import opened Http

  const DefaultPage: int := 1
  const DefaultLimit: int := 10

  /** The `page` and `limit` query parameters as integers; None when the
      parameter is absent and its default applies. */
  datatype Query = Query(page: Option<int>, limit: Option<int>)

  /** The page requested and the inclusive row range `from..to` passed to the
      database. */
  datatype Window = Window(page: int, limit: int, from: int, to: int)

  /** The row range of a page: pages are numbered from 1 and hold `limit` rows. */
  function PageWindow(q: Query): (w: Window)
    ensures w.page == q.page.GetOr(DefaultPage) && w.limit == q.limit.GetOr(DefaultLimit)
    ensures w.to - w.from + 1 == w.limit
    ensures w.page == 1 ==> w.from == 0
  {
    var page := q.page.GetOr(DefaultPage);
    var limit := q.limit.GetOr(DefaultLimit);
    var from := (page - 1) * limit;
    Window(page, limit, from, from + limit - 1)
  }

  function Page(page: int, limit: int): Window {
    PageWindow(Query(Some(page), Some(limit)))
  }

  /** The ceiling of `count / limit` for a positive limit, by the rounded-up
      quotient. */
  lemma CeilPositive(count: nat, limit: int)
    requires limit > 0
    ensures var q := (count + limit - 1) / limit;
      q * limit >= count && (q - 1) * limit < count && q >= 0 && (count == 0 <==> q == 0)
  {
    var m := count + limit - 1;
    var q := m / limit;
    assert m == q * limit + m % limit && 0 <= m % limit < limit;
    assert (q - 1) * limit == q * limit - limit;
  }

  /** The ceiling of `count / limit` for a negative limit: minus the floor of
      `count / -limit`. */
  lemma CeilNegative(count: nat, limit: int)
    requires limit < 0
    ensures var q := count / -limit;
      -q * limit <= count && (-q - 1) * limit > count
  {
    var q := count / -limit;
    assert count == q * -limit + count % -limit && 0 <= count % -limit < -limit;
    assert -q * limit == q * -limit;
    assert (-q - 1) * limit == q * -limit - limit;
  }

  /** `Math.ceil(count / limit)` as the JSON response carries it. A zero limit
      makes the quotient `Infinity` or `NaN`, which serialise as `null` (None). */
  function TotalPages(count: nat, limit: int): (n: Option<int>)
    ensures n.None? <==> limit == 0
    ensures limit > 0 ==> n.value * limit >= count && (n.value - 1) * limit < count
    ensures limit < 0 ==> n.value * limit <= count && (n.value - 1) * limit > count
    ensures limit > 0 ==> n.value >= 0 && (count == 0 <==> n.value == 0)
  {
    if limit == 0 then None
    else if limit > 0 then
      CeilPositive(count, limit);
      Some((count + limit - 1) / limit)
    else
      CeilNegative(count, limit);
      Some(-(count / -limit))
  }

  /** The next page's range starts right after this page's range ends. */
  lemma NextPageAdjacent(page: int, limit: int)
    ensures Page(page + 1, limit).from == Page(page, limit).to + 1
  {
    assert page * limit == (page - 1) * limit + limit;
  }

  /** With a positive limit, the ranges of two different pages do not overlap:
      the earlier page ends before the later one starts. */
  lemma {:induction false} PagesDisjoint(p1: int, p2: int, limit: int)
    requires limit > 0 && p1 < p2
    ensures Page(p1, limit).to < Page(p2, limit).from
    decreases p2 - p1
  {
    NextPageAdjacent(p1, limit);
    if p1 + 1 < p2 {
      PagesDisjoint(p1 + 1, p2, limit);
    }
  }

  /** With a positive limit, every row index below `count` lies in exactly
      the page `i / limit + 1`, and that page is among pages 1..totalPages. */
  lemma PagesCoverRows(count: nat, limit: int, i: int)
    requires limit > 0 && 0 <= i < count
    ensures var page := i / limit + 1;
      && 1 <= page <= TotalPages(count, limit).value
      && Page(page, limit).from <= i <= Page(page, limit).to
  {
    var page := i / limit + 1;
    var n := TotalPages(count, limit).value;
    assert i == (page - 1) * limit + i % limit && 0 <= i % limit < limit;
    assert (page - 1) * limit < n * limit;
    FactorBelow(page - 1, n, limit);
  }

  /** A positive factor preserves strict order in reverse: `a * c < b * c`
      means `a < b`. */
  lemma FactorBelow(a: int, b: int, c: int)
    requires c > 0 && a * c < b * c
    ensures a < b
  {
    assert (b - a) * c == b * c - a * c;
  }

  /** The outcome of the listing query: the rows of the range and the exact
      total count, or an error. */
  datatype ListResult = Listed(rows: seq<Row>, count: nat) | ListFailed

  /** What the listing query answers for the row range of the requested
      page; `db` is the query with its filters and ordering applied, as a
      function of the inclusive range handed to `range(from, to)`. */
  function Fetch(q: Query, db: (int, int) -> ListResult): ListResult {
    var w := PageWindow(q);
    db(w.from, w.to)
  }

  /** `getAllProducts` for a query whose filters are already applied. */
  function ListProducts(q: Query, db: (int, int) -> ListResult): (r: Response)
    ensures r.status == 200 <==> Fetch(q, db).Listed?
    ensures Fetch(q, db).ListFailed? ==> r == Plain(500, "Failed to fetch products")
    ensures Fetch(q, db).Listed? ==>
      r.body.PageBody? && r.body.rows == Fetch(q, db).rows && r.body.total == Fetch(q, db).count
    ensures Fetch(q, db).Listed? ==>
      r.body.page == q.page.GetOr(DefaultPage) && r.body.limit == q.limit.GetOr(DefaultLimit)
    ensures Fetch(q, db).Listed? && r.body.limit > 0 ==>
      r.body.totalPages.Some? &&
      (r.body.totalPages.value - 1) * r.body.limit < Fetch(q, db).count <= r.body.totalPages.value * r.body.limit
  {
    var w := PageWindow(q);
    match db(w.from, w.to)
    case ListFailed => Plain(500, "Failed to fetch products")
    case Listed(rows, count) =>
      Response(200, PageBody(rows, w.page, w.limit, count, TotalPages(count, w.limit)))
  }

  /** The rows the listing answers with are those the query returns for
      exactly the page's range `(page - 1) * limit .. page * limit - 1`;
      the query for any other range does not matter. */
  lemma ListQueriesPageRange(q: Query, db1: (int, int) -> ListResult, db2: (int, int) -> ListResult)
    requires var page := q.page.GetOr(DefaultPage); var limit := q.limit.GetOr(DefaultLimit);
      db1((page - 1) * limit, page * limit - 1) == db2((page - 1) * limit, page * limit - 1)
    ensures ListProducts(q, db1) == ListProducts(q, db2)
  {
  }
}
