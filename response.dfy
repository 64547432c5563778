/** The response bodies of the HTTP API: the base envelope, the paginated
    envelope with its page count, and the status code of a plain success
    flag. The data of an envelope is a type parameter; absent data (nil in
    the JSON) is None. */
module Response {
  import opened Domain

  const STATUS_OK := 200
  const STATUS_BAD_REQUEST := 400
  const STATUS_UNAUTHORIZED := 401
  const STATUS_FORBIDDEN := 403

  datatype Base<D> = Base(success: bool, message: string, data: Option<D>, errors: seq<string>)

  datatype Paginated<D> = Paginated(
    success: bool,
    message: string,
    data: D,
    currentPage: int,
    pageSize: int,
    totalPages: int,
    totalProducts: int,
    errors: seq<string>)

  function SuccessBase<D>(message: string, value: D): (r: Base<D>)
    ensures r.success && r.message == message && r.data == Some(value) && r.errors == []
  {
    Base(true, message, Some(value), [])
  }

  function ErrorBase<D>(message: string, errs: seq<string>): (r: Base<D>)
    ensures !r.success && r.message == message && r.data.None? && r.errors == errs
  {
    Base(false, message, None, errs)
  }

  /** The ceiling of a / b for a positive b. */
  function CeilDiv(a: int, b: int): int
    requires b > 0
  {
    -((-a) / b)
  }

  lemma CeilDivBounds(a: int, b: int)
    requires b > 0
    ensures (CeilDiv(a, b) - 1) * b < a <= CeilDiv(a, b) * b
  {
    var q := (-a) / b;
    var m := (-a) % b;
    assert -a == q * b + m && 0 <= m < b;
    assert CeilDiv(a, b) * b == -(q * b);
    assert (CeilDiv(a, b) - 1) * b == -(q * b) - b;
  }

  /** The page count of SuccessPaginated: the ceiling of total / size for a
      positive size, and 1 when the size is not positive or the ceiling is
      0. */
  function TotalPages(total: int, size: int): int {
    var pages := if size > 0 then CeilDiv(total, size) else 0;
    if pages == 0 then 1 else pages
  }

  /** For a positive size and a positive total, the page count is the
      number of pages of size items that just holds the total. */
  lemma TotalPagesCover(total: int, size: int)
    requires size > 0 && total > 0
    ensures var p := TotalPages(total, size);
      p >= 1 && (p - 1) * size < total <= p * size
  {
    CeilDivBounds(total, size);
  }

  /** No total that is not negative gives fewer than one page, and an empty
      total or a size that is not positive gives exactly one. */
  lemma TotalPagesAtLeastOne(total: int, size: int)
    requires total >= 0
    ensures TotalPages(total, size) >= 1
    ensures total == 0 || size <= 0 ==> TotalPages(total, size) == 1
  {
    if size > 0 && total > 0 {
      TotalPagesCover(total, size);
    }
  }

  /** The page count is the least positive count whose pages hold the
      total: fewer pages leave items over. */
  lemma TotalPagesLeast(total: int, size: int, p: int)
    requires size > 0 && total > 0
    requires 1 <= p < TotalPages(total, size)
    ensures p * size < total
  {
    TotalPagesCover(total, size);
    var t := TotalPages(total, size);
    assert p * size <= (t - 1) * size by {
      assert (t - 1) * size - p * size == (t - 1 - p) * size;
    }
  }

  function SuccessPaginated<D>(message: string, value: D, page: int, size: int, total: int): (r: Paginated<D>)
    ensures r.success && r.errors == []
    ensures r.message == message && r.data == value && r.currentPage == page && r.pageSize == size && r.totalProducts == total
    ensures r.totalPages == TotalPages(total, size)
  {
    Paginated(true, message, value, page, size, TotalPages(total, size), total, [])
  }

  function StatusCodeFromBool(success: bool): (r: int)
    ensures r == STATUS_OK <==> success
    ensures !success ==> r == STATUS_BAD_REQUEST
  {
    if success then STATUS_OK else STATUS_BAD_REQUEST
  }
}
