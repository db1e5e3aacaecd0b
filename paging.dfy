/**
 * The Spring Data values the core builds and passes on: sort orders, page
 * requests and result pages. Only the checks `PageRequest.of` makes on its
 * arguments are modelled; total-page arithmetic belongs to the library.
 */
module Paging {
  import opened Wrappers

  const INT_MIN: int := -0x8000_0000
  const INT_MAX: int := 0x7FFF_FFFF

  datatype Direction = ASC | DESC

  /** `Sort.Order(direction, property)`. */
  datatype Order = Order(direction: Direction, property: string)

  /** A page request: zero-based page index, page size and sort orders (primary first). */
  datatype PageRequest = PageRequest(page: int, size: int, sort: seq<Order>)
  {
    /** `getOffset()`: the row offset of the page, computed in 64-bit arithmetic. */
    function Offset(): int
    {
      page * size
    }
  }

  /** The `IllegalArgumentException`s `PageRequest.of` throws. */
  datatype PagingError = PageIndexBelowZero | PageSizeBelowOne

  /** `PageRequest.of(page, size, sort)`: rejects a negative index, then a size below one. */
  function PageRequestOf(page: int, size: int, sort: seq<Order>): (r: Result<PageRequest, PagingError>)
    ensures r.Success? <==> page >= 0 && size >= 1
    ensures r.Success? ==> r.value == PageRequest(page, size, sort)
    ensures page < 0 ==> r == Failure(PageIndexBelowZero)
    ensures page >= 0 && size < 1 ==> r == Failure(PageSizeBelowOne)
  {
    if page < 0 then Failure(PageIndexBelowZero)
    else if size < 1 then Failure(PageSizeBelowOne)
    else Success(PageRequest(page, size, sort))
  }

  /** A page of query results as the repository returns it. */
  datatype Page<T> = Page(content: seq<T>, number: int, size: int, totalPages: int)

  /** Java's `(int)` cast of a `long`: keep the low 32 bits, two's complement. */
  function ToInt(x: int): (r: int)
    ensures INT_MIN <= r <= INT_MAX
    ensures (x - r) % 0x1_0000_0000 == 0
    ensures INT_MIN <= x <= INT_MAX ==> r == x
  {
    (x - INT_MIN) % 0x1_0000_0000 + INT_MIN
  }
}
