/**
 * `PageRequestDTO`: the page the user asked for (1-based), its size and the
 * search fields, and its conversion to Spring Data's 0-based page request.
 */
module PageRequest {
  import opened Wrappers
  import opened JavaInt

  /** `Sort.by(direction, property)`. */
  datatype SortSpec = SortSpec(ascending: bool, property: string)

  datatype PageRequestDto = PageRequestDto(page: Int32, size: Int32, searchType: Option<string>, keyword: Option<string>)

  /** `PageRequest.of(index, size, sort)` once its arguments have been accepted. */
  datatype Pageable = Pageable(pageIndex: int, size: int, sort: SortSpec)

  /** The two arguments `PageRequest.of` refuses with an `IllegalArgumentException`. */
  datatype PagingError = NegativePageIndex | SizeBelowOne

  /** The two-argument constructor: page and size set, type and keyword left null. */
  function NewPageRequest(page: Int32, size: Int32): (d: PageRequestDto)
    ensures d.page == page && d.size == size && d.searchType.None? && d.keyword.None?
  {
    PageRequestDto(page, size, None, None)
  }

  /**
   * `getPageable(sort)`: `PageRequest.of(page - 1, size, sort)`. The index is
   * computed in `int` arithmetic; `PageRequest.of` checks the index before the size.
   */
  function GetPageable(dto: PageRequestDto, sort: SortSpec): (r: Result<Pageable, PagingError>)
    ensures r.Success? ==> r.value.pageIndex >= 0 && r.value.size >= 1
    ensures r.Success? ==> r.value.pageIndex == Wrap(dto.page - 1) && r.value.size == dto.size && r.value.sort == sort
    ensures Wrap(dto.page - 1) < 0 <==> r == Failure(NegativePageIndex)
    ensures r == Failure(SizeBelowOne) <==> Wrap(dto.page - 1) >= 0 && dto.size < 1
  {
    var index := Wrap(dto.page - 1);
    if index < 0 then Failure(NegativePageIndex)
    else if dto.size < 1 then Failure(SizeBelowOne)
    else Success(Pageable(index, dto.size, sort))
  }

  /** For every page from 1 up, the 0-based index is one less, and size and sort pass through. */
  lemma PageableFromOneBased(dto: PageRequestDto, sort: SortSpec)
    requires dto.page >= 1 && dto.size >= 1
    ensures GetPageable(dto, sort) == Success(Pageable(dto.page - 1, dto.size, sort))
  {
    WrapInRange(dto.page - 1);
  }

  /** Page 0 and the negative pages are refused, except the most negative `int`, whose `page - 1` wraps around. */
  lemma PageableRefusesNonPositive(dto: PageRequestDto, sort: SortSpec)
    requires dto.page <= 0
    ensures dto.page > MinInt ==> GetPageable(dto, sort) == Failure(NegativePageIndex)
    ensures dto.page == MinInt && dto.size >= 1 ==> GetPageable(dto, sort) == Success(Pageable(MaxInt, dto.size, sort))
  {
    if dto.page > MinInt {
      WrapInRange(dto.page - 1);
    }
  }

  /** The list endpoint's default: a request for page 0 becomes page 1 of size 10. */
  function CoerceListRequest(dto: PageRequestDto): (d: PageRequestDto)
    ensures dto.page == 0 ==> d == dto.(page := 1, size := 10)
    ensures dto.page != 0 ==> d == dto
  {
    if dto.page == 0 then dto.(page := 1, size := 10) else dto
  }

  /** After the default is applied, a request that named no page yields the first page of ten. */
  lemma CoercedDefaultIsFirstPage(dto: PageRequestDto, sort: SortSpec)
    requires dto.page == 0
    ensures GetPageable(CoerceListRequest(dto), sort) == Success(Pageable(0, 10, sort))
  {
    WrapInRange(0);
  }
}
