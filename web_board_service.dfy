/**
 * `WebBoardServiceImpl`: the board list (whole and paged), one board with its
 * reply count, and registering, modifying and deleting boards.
 */
module WebBoardService {
  import opened Wrappers
  import opened JavaInt
  import opened BoardEntities
  import opened BoardStore
  import opened BoardSearch
  import opened PageRequest
  import Lists

  /** `WebBoardDTO`; `replyList` and `replyCount` stay null unless the service sets them. */
  datatype WebBoardDto = WebBoardDto(
    bno: Option<int>, title: Option<string>, writer: Option<string>, content: Option<string>,
    replyList: Option<seq<WebReply>>, replyCount: Option<int>)

  /** What ModelMapper copies from an entity: the columns of the same name. */
  function ToDto(b: WebBoard): (d: WebBoardDto)
    ensures d.bno == Some(b.bno) && d.title == b.title && d.writer == b.writer && d.content == b.content
    ensures d.replyList.None? && d.replyCount.None?
  {
    WebBoardDto(Some(b.bno), b.title, b.writer, b.content, None, None)
  }

  /** The per-board step of `getList()`: the DTO carries the board's replies and their number. */
  function WithReplies(replies: seq<WebReply>, b: WebBoard): WebBoardDto {
    var list := FindByBoard(replies, b.bno);
    ToDto(b).(replyList := Some(list), replyCount := Some(|list|))
  }

  /** `getList()`: every board, each with its replies and reply count. */
  function GetList(boards: seq<WebBoard>, replies: seq<WebReply>): (r: seq<WebBoardDto>)
    ensures |r| == |boards|
    ensures forall i :: 0 <= i < |boards| ==>
      && r[i].bno == Some(boards[i].bno) && r[i].title == boards[i].title
      && r[i].writer == boards[i].writer && r[i].content == boards[i].content
      && r[i].replyCount == Some(CountReplies(replies, boards[i].bno))
      && r[i].replyList.Some?
      && |r[i].replyList.value| == CountReplies(replies, boards[i].bno)
      && (forall x :: x in r[i].replyList.value <==> x in replies && x.boardBno == boards[i].bno)
  {
    var r := Lists.Map(boards, (b: WebBoard) => WithReplies(replies, b));
    assert forall i :: 0 <= i < |boards| ==> r[i] == WithReplies(replies, boards[i]);
    forall i | 0 <= i < |boards|
      ensures r[i].replyCount == Some(CountReplies(replies, boards[i].bno))
      ensures |r[i].replyList.value| == CountReplies(replies, boards[i].bno)
      ensures forall x :: x in r[i].replyList.value <==> x in replies && x.boardBno == boards[i].bno
    {
      FindByBoardCounts(replies, boards[i].bno);
    }
    r
  }

  /** `selectById`: null for an absent board, otherwise its columns and its reply count. */
  function SelectById(boards: seq<WebBoard>, replies: seq<WebReply>, bno: int): (r: Option<WebBoardDto>)
    ensures r.None? <==> !HasBoard(boards, bno)
    ensures r.Some? ==>
      && r.value.bno == Some(bno)
      && r.value.replyCount == Some(CountReplies(replies, bno))
      && r.value.replyList.None?
      && exists i :: 0 <= i < |boards| && boards[i].bno == bno &&
           r.value.title == boards[i].title && r.value.writer == boards[i].writer && r.value.content == boards[i].content
  {
    match FindBoard(boards, bno)
    case None => None
    case Some(b) =>
      FindByBoardCounts(replies, bno);
      Some(ToDto(b).(replyCount := Some(|FindByBoard(replies, bno)|)))
  }

  /** One page of boards, as Spring Data's `Page` holds it. */
  datatype BoardPage = BoardPage(content: seq<WebBoardDto>, totalElements: nat, pageIndex: int, size: int)

  datatype ListError = Paging(paging: PagingError) | Search(search: SearchError)

  function MatchesCond(cond: Condition): WebBoard -> bool {
    (b: WebBoard) => Matches(cond, b)
  }

  /** How many of `total` rows a page of `size` rows starting at row `start` holds. */
  function PageLength(total: int, start: int, size: int): int {
    if start >= total then 0 else if total - start < size then total - start else size
  }

  /** The slice of `matches` that page `index` of `size` rows covers, cut short at the end. */
  function Window(matches: seq<WebBoard>, index: int, size: int): (w: seq<WebBoard>)
    requires index >= 0 && size >= 1
    ensures |w| == PageLength(|matches|, index * size, size)
    ensures forall i :: 0 <= i < |w| ==> 0 <= index * size + i < |matches| && w[i] == matches[index * size + i]
  {
    var lo := if index * size <= |matches| then index * size else |matches|;
    var hi := if lo + size <= |matches| then lo + size else |matches|;
    matches[lo..hi]
  }

  /** `getList(pageDTO)`: the pageable first, then the search condition, then one page of the matches in bno order. */
  function GetPage(boards: seq<WebBoard>, dto: PageRequestDto): (r: Result<BoardPage, ListError>)
    ensures r.Failure? <==>
      GetPageable(dto, SortSpec(true, "bno")).Failure? || MakePredicate(dto.searchType, dto.keyword).Failure?
    ensures GetPageable(dto, SortSpec(true, "bno")).Failure? ==> r.Failure? && r.error.Paging?
  {
    match GetPageable(dto, SortSpec(true, "bno"))
    case Failure(e) => Failure(Paging(e))
    case Success(pageable) =>
      match MakePredicate(dto.searchType, dto.keyword)
      case Failure(e) => Failure(Search(e))
      case Success(cond) =>
        var matching := Lists.Filter(boards, MatchesCond(cond));
        var window := Window(matching, pageable.pageIndex, pageable.size);
        Success(BoardPage(Lists.Map(window, ToDto), |matching|, pageable.pageIndex, pageable.size))
  }

  /** A window of an ascending list is an ascending run of its rows. */
  lemma WindowOfAscending(matches: seq<WebBoard>, index: int, size: int)
    requires BnoAscending(matches) && index >= 0 && size >= 1
    ensures var w := Window(matches, index, size);
      (forall i :: 0 <= i < |w| ==> w[i] in matches) && BnoAscending(w)
  {
    var w := Window(matches, index, size);
    forall i, j | 0 <= i < j < |w| ensures w[i].bno < w[j].bno {
      assert w[i] == matches[index * size + i] && w[j] == matches[index * size + j];
    }
  }

  /**
   * The rows of a window of the matches are stored boards that match, in
   * ascending bno order, and every match whose position falls in the page's
   * range is on the page.
   */
  lemma WindowSpec(boards: seq<WebBoard>, cond: Condition, index: int, size: int)
    requires BnoAscending(boards) && index >= 0 && size >= 1
    ensures var matching := Lists.Filter(boards, MatchesCond(cond));
      var w := Window(matching, index, size);
      && (forall i :: 0 <= i < |w| ==> w[i] in boards && MatchesCond(cond)(w[i]))
      && BnoAscending(w)
      && (forall k :: index * size <= k < index * size + size && k < |matching| ==> matching[k] in w)
  {
    var matching := Lists.Filter(boards, MatchesCond(cond));
    FilterBoardsAscending(boards, MatchesCond(cond));
    WindowOfAscending(matching, index, size);
    var w := Window(matching, index, size);
    forall k | index * size <= k < index * size + size && k < |matching| ensures matching[k] in w {
      assert w[k - index * size] == matching[k];
    }
  }

  /**
   * `content` is the page of `matching` that starts at row `start`: the DTOs
   * of the rows from there on, as many as a page of `size` rows holds.
   */
  predicate IsPageOf(content: seq<WebBoardDto>, matching: seq<WebBoard>, start: int, size: int) {
    && |content| == PageLength(|matching|, start, size)
    && forall i :: 0 <= i < |content| ==> 0 <= start + i < |matching| && content[i] == ToDto(matching[start + i])
  }

  /** The DTOs of a window are those of the matches from row `index * size` on, as many as the page holds. */
  lemma WindowDtosExact(matching: seq<WebBoard>, index: int, size: int, start: int)
    requires index >= 0 && size >= 1 && start == index * size
    ensures var c := Lists.Map(Window(matching, index, size), ToDto);
      IsPageOf(c, matching, start, size) && |c| <= size
  {
  }

  /** For a valid request, the page is the window of the matches at index page - 1. */
  lemma GetPageUnfolds(boards: seq<WebBoard>, dto: PageRequestDto)
    requires dto.page >= 1 && dto.size >= 1
    requires MakePredicate(dto.searchType, dto.keyword).Success?
    ensures var cond := MakePredicate(dto.searchType, dto.keyword).value;
      var matching := Lists.Filter(boards, MatchesCond(cond));
      GetPage(boards, dto) == Success(BoardPage(Lists.Map(Window(matching, dto.page - 1, dto.size), ToDto),
                                                |matching|, dto.page - 1, dto.size))
  {
    PageableFromOneBased(dto, SortSpec(true, "bno"));
  }

  /**
   * Page `page` holds the DTOs of the matches at positions `(page - 1) * size`
   * up to `page * size - 1`, cut short at the last match; the matches are
   * exactly the stored boards that meet the search, in ascending bno order,
   * and the total counts all of them.
   */
  lemma GetPageSpec(boards: seq<WebBoard>, dto: PageRequestDto)
    requires BnoAscending(boards)
    requires dto.page >= 1 && dto.size >= 1
    requires MakePredicate(dto.searchType, dto.keyword).Success?
    ensures GetPage(boards, dto).Success?
    ensures var p, cond := GetPage(boards, dto).value, MakePredicate(dto.searchType, dto.keyword).value;
      var matching, start := Lists.Filter(boards, MatchesCond(cond)), (dto.page - 1) * dto.size;
      && p.pageIndex == dto.page - 1 && p.size == dto.size
      && p.totalElements == |matching|
      && IsPageOf(p.content, matching, start, dto.size) && |p.content| <= dto.size
      && BnoAscending(matching)
      && (forall b :: b in matching <==> b in boards && Matches(cond, b))
  {
    var cond := MakePredicate(dto.searchType, dto.keyword).value;
    var matching := Lists.Filter(boards, MatchesCond(cond));
    GetPageUnfolds(boards, dto);
    var p, start := GetPage(boards, dto).value, (dto.page - 1) * dto.size;
    var c := Lists.Map(Window(matching, dto.page - 1, dto.size), ToDto);
    assert p.content == c;
    WindowDtosExact(matching, dto.page - 1, dto.size, start);
    MatchingSpec(boards, cond);
  }

  /** The matches of a search are exactly the stored boards that meet it, in ascending bno order. */
  lemma MatchingSpec(boards: seq<WebBoard>, cond: Condition)
    requires BnoAscending(boards)
    ensures var matching := Lists.Filter(boards, MatchesCond(cond));
      BnoAscending(matching) && forall b :: b in matching <==> b in boards && Matches(cond, b)
  {
    var matching := Lists.Filter(boards, MatchesCond(cond));
    FilterBoardsAscending(boards, MatchesCond(cond));
    forall b ensures b in matching <==> b in boards && Matches(cond, b) {
      assert MatchesCond(cond)(b) == Matches(cond, b);
    }
  }

  /** A page request without type or keyword pages through every board. */
  lemma UnfilteredPageCountsAll(boards: seq<WebBoard>, page: Int32, size: Int32)
    requires page >= 1 && size >= 1
    ensures GetPage(boards, NewPageRequest(page, size)).Success?
    ensures GetPage(boards, NewPageRequest(page, size)).value.totalElements == |boards|
  {
    PageableFromOneBased(NewPageRequest(page, size), SortSpec(true, "bno"));
    forall i | 0 <= i < |boards| ensures MatchesCond([])(boards[i]) {
    }
    Lists.FilterKeepsAll(boards, MatchesCond([]));
  }

  /** `register` / `f_save`: the DTO's columns are saved as they are (a null writer included) and the row's id is returned. */
  method Register(db: Store, dto: WebBoardDto) returns (r: int)
    requires db.Valid()
    modifies db
    ensures db.Valid() && db.replies == old(db.replies) && db.nextRno == old(db.nextRno)
    ensures dto.bno.Some? && HasBoard(old(db.boards), dto.bno.value) ==>
      && r == Wrap(dto.bno.value)
      && db.boards == ReplaceBoard(old(db.boards), WebBoard(dto.bno.value, dto.title, dto.writer, dto.content))
      && db.nextBno == old(db.nextBno)
    ensures !(dto.bno.Some? && HasBoard(old(db.boards), dto.bno.value)) ==>
      && r == Wrap(old(db.nextBno))
      && db.boards == old(db.boards) + [WebBoard(old(db.nextBno), dto.title, dto.writer, dto.content)]
      && db.nextBno == old(db.nextBno) + 1
  {
    var saved := db.SaveBoard(BoardInput(dto.bno, dto.title, dto.writer, dto.content));
    r := Wrap(saved.bno);
  }

  /** A board registered under a new id reads back with the DTO's columns and its reply count. */
  lemma RegisteredBoardReadsBack(boards: seq<WebBoard>, replies: seq<WebReply>, row: WebBoard)
    requires BnoAscending(boards + [row])
    ensures SelectById(boards + [row], replies, row.bno) ==
      Some(WebBoardDto(Some(row.bno), row.title, row.writer, row.content, None, Some(CountReplies(replies, row.bno))))
  {
    FindBoardUnique(boards + [row], row);
  }

  /** After `modify`, the board reads back with the new title and content and its old writer. */
  lemma ModifiedBoardReadsBack(boards: seq<WebBoard>, replies: seq<WebReply>, bno: int,
                               title: Option<string>, content: Option<string>)
    requires BnoAscending(boards) && HasBoard(boards, bno)
    ensures var stored := FindBoard(boards, bno).value;
      SelectById(ReplaceBoard(boards, stored.(title := title, content := content)), replies, bno) ==
        Some(WebBoardDto(Some(bno), title, stored.writer, content, None, Some(CountReplies(replies, bno))))
  {
    var row := FindBoard(boards, bno).value.(title := title, content := content);
    ReplaceBoardSpec(boards, row);
    FindBoardUnique(ReplaceBoard(boards, row), row);
  }

  /** `findById(null)` is refused by Spring Data with an exception. */
  datatype ServiceError = NullId

  /**
   * `modify`: an absent board gives 0 and changes nothing; a stored one gets
   * the DTO's title and content, keeps its writer, and its id is returned.
   */
  method Modify(db: Store, dto: WebBoardDto) returns (r: Result<int, ServiceError>)
    requires db.Valid()
    modifies db
    ensures db.Valid() && db.replies == old(db.replies)
    ensures db.nextBno == old(db.nextBno) && db.nextRno == old(db.nextRno)
    ensures r.Failure? <==> dto.bno.None?
    ensures dto.bno.None? || !HasBoard(old(db.boards), dto.bno.value) ==> db.boards == old(db.boards)
    ensures dto.bno.Some? && !HasBoard(old(db.boards), dto.bno.value) ==> r == Success(0)
    ensures dto.bno.Some? && HasBoard(old(db.boards), dto.bno.value) ==>
      var stored := FindBoard(old(db.boards), dto.bno.value).value;
      && r == Success(Wrap(dto.bno.value))
      && db.boards == ReplaceBoard(old(db.boards), stored.(title := dto.title, content := dto.content))
  {
    if dto.bno.None? {
      return Failure(NullId);
    }
    var found := FindBoard(db.boards, dto.bno.value);
    if found.None? {
      return Success(0);
    }
    var entity := found.value.(content := dto.content, title := dto.title);
    var saved := db.SaveBoard(BoardInput(Some(entity.bno), entity.title, entity.writer, entity.content));
    r := Success(Wrap(saved.bno));
  }

  /**
   * `delete`: the board and its replies are gone afterwards, and the result is
   * 1 if the board could still be found, 0 if not, which is always 0.
   */
  method Delete(db: Store, bno: int) returns (r: int)
    requires db.Valid()
    modifies db
    ensures db.Valid() && db.nextBno == old(db.nextBno) && db.nextRno == old(db.nextRno)
    ensures db.boards == Lists.Filter(old(db.boards), OtherBoards(bno))
    ensures db.replies == Lists.Filter(old(db.replies), RepliesNotOf(bno))
    ensures !HasBoard(db.boards, bno)
    ensures r == (if HasBoard(db.boards, bno) then 1 else 0)
    ensures r == 0
  {
    db.DeleteBoardById(bno);
    var found := FindBoard(db.boards, bno);
    r := if found.None? then 0 else 1;
  }
}
