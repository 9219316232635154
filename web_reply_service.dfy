/**
 * `WebReplyServiceImpl`: the replies of one board, one reply, and
 * registering, modifying and deleting replies through one common save.
 */
module WebReplyService {
  import opened Wrappers
  import opened JavaInt
  import opened BoardEntities
  import opened BoardStore
  import Lists

  /** `WebReplyDTO`: the board is carried by its number only. */
  datatype WebReplyDto = WebReplyDto(rno: Option<int>, replyText: Option<string>, replyer: Option<string>, bno: Option<int>)

  /** ModelMapper's copy of a reply entity, with `bno` set from its board. */
  function ToDto(r: WebReply): (d: WebReplyDto)
    ensures d.rno == Some(r.rno) && d.replyText == r.replyText && d.replyer == r.replyer && d.bno == Some(r.boardBno)
  {
    WebReplyDto(Some(r.rno), r.replyText, r.replyer, Some(r.boardBno))
  }

  /** `getList(bno)`: one DTO per reply of the board, each carrying that board's number. */
  function GetList(replies: seq<WebReply>, bno: int): (r: seq<WebReplyDto>)
    ensures |r| == CountReplies(replies, bno)
    ensures forall i :: 0 <= i < |r| ==> r[i].bno == Some(bno)
    ensures forall d :: d in r <==> exists x :: x in replies && x.boardBno == bno && d == ToDto(x)
  {
    var list := FindByBoard(replies, bno);
    FindByBoardCounts(replies, bno);
    var r := Lists.Map(list, ToDto);
    assert forall x :: x in list ==> ToDto(x) in r by {
      forall x | x in list ensures ToDto(x) in r {
        var i :| 0 <= i < |list| && list[i] == x;
        assert r[i] == ToDto(x);
      }
    }
    r
  }

  /** `selectById(rno)`: null for an absent reply, otherwise its columns and its board's number. */
  function SelectById(replies: seq<WebReply>, rno: int): (r: Option<WebReplyDto>)
    ensures r.None? <==> !HasReply(replies, rno)
    ensures r.Some? ==>
      && r.value.rno == Some(rno)
      && exists x :: x in replies && x.rno == rno && r.value == ToDto(x)
  {
    match FindReply(replies, rno)
    case None => None
    case Some(x) => Some(ToDto(x))
  }

  /** A reply saved under a new id reads back by its id and is listed under its board. */
  lemma RegisteredReplyReadsBack(replies: seq<WebReply>, row: WebReply)
    requires RnoAscending(replies + [row])
    ensures SelectById(replies + [row], row.rno) == Some(ToDto(row))
    ensures ToDto(row) in GetList(replies + [row], row.boardBno)
  {
    FindReplyUnique(replies + [row], row);
    assert row in replies + [row];
  }

  /** A reply overwritten in place reads back as the new row and is listed under the new row's board. */
  lemma ModifiedReplyReadsBack(replies: seq<WebReply>, row: WebReply)
    requires RnoAscending(replies) && HasReply(replies, row.rno)
    ensures SelectById(ReplaceReply(replies, row), row.rno) == Some(ToDto(row))
    ensures ToDto(row) in GetList(ReplaceReply(replies, row), row.boardBno)
  {
    ReplaceReplySpec(replies, row);
    FindReplyUnique(ReplaceReply(replies, row), row);
  }

  /**
   * `f_save`, shared by `register` and `modify`: the DTO's columns are saved
   * against the board it names; a board that is null or not stored fails on
   * the foreign key. Otherwise the saved row's id is returned.
   */
  method FSave(db: Store, dto: WebReplyDto) returns (r: Result<int, StoreError>)
    requires db.Valid()
    modifies db
    ensures db.Valid() && db.boards == old(db.boards) && db.nextBno == old(db.nextBno)
    ensures r.Failure? <==> dto.bno.None? || !HasBoard(old(db.boards), dto.bno.value)
    ensures r.Failure? ==> db.replies == old(db.replies) && db.nextRno == old(db.nextRno)
    ensures r.Success? && dto.rno.Some? && HasReply(old(db.replies), dto.rno.value) ==>
      && r == Success(Wrap(dto.rno.value))
      && db.replies == ReplaceReply(old(db.replies), WebReply(dto.rno.value, dto.replyText, dto.replyer, dto.bno.value))
      && db.nextRno == old(db.nextRno)
    ensures r.Success? && !(dto.rno.Some? && HasReply(old(db.replies), dto.rno.value)) ==>
      && r == Success(Wrap(old(db.nextRno)))
      && db.replies == old(db.replies) + [WebReply(old(db.nextRno), dto.replyText, dto.replyer, dto.bno.value)]
      && db.nextRno == old(db.nextRno) + 1
  {
    var saved := db.SaveReply(ReplyInput(dto.rno, dto.replyText, dto.replyer, dto.bno));
    match saved
    case Failure(e) => r := Failure(e);
    case Success(row) => r := Success(Wrap(row.rno));
  }

  /**
   * `register`: the common save, so a DTO without rno is inserted under the
   * next rno, and one whose rno is stored overwrites that reply.
   */
  method Register(db: Store, dto: WebReplyDto) returns (r: Result<int, StoreError>)
    requires db.Valid()
    modifies db
    ensures db.Valid() && db.boards == old(db.boards) && db.nextBno == old(db.nextBno)
    ensures r.Failure? <==> dto.bno.None? || !HasBoard(old(db.boards), dto.bno.value)
    ensures r.Failure? ==> db.replies == old(db.replies) && db.nextRno == old(db.nextRno)
    ensures r.Success? && dto.rno.Some? && HasReply(old(db.replies), dto.rno.value) ==>
      && r == Success(Wrap(dto.rno.value))
      && db.replies == ReplaceReply(old(db.replies), WebReply(dto.rno.value, dto.replyText, dto.replyer, dto.bno.value))
      && db.nextRno == old(db.nextRno)
    ensures r.Success? && !(dto.rno.Some? && HasReply(old(db.replies), dto.rno.value)) ==>
      && r == Success(Wrap(old(db.nextRno)))
      && db.replies == old(db.replies) + [WebReply(old(db.nextRno), dto.replyText, dto.replyer, dto.bno.value)]
      && db.nextRno == old(db.nextRno) + 1
  {
    r := FSave(db, dto);
  }

  /**
   * `modify`: the common save, so a stored reply is overwritten in full
   * (a field the DTO leaves null becomes null) and keeps its id, and a null
   * or unknown rno inserts a new reply under the next rno.
   */
  method Modify(db: Store, dto: WebReplyDto) returns (r: Result<int, StoreError>)
    requires db.Valid()
    modifies db
    ensures db.Valid() && db.boards == old(db.boards) && db.nextBno == old(db.nextBno)
    ensures r.Failure? <==> dto.bno.None? || !HasBoard(old(db.boards), dto.bno.value)
    ensures r.Failure? ==> db.replies == old(db.replies) && db.nextRno == old(db.nextRno)
    ensures r.Success? && dto.rno.Some? && HasReply(old(db.replies), dto.rno.value) ==>
      && r == Success(Wrap(dto.rno.value))
      && db.replies == ReplaceReply(old(db.replies), WebReply(dto.rno.value, dto.replyText, dto.replyer, dto.bno.value))
      && db.nextRno == old(db.nextRno)
    ensures r.Success? && !(dto.rno.Some? && HasReply(old(db.replies), dto.rno.value)) ==>
      && r == Success(Wrap(old(db.nextRno)))
      && db.replies == old(db.replies) + [WebReply(old(db.nextRno), dto.replyText, dto.replyer, dto.bno.value)]
      && db.nextRno == old(db.nextRno) + 1
  {
    r := FSave(db, dto);
  }

  /** `delete`: the reply is gone afterwards, so the result is always 0. */
  method Delete(db: Store, rno: int) returns (r: int)
    requires db.Valid()
    modifies db
    ensures db.Valid() && db.boards == old(db.boards) && db.nextBno == old(db.nextBno) && db.nextRno == old(db.nextRno)
    ensures db.replies == Lists.Filter(old(db.replies), OtherReplies(rno))
    ensures !HasReply(db.replies, rno)
    ensures r == (if HasReply(db.replies, rno) then 1 else 0)
    ensures r == 0
  {
    db.DeleteReplyById(rno);
    var found := FindReply(db.replies, rno);
    r := if found.None? then 0 else 1;
  }
}
