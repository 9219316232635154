/**
 * The board and reply tables behind `WebBoardRepository` and
 * `WebReplyRepository`, as one in-memory store, with the repository calls
 * the services make: `findById`, `save` and `deleteById`.
 *
 * Rows are kept in ascending id order, the order identity columns hand ids
 * out in; new ids come from one counter per table.
 */
module BoardStore {
  import opened Wrappers
  import opened BoardEntities
  import Lists

  predicate BnoAscending(boards: seq<WebBoard>) {
    forall i, j :: 0 <= i < j < |boards| ==> boards[i].bno < boards[j].bno
  }

  predicate RnoAscending(replies: seq<WebReply>) {
    forall i, j :: 0 <= i < j < |replies| ==> replies[i].rno < replies[j].rno
  }

  predicate HasBoard(boards: seq<WebBoard>, bno: int) {
    exists i :: 0 <= i < |boards| && boards[i].bno == bno
  }

  predicate HasReply(replies: seq<WebReply>, rno: int) {
    exists i :: 0 <= i < |replies| && replies[i].rno == rno
  }

  /** `findById` on the board table. */
  function FindBoard(boards: seq<WebBoard>, bno: int): (r: Option<WebBoard>)
    ensures r.Some? <==> HasBoard(boards, bno)
    ensures r.Some? ==> r.value in boards && r.value.bno == bno
  {
    if boards == [] then None
    else if boards[0].bno == bno then Some(boards[0])
    else
      var r := FindBoard(boards[1..], bno);
      assert HasBoard(boards, bno) ==> boards[0].bno == bno || HasBoard(boards[1..], bno) by {
        if HasBoard(boards, bno) {
          var i :| 0 <= i < |boards| && boards[i].bno == bno;
          if i > 0 { assert boards[1..][i - 1].bno == bno; }
        }
      }
      r
  }

  /** `findById` on the reply table. */
  function FindReply(replies: seq<WebReply>, rno: int): (r: Option<WebReply>)
    ensures r.Some? <==> HasReply(replies, rno)
    ensures r.Some? ==> r.value in replies && r.value.rno == rno
  {
    if replies == [] then None
    else if replies[0].rno == rno then Some(replies[0])
    else
      var r := FindReply(replies[1..], rno);
      assert HasReply(replies, rno) ==> replies[0].rno == rno || HasReply(replies[1..], rno) by {
        if HasReply(replies, rno) {
          var i :| 0 <= i < |replies| && replies[i].rno == rno;
          if i > 0 { assert replies[1..][i - 1].rno == rno; }
        }
      }
      r
  }

  /** Ids are unique in an ascending table, so `findById` finds the one row with that id. */
  lemma FindBoardUnique(boards: seq<WebBoard>, b: WebBoard)
    requires BnoAscending(boards) && b in boards
    ensures FindBoard(boards, b.bno) == Some(b)
  {
    var j :| 0 <= j < |boards| && boards[j] == b;
    var r := FindBoard(boards, b.bno).value;
    var i :| 0 <= i < |boards| && boards[i] == r;
    assert !(i < j) && !(j < i);
  }

  lemma FindReplyUnique(replies: seq<WebReply>, x: WebReply)
    requires RnoAscending(replies) && x in replies
    ensures FindReply(replies, x.rno) == Some(x)
  {
    var j :| 0 <= j < |replies| && replies[j] == x;
    var r := FindReply(replies, x.rno).value;
    var i :| 0 <= i < |replies| && replies[i] == r;
    assert !(i < j) && !(j < i);
  }

  /** Overwriting a stored row keeps every id in place and puts the new row in the table. */
  lemma ReplaceBoardSpec(boards: seq<WebBoard>, row: WebBoard)
    requires BnoAscending(boards) && HasBoard(boards, row.bno)
    ensures var after := ReplaceBoard(boards, row);
      && |after| == |boards|
      && (forall i :: 0 <= i < |boards| ==> after[i].bno == boards[i].bno)
      && BnoAscending(after) && row in after
  {
    var after := ReplaceBoard(boards, row);
    var i :| 0 <= i < |boards| && boards[i].bno == row.bno;
    assert after[i] == row;
  }

  lemma ReplaceReplySpec(replies: seq<WebReply>, row: WebReply)
    requires RnoAscending(replies) && HasReply(replies, row.rno)
    ensures var after := ReplaceReply(replies, row);
      && |after| == |replies|
      && (forall i :: 0 <= i < |replies| ==> after[i].rno == replies[i].rno)
      && RnoAscending(after) && row in after
  {
    var after := ReplaceReply(replies, row);
    var i :| 0 <= i < |replies| && replies[i].rno == row.rno;
    assert after[i] == row;
  }

  /** The stored row with the id of `row` is replaced by `row`; the others stay. */
  function ReplaceBoard(boards: seq<WebBoard>, row: WebBoard): seq<WebBoard> {
    Lists.Map(boards, (b: WebBoard) => if b.bno == row.bno then row else b)
  }

  function ReplaceReply(replies: seq<WebReply>, row: WebReply): seq<WebReply> {
    Lists.Map(replies, (r: WebReply) => if r.rno == row.rno then row else r)
  }

  function OtherBoards(bno: int): WebBoard -> bool {
    (b: WebBoard) => b.bno != bno
  }

  function OtherReplies(rno: int): WebReply -> bool {
    (r: WebReply) => r.rno != rno
  }

  /** The replies that do not belong to board `bno`. */
  function RepliesNotOf(bno: int): WebReply -> bool {
    (r: WebReply) => r.boardBno != bno
  }

  function BelongsTo(bno: int): WebReply -> bool {
    (r: WebReply) => r.boardBno == bno
  }

  /** `replyRepo.findByBoard(board)`: the replies of board `bno`, in id order. */
  function FindByBoard(replies: seq<WebReply>, bno: int): seq<WebReply> {
    Lists.Filter(replies, BelongsTo(bno))
  }

  /** The number of replies whose board is `bno`, counted one row at a time. */
  function CountReplies(replies: seq<WebReply>, bno: int): nat {
    if replies == [] then 0
    else (if replies[0].boardBno == bno then 1 else 0) + CountReplies(replies[1..], bno)
  }

  lemma {:induction false} CountRepliesAppend(a: seq<WebReply>, b: seq<WebReply>, bno: int)
    ensures CountReplies(a + b, bno) == CountReplies(a, bno) + CountReplies(b, bno)
    decreases |a|
  {
    if a != [] {
      assert (a + b)[1..] == a[1..] + b;
      CountRepliesAppend(a[1..], b, bno);
    } else {
      assert a + b == b;
    }
  }

  /** `findByBoard` returns exactly the replies of the board: as many as there are, each one of them. */
  lemma {:induction false} FindByBoardCounts(replies: seq<WebReply>, bno: int)
    ensures |FindByBoard(replies, bno)| == CountReplies(replies, bno)
    ensures forall r :: r in FindByBoard(replies, bno) <==> r in replies && r.boardBno == bno
    decreases |replies|
  {
    forall r ensures r in FindByBoard(replies, bno) <==> r in replies && r.boardBno == bno {
      Lists.FilterMembers(replies, BelongsTo(bno), r);
    }
    if replies != [] {
      var p := replies[..|replies| - 1];
      FindByBoardCounts(p, bno);
      CountRepliesAppend(p, [replies[|replies| - 1]], bno);
      assert p + [replies[|replies| - 1]] == replies;
    }
  }

  /** Rows the services hand to `save`: the id is null for a new row. */
  datatype BoardInput = BoardInput(bno: Option<int>, title: Option<string>, writer: Option<string>, content: Option<string>)
  datatype ReplyInput = ReplyInput(rno: Option<int>, replyText: Option<string>, replyer: Option<string>, boardBno: Option<int>)

  /** Why a reply cannot be stored: its board reference is null or names no stored board. */
  datatype StoreError = MissingBoard

  /** A filter keeps an ascending table ascending and every row it keeps was in the table. */
  lemma FilterBoardsAscending(boards: seq<WebBoard>, keep: WebBoard -> bool)
    requires BnoAscending(boards)
    ensures BnoAscending(Lists.Filter(boards, keep))
    ensures forall x :: x in Lists.Filter(boards, keep) <==> x in boards && keep(x)
  {
    Lists.FilterByIndices(boards, keep);
    forall x ensures x in Lists.Filter(boards, keep) <==> x in boards && keep(x) {
      Lists.FilterMembers(boards, keep, x);
    }
  }

  lemma FilterRepliesAscending(replies: seq<WebReply>, keep: WebReply -> bool)
    requires RnoAscending(replies)
    ensures RnoAscending(Lists.Filter(replies, keep))
    ensures forall x :: x in Lists.Filter(replies, keep) <==> x in replies && keep(x)
  {
    Lists.FilterByIndices(replies, keep);
    forall x ensures x in Lists.Filter(replies, keep) <==> x in replies && keep(x) {
      Lists.FilterMembers(replies, keep, x);
    }
  }

  /**
   * Ids are positive, unique, ascending and below the next id to hand out,
   * and every reply points at a stored board (the foreign key `board_bno`).
   */
  predicate StoreInvariant(boards: seq<WebBoard>, replies: seq<WebReply>, nextBno: int, nextRno: int) {
    && nextBno >= 1 && nextRno >= 1
    && BnoAscending(boards) && RnoAscending(replies)
    && (forall i :: 0 <= i < |boards| ==> 1 <= boards[i].bno < nextBno)
    && (forall i :: 0 <= i < |replies| ==> 1 <= replies[i].rno < nextRno)
    && (forall i :: 0 <= i < |replies| ==> HasBoard(boards, replies[i].boardBno))
  }

  lemma DeleteBoardKeepsInvariant(boards: seq<WebBoard>, replies: seq<WebReply>, nextBno: int, nextRno: int, bno: int)
    requires StoreInvariant(boards, replies, nextBno, nextRno)
    ensures var bs, rs := Lists.Filter(boards, OtherBoards(bno)), Lists.Filter(replies, RepliesNotOf(bno));
      StoreInvariant(bs, rs, nextBno, nextRno) && !HasBoard(bs, bno)
  {
    var bs, rs := Lists.Filter(boards, OtherBoards(bno)), Lists.Filter(replies, RepliesNotOf(bno));
    FilterBoardsAscending(boards, OtherBoards(bno));
    FilterRepliesAscending(replies, RepliesNotOf(bno));
    forall i | 0 <= i < |bs| ensures 1 <= bs[i].bno < nextBno && bs[i].bno != bno {
      assert bs[i] in boards;
    }
    forall i | 0 <= i < |rs| ensures 1 <= rs[i].rno < nextRno && HasBoard(bs, rs[i].boardBno) {
      var r := rs[i];
      assert r in replies && r.boardBno != bno;
      var k :| 0 <= k < |replies| && replies[k] == r;
      var j :| 0 <= j < |boards| && boards[j].bno == r.boardBno;
      assert boards[j] in bs;
    }
  }

  lemma DeleteReplyKeepsInvariant(boards: seq<WebBoard>, replies: seq<WebReply>, nextBno: int, nextRno: int, rno: int)
    requires StoreInvariant(boards, replies, nextBno, nextRno)
    ensures var rs := Lists.Filter(replies, OtherReplies(rno));
      StoreInvariant(boards, rs, nextBno, nextRno) && !HasReply(rs, rno)
  {
    var rs := Lists.Filter(replies, OtherReplies(rno));
    FilterRepliesAscending(replies, OtherReplies(rno));
    forall i | 0 <= i < |rs| ensures 1 <= rs[i].rno < nextRno && rs[i].rno != rno && HasBoard(boards, rs[i].boardBno) {
      assert rs[i] in replies;
    }
  }

  class Store {
    var boards: seq<WebBoard>
    var replies: seq<WebReply>
    var nextBno: int
    var nextRno: int

    ghost predicate Valid()
      reads this
    {
      StoreInvariant(boards, replies, nextBno, nextRno)
    }

    constructor ()
      ensures Valid() && boards == [] && replies == [] && nextBno == 1 && nextRno == 1
    {
      boards, replies := [], [];
      nextBno, nextRno := 1, 1;
    }

    /**
     * `boardRepo.save(entity)`: a row whose id is stored overwrites every
     * column of that row; any other row is inserted under the next id.
     */
    method SaveBoard(input: BoardInput) returns (saved: WebBoard)
      requires Valid()
      modifies this
      ensures Valid() && replies == old(replies) && nextRno == old(nextRno)
      ensures saved.title == input.title && saved.writer == input.writer && saved.content == input.content
      ensures input.bno.Some? && HasBoard(old(boards), input.bno.value) ==>
        && saved.bno == input.bno.value
        && boards == ReplaceBoard(old(boards), saved) && nextBno == old(nextBno)
      ensures !(input.bno.Some? && HasBoard(old(boards), input.bno.value)) ==>
        && saved.bno == old(nextBno)
        && boards == old(boards) + [saved] && nextBno == old(nextBno) + 1
    {
      if input.bno.Some? && FindBoard(boards, input.bno.value).Some? {
        saved := WebBoard(input.bno.value, input.title, input.writer, input.content);
        var old_boards := boards;
        boards := ReplaceBoard(boards, saved);
        assert forall i :: 0 <= i < |boards| ==> boards[i].bno == old_boards[i].bno;
        assert forall i :: 0 <= i < |boards| ==> 1 <= boards[i].bno < nextBno;
        forall i | 0 <= i < |replies| ensures HasBoard(boards, replies[i].boardBno) {
          var j :| 0 <= j < |old_boards| && old_boards[j].bno == replies[i].boardBno;
          assert boards[j].bno == replies[i].boardBno;
        }
      } else {
        saved := WebBoard(nextBno, input.title, input.writer, input.content);
        var old_boards := boards;
        boards := boards + [saved];
        nextBno := nextBno + 1;
        assert forall i :: 0 <= i < |old_boards| ==> boards[i] == old_boards[i];
        forall i | 0 <= i < |replies| ensures HasBoard(boards, replies[i].boardBno) {
          var j :| 0 <= j < |old_boards| && old_boards[j].bno == replies[i].boardBno;
          assert boards[j].bno == replies[i].boardBno;
        }
      }
    }

    /** `boardRepo.deleteById(bno)`: the row goes, and with it (cascade) its replies; an absent id is ignored. */
    method DeleteBoardById(bno: int)
      requires Valid()
      modifies this
      ensures Valid() && nextBno == old(nextBno) && nextRno == old(nextRno)
      ensures boards == Lists.Filter(old(boards), OtherBoards(bno))
      ensures replies == Lists.Filter(old(replies), RepliesNotOf(bno))
      ensures !HasBoard(boards, bno)
    {
      DeleteBoardKeepsInvariant(boards, replies, nextBno, nextRno, bno);
      boards := Lists.Filter(boards, OtherBoards(bno));
      replies := Lists.Filter(replies, RepliesNotOf(bno));
    }

    /**
     * `replyRepo.save(entity)` with the board reference set: a stored id
     * overwrites that row, any other is inserted under the next id; a reference
     * to no stored board is refused by the foreign key.
     */
    method SaveReply(input: ReplyInput) returns (saved: Result<WebReply, StoreError>)
      requires Valid()
      modifies this
      ensures Valid() && boards == old(boards) && nextBno == old(nextBno)
      ensures saved.Failure? <==> input.boardBno.None? || !HasBoard(old(boards), input.boardBno.value)
      ensures saved.Failure? ==> replies == old(replies) && nextRno == old(nextRno)
      ensures saved.Success? ==>
        && saved.value.replyText == input.replyText && saved.value.replyer == input.replyer
        && saved.value.boardBno == input.boardBno.value
      ensures saved.Success? && input.rno.Some? && HasReply(old(replies), input.rno.value) ==>
        && saved.value.rno == input.rno.value
        && replies == ReplaceReply(old(replies), saved.value) && nextRno == old(nextRno)
      ensures saved.Success? && !(input.rno.Some? && HasReply(old(replies), input.rno.value)) ==>
        && saved.value.rno == old(nextRno)
        && replies == old(replies) + [saved.value] && nextRno == old(nextRno) + 1
    {
      if input.boardBno.None? || FindBoard(boards, input.boardBno.value).None? {
        return Failure(MissingBoard);
      }
      var board := input.boardBno.value;
      if input.rno.Some? && FindReply(replies, input.rno.value).Some? {
        var row := WebReply(input.rno.value, input.replyText, input.replyer, board);
        var old_replies := replies;
        replies := ReplaceReply(replies, row);
        assert forall i :: 0 <= i < |replies| ==> replies[i].rno == old_replies[i].rno;
        saved := Success(row);
      } else {
        var row := WebReply(nextRno, input.replyText, input.replyer, board);
        var old_replies := replies;
        replies := replies + [row];
        nextRno := nextRno + 1;
        assert forall i :: 0 <= i < |old_replies| ==> replies[i] == old_replies[i];
        saved := Success(row);
      }
    }

    /** `replyRepo.deleteById(rno)`; an absent id is ignored. */
    method DeleteReplyById(rno: int)
      requires Valid()
      modifies this
      ensures Valid() && boards == old(boards) && nextBno == old(nextBno) && nextRno == old(nextRno)
      ensures replies == Lists.Filter(old(replies), OtherReplies(rno))
      ensures !HasReply(replies, rno)
    {
      DeleteReplyKeepsInvariant(boards, replies, nextBno, nextRno, rno);
      replies := Lists.Filter(replies, OtherReplies(rno));
    }
  }
}
