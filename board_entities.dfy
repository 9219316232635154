/** The rows of the board tables, `tbl_webboard` and `tbl_webreply`. */
module BoardEntities {
  import opened Wrappers

  /** A board row; text columns may be SQL NULL. */
  datatype WebBoard = WebBoard(bno: int, title: Option<string>, writer: Option<string>, content: Option<string>)

  /** A reply row; `boardBno` is the foreign key `board_bno` to the board it belongs to. */
  datatype WebReply = WebReply(rno: int, replyText: Option<string>, replyer: Option<string>, boardBno: int)
}
