/**
 * `WebBoardRepository.makePredicate`: the dynamic search condition. Each of the
 * letters t, c and w in the search type adds one alternative, joined by OR,
 * to an initially empty condition; an empty condition selects every board.
 */
module BoardSearch {
  import opened Wrappers
  import opened BoardEntities

  /** One alternative of the OR chain. */
  datatype Disjunct = TitleContains(keyword: string) | ContentContains(keyword: string) | WriterEquals(keyword: string)

  /** The alternatives added to the `BooleanBuilder`, in the order they were added. */
  type Condition = seq<Disjunct>

  /** QueryDSL evaluates a null keyword constant by raising an exception. */
  datatype SearchError = NullKeyword

  predicate OccursAt(s: string, k: string, i: int) {
    0 <= i <= |s| - |k| && s[i..i + |k|] == k
  }

  /** SQL `LIKE '%k%'`: `k` occurs somewhere in `s`. */
  predicate Contains(s: string, k: string) {
    exists i | 0 <= i <= |s| - |k| :: OccursAt(s, k, i)
  }

  /** A NULL column satisfies neither LIKE nor `=`. */
  predicate Holds(d: Disjunct, b: WebBoard) {
    match d
    case TitleContains(k) => b.title.Some? && Contains(b.title.value, k)
    case ContentContains(k) => b.content.Some? && Contains(b.content.value, k)
    case WriterEquals(k) => b.writer == Some(k)
  }

  /** An empty builder adds no WHERE clause; otherwise one alternative must hold. */
  predicate Matches(cond: Condition, b: WebBoard) {
    |cond| == 0 || exists i :: 0 <= i < |cond| && Holds(cond[i], b)
  }

  predicate HasSearchLetter(t: string) {
    't' in t || 'c' in t || 'w' in t
  }

  function MakePredicate(searchType: Option<string>, keyword: Option<string>): (r: Result<Condition, SearchError>)
    ensures r.Failure? <==> searchType.Some? && HasSearchLetter(searchType.value) && keyword.None?
    ensures r.Success? && (searchType.None? || !HasSearchLetter(searchType.value)) ==> r.value == []
  {
    if searchType.None? then Success([])
    else
      var t := searchType.value;
      if !HasSearchLetter(t) then Success([])
      else if keyword.None? then Failure(NullKeyword)
      else
        var k := keyword.value;
        var c1: Condition := if 't' in t then [TitleContains(k)] else [];
        var c2 := if 'c' in t then c1 + [ContentContains(k)] else c1;
        var c3 := if 'w' in t then c2 + [WriterEquals(k)] else c2;
        Success(c3)
  }

  /** A null search type, or one without t, c or w, selects every board. */
  lemma NoLetterMatchesAll(searchType: Option<string>, keyword: Option<string>, b: WebBoard)
    requires searchType.None? || !HasSearchLetter(searchType.value)
    ensures MakePredicate(searchType, keyword).Success?
    ensures Matches(MakePredicate(searchType, keyword).value, b)
  {
  }

  /**
   * With a search letter, a board is selected exactly when one of the chosen
   * alternatives holds: t for the title, c for the content (both substring
   * matches) and w for the writer (exact equality).
   */
  lemma MatchesIff(t: string, k: string, b: WebBoard)
    requires HasSearchLetter(t)
    ensures MakePredicate(Some(t), Some(k)).Success?
    ensures Matches(MakePredicate(Some(t), Some(k)).value, b) <==>
      || ('t' in t && b.title.Some? && Contains(b.title.value, k))
      || ('c' in t && b.content.Some? && Contains(b.content.value, k))
      || ('w' in t && b.writer == Some(k))
  {
    var cond := MakePredicate(Some(t), Some(k)).value;
    if 't' in t && b.title.Some? && Contains(b.title.value, k) {
      assert cond[0] == TitleContains(k);
    }
    if 'c' in t && b.content.Some? && Contains(b.content.value, k) {
      var j := if 't' in t then 1 else 0;
      assert cond[j] == ContentContains(k) && Holds(cond[j], b);
    }
    if 'w' in t && b.writer == Some(k) {
      assert Holds(cond[|cond| - 1], b);
    }
  }

  /** Only which of t, c and w occur matters, not their order or repetition. */
  lemma OnlyLettersMatter(t1: string, t2: string, keyword: Option<string>)
    requires ('t' in t1 <==> 't' in t2) && ('c' in t1 <==> 'c' in t2) && ('w' in t1 <==> 'w' in t2)
    ensures MakePredicate(Some(t1), keyword) == MakePredicate(Some(t2), keyword)
  {
  }
}
