/**
 * Helpers of the emotion diary: the emotion image lookup, the `year-MM-DD`
 * date text, the list of emotions, and the diary list reducer.
 */
module DiaryUtil {
  import opened Wrappers
  import Decimal
  import Lists

  /** A JavaScript value used as a key: diary ids are numbers or strings ("mock1"). */
  datatype JsKey = Num(n: int) | Str(s: string)

  /** JavaScript's `String(key)`. */
  function JsString(k: JsKey): string {
    match k
    case Num(n) => Decimal.IntToText(n)
    case Str(s) => s
  }

  /** The five imported emotion pictures, emotion1.png to emotion5.png. */
  datatype EmotionImg = Emotion1 | Emotion2 | Emotion3 | Emotion4 | Emotion5

  /** The number in the picture's file name. */
  function ImgNumber(img: EmotionImg): int {
    match img
    case Emotion1 => 1
    case Emotion2 => 2
    case Emotion3 => 3
    case Emotion4 => 4
    case Emotion5 => 5
  }

  /** The `switch` on the id compares strictly, so only the numbers 1 to 5 find a picture. */
  function GetEmotionImgById(emotionId: JsKey): (r: Option<EmotionImg>)
    ensures r.Some? <==> emotionId.Num? && 1 <= emotionId.n <= 5
    ensures r.Some? ==> ImgNumber(r.value) == emotionId.n
  {
    match emotionId
    case Num(1) => Some(Emotion1)
    case Num(2) => Some(Emotion2)
    case Num(3) => Some(Emotion3)
    case Num(4) => Some(Emotion4)
    case Num(5) => Some(Emotion5)
    case _ => None
  }

  datatype Emotion = Emotion(id: int, name: string, img: Option<EmotionImg>)

  const EmotionList: seq<Emotion> := [
    Emotion(1, "완전좋음", GetEmotionImgById(Num(1))),
    Emotion(2, "좋음", GetEmotionImgById(Num(2))),
    Emotion(3, "그럭저럭", GetEmotionImgById(Num(3))),
    Emotion(4, "나쁨", GetEmotionImgById(Num(4))),
    Emotion(5, "끔찍함", GetEmotionImgById(Num(5)))
  ]

  lemma EmotionListShape()
    ensures |EmotionList| == 5
    ensures forall i :: 0 <= i < 5 ==>
      EmotionList[i].id == i + 1 && EmotionList[i].img == GetEmotionImgById(Num(i + 1)) &&
      EmotionList[i].img.Some? && ImgNumber(EmotionList[i].img.value) == i + 1
  {
  }

  /** A month or day number, with a leading "0" when it is below 10. */
  function Pad(n: nat): string {
    if n < 10 then "0" + Decimal.NatToText(n) else Decimal.NatToText(n)
  }

  /**
   * `getFormattedDate`, given the date's `getFullYear()`, `getMonth()` (0 to 11)
   * and `getDate()`.
   */
  function GetFormattedDate(year: int, monthIndex: nat, day: nat): string {
    Decimal.IntToText(year) + "-" + Pad(monthIndex + 1) + "-" + Pad(day)
  }

  /** A padded number is at least two digits, starts with "0" exactly below 10, and reads back as itself. */
  lemma PadSpec(n: nat)
    ensures var p := Pad(n);
      && |p| >= 2 && Decimal.AllDigits(p)
      && (n < 100 ==> |p| == 2)
      && (p[0] == '0' <==> n < 10)
      && Decimal.ParseDigits(p) == n
  {
    Decimal.ParseNatToText(n);
    if n < 10 {
      Decimal.ParseLeadingZero(Decimal.NatToText(n));
    } else if n < 100 {
      assert Decimal.NatToText(n) == Decimal.NatToText(n / 10) + [Decimal.DigitChar(n % 10)];
    }
  }

  /**
   * The date text is the unpadded year, a dash, two digits for `month + 1`,
   * a dash and two digits for the day, and each part reads back as its number.
   */
  lemma FormattedDateParts(year: int, monthIndex: nat, day: nat)
    requires monthIndex < 12 && 1 <= day <= 31
    ensures var s, y := GetFormattedDate(year, monthIndex, day), Decimal.IntToText(year);
      && |s| == |y| + 6
      && s[..|y|] == y
      && s[|y|] == '-' && s[|y| + 3] == '-'
      && Decimal.AllDigits(s[|y| + 1..|y| + 3]) && Decimal.ParseDigits(s[|y| + 1..|y| + 3]) == monthIndex + 1
      && Decimal.AllDigits(s[|y| + 4..]) && Decimal.ParseDigits(s[|y| + 4..]) == day
      && (s[|y| + 1] == '0' <==> monthIndex + 1 < 10)
      && (s[|y| + 4] == '0' <==> day < 10)
  {
    PadSpec(monthIndex + 1);
    PadSpec(day);
    DashedParts(Decimal.IntToText(year), Pad(monthIndex + 1), Pad(day));
  }

  /** Where the pieces of `y + "-" + mm + "-" + dd` sit, for two-character `mm` and `dd`. */
  lemma DashedParts(y: string, mm: string, dd: string)
    requires |mm| == 2 && |dd| == 2
    ensures var s := y + "-" + mm + "-" + dd;
      && |s| == |y| + 6 && s[..|y|] == y
      && s[|y|] == '-' && s[|y| + 3] == '-'
      && s[|y| + 1..|y| + 3] == mm && s[|y| + 4..] == dd
  {
    var s := y + "-" + mm + "-" + dd;
    assert s[|y| + 1..|y| + 3] == mm;
    assert s[|y| + 4..] == dd;
  }

  lemma SameTextSameYear(y1: int, m1: nat, d1: nat, y2: int, m2: nat, d2: nat)
    requires m1 < 12 && 1 <= d1 <= 31 && m2 < 12 && 1 <= d2 <= 31
    requires GetFormattedDate(y1, m1, d1) == GetFormattedDate(y2, m2, d2)
    ensures y1 == y2
  {
    FormattedDateParts(y1, m1, d1);
    FormattedDateParts(y2, m2, d2);
    var t1, t2 := Decimal.IntToText(y1), Decimal.IntToText(y2);
    assert |t1| == |t2|;
    Decimal.IntToTextInjective(y1, y2);
  }

  lemma SameYearSameMonthDay(y: int, m1: nat, d1: nat, m2: nat, d2: nat)
    requires m1 < 12 && 1 <= d1 <= 31 && m2 < 12 && 1 <= d2 <= 31
    requires GetFormattedDate(y, m1, d1) == GetFormattedDate(y, m2, d2)
    ensures m1 == m2 && d1 == d2
  {
    FormattedDateParts(y, m1, d1);
    FormattedDateParts(y, m2, d2);
  }

  /** Different dates give different texts. */
  lemma FormattedDateInjective(y1: int, m1: nat, d1: nat, y2: int, m2: nat, d2: nat)
    requires m1 < 12 && 1 <= d1 <= 31 && m2 < 12 && 1 <= d2 <= 31
    ensures GetFormattedDate(y1, m1, d1) == GetFormattedDate(y2, m2, d2) <==> y1 == y2 && m1 == m2 && d1 == d2
  {
    if GetFormattedDate(y1, m1, d1) == GetFormattedDate(y2, m2, d2) {
      SameTextSameYear(y1, m1, d1, y2, m2, d2);
      SameYearSameMonthDay(y1, m1, d1, m2, d2);
    }
  }

  datatype DiaryEntry = DiaryEntry(id: JsKey, date: int, content: string, emotionId: int)

  /** The dispatched actions; `Unknown` stands for any other `type` string. */
  datatype DiaryAction =
    | Init(data: seq<DiaryEntry>)
    | Create(entry: DiaryEntry)
    | Update(entry: DiaryEntry)
    | Delete(targetId: JsKey)
    | Unknown(kind: string)

  /** UPDATE compares `String(it.id)` with `String(data.id)`. */
  function Replacer(data: DiaryEntry): DiaryEntry -> DiaryEntry {
    (it: DiaryEntry) => if JsString(it.id) == JsString(data.id) then data else it
  }

  /** DELETE keeps the entries with `it.id !== targetId` (no coercion). */
  function Survives(targetId: JsKey): DiaryEntry -> bool {
    (it: DiaryEntry) => it.id != targetId
  }

  function Reduce(state: seq<DiaryEntry>, action: DiaryAction): seq<DiaryEntry> {
    match action
    case Init(data) => data
    case Create(entry) => [entry] + state
    case Update(entry) => Lists.Map(state, Replacer(entry))
    case Delete(t) => Lists.Filter(state, Survives(t))
    case Unknown(_) => state
  }

  lemma InitReplaces(state: seq<DiaryEntry>, data: seq<DiaryEntry>)
    ensures Reduce(state, Init(data)) == data
  {
  }

  lemma CreatePrepends(state: seq<DiaryEntry>, entry: DiaryEntry)
    ensures var r := Reduce(state, Create(entry));
      |r| == |state| + 1 && r[0] == entry && r[1..] == state
  {
  }

  /** UPDATE replaces whole entries (no merge) where the ids agree as strings, and keeps the rest. */
  lemma UpdateReplacesWhole(state: seq<DiaryEntry>, data: DiaryEntry)
    ensures var r := Reduce(state, Update(data));
      && |r| == |state|
      && (forall i :: 0 <= i < |state| && JsString(state[i].id) == JsString(data.id) ==> r[i] == data)
      && (forall i :: 0 <= i < |state| && JsString(state[i].id) != JsString(data.id) ==> r[i] == state[i])
  {
  }

  /** Between two numeric ids the string comparison of UPDATE is plain numeric equality. */
  lemma NumericIdsMatchByValue(a: int, b: int)
    ensures JsString(Num(a)) == JsString(Num(b)) <==> a == b
  {
    Decimal.IntToTextInjective(a, b);
  }

  /** DELETE removes exactly the entries whose id is strictly equal to the target. */
  lemma DeleteRemovesExactly(state: seq<DiaryEntry>, t: JsKey)
    ensures var r := Reduce(state, Delete(t));
      var ks := Lists.KeptIndices(state, Survives(t));
      && (forall x :: x in r ==> x in state && x.id != t)
      && (forall x :: x in state && x.id != t ==> x in r)
      && |r| == |ks| && Lists.StrictlyIncreasing(ks)
      && (forall j :: 0 <= j < |ks| ==> ks[j] < |state| && r[j] == state[ks[j]])
      && (forall i :: 0 <= i < |state| ==> (i in ks <==> state[i].id != t))
  {
    Lists.FilterByIndices(state, Survives(t));
    forall x ensures x in Reduce(state, Delete(t)) <==> x in state && x.id != t {
      Lists.FilterMembers(state, Survives(t), x);
    }
  }

  /** A string target never deletes an entry whose id is a number. */
  lemma DeleteStringTargetKeepsNumericIds(state: seq<DiaryEntry>, s: string)
    requires forall i :: 0 <= i < |state| ==> state[i].id.Num?
    ensures Reduce(state, Delete(Str(s))) == state
  {
    Lists.FilterKeepsAll(state, Survives(Str(s)));
  }

  /**
   * The two comparisons disagree: the string "n" updates the entry with the
   * numeric id n, but does not delete it.
   */
  lemma UpdateCoercesDeleteDoesNot(e: DiaryEntry, n: int, data: DiaryEntry)
    requires e.id == Num(n) && data.id == Str(Decimal.IntToText(n))
    ensures Reduce([e], Update(data)) == [data]
    ensures Reduce([e], Delete(Str(Decimal.IntToText(n)))) == [e]
  {
    Lists.FilterKeepsAll([e], Survives(Str(Decimal.IntToText(n))));
  }

  lemma UnknownIsIdentity(state: seq<DiaryEntry>, kind: string)
    ensures Reduce(state, Unknown(kind)) == state
  {
  }
}
