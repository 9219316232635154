/**
 * The counter component: `countReducer` and the click handler that turns a
 * button's trimmed label into the action it dispatches.
 */
module CounterReduce {

  /** The dispatched actions; `Unknown` stands for any other `type` string. */
  datatype CountAction = Increment | Decrement | Reset | Unknown(kind: string)

  function CountReducer(state: int, action: CountAction): int {
    match action
    case Increment => state + 1
    case Decrement => state - 1
    case Reset => 0
    case Unknown(_) => state
  }

  /**
   * The characters `String.prototype.trim` removes: the white space and line
   * terminator code points of the ECMAScript standard.
   */
  predicate IsJsWhitespace(c: char) {
    || c == '\U{9}' || c == '\U{B}' || c == '\U{C}' || c == ' ' || c == '\U{A0}'
    || c == '\U{FEFF}' || c == '\U{1680}' || ('\U{2000}' <= c <= '\U{200A}') || c == '\U{202F}'
    || c == '\U{205F}' || c == '\U{3000}'
    || c == '\n' || c == '\r' || c == '\U{2028}' || c == '\U{2029}'
  }

  predicate AllWhitespace(s: string) {
    forall i :: 0 <= i < |s| ==> IsJsWhitespace(s[i])
  }

  /** `s` with its leading white space removed. */
  function TrimStart(s: string): (r: string)
    ensures |r| <= |s| && r == s[|s| - |r|..]
    ensures AllWhitespace(s[..|s| - |r|])
    ensures r != [] ==> !IsJsWhitespace(r[0])
    decreases |s|
  {
    if s != [] && IsJsWhitespace(s[0]) then
      var r := TrimStart(s[1..]);
      assert s[..|s| - |r|] == [s[0]] + s[1..][..|s| - 1 - |r|];
      r
    else s
  }

  /** `s` with its trailing white space removed. */
  function TrimEnd(s: string): (r: string)
    ensures |r| <= |s| && r == s[..|r|]
    ensures AllWhitespace(s[|r|..])
    ensures r != [] ==> !IsJsWhitespace(r[|r| - 1])
    decreases |s|
  {
    if s != [] && IsJsWhitespace(s[|s| - 1]) then
      var r := TrimEnd(s[..|s| - 1]);
      assert s[|r|..] == s[..|s| - 1][|r|..] + [s[|s| - 1]];
      r
    else s
  }

  /** `String.prototype.trim`: both ends stripped of white space. */
  function Trim(s: string): string {
    TrimEnd(TrimStart(s))
  }

  /** `clickHandler`: "+" increments, "-" decrements, every other label resets. */
  function ClickAction(text: string): (a: CountAction)
    ensures a == Increment <==> Trim(text) == "+"
    ensures a == Decrement <==> Trim(text) == "-"
    ensures a == Reset <==> Trim(text) != "+" && Trim(text) != "-"
  {
    var t := Trim(text);
    if t == "+" then Increment else if t == "-" then Decrement else Reset
  }

  /** The state after a click on a button labelled `text`. */
  function Click(state: int, text: string): int {
    CountReducer(state, ClickAction(text))
  }

  lemma {:induction false} TrimStartOfPadded(a: string, core: string)
    requires AllWhitespace(a) && core != [] && !IsJsWhitespace(core[0])
    ensures TrimStart(a + core) == core
    decreases |a|
  {
    if a != [] {
      assert (a + core)[1..] == a[1..] + core;
      TrimStartOfPadded(a[1..], core);
    }
  }

  lemma {:induction false} TrimEndOfPadded(core: string, b: string)
    requires AllWhitespace(b) && core != [] && !IsJsWhitespace(core[|core| - 1])
    ensures TrimEnd(core + b) == core
    decreases |b|
  {
    if b != [] {
      assert (core + b)[..|core + b| - 1] == core + b[..|b| - 1];
      TrimEndOfPadded(core, b[..|b| - 1]);
    }
  }

  /** Trimming removes exactly the white space around a label that starts and ends with a visible character. */
  lemma TrimOfPadded(a: string, core: string, b: string)
    requires AllWhitespace(a) && AllWhitespace(b)
    requires core != [] && !IsJsWhitespace(core[0]) && !IsJsWhitespace(core[|core| - 1])
    ensures Trim(a + core + b) == core
  {
    assert a + core + b == a + (core + b);
    TrimStartOfPadded(a, core + b);
    TrimEndOfPadded(core, b);
  }

  /** The three buttons, whatever white space surrounds their labels, do what their labels say. */
  lemma ButtonsDispatch(state: int, a: string, b: string)
    requires AllWhitespace(a) && AllWhitespace(b)
    ensures Click(state, a + "+" + b) == state + 1
    ensures Click(state, a + "-" + b) == state - 1
    ensures Click(state, a + "Reset" + b) == 0
  {
    assert !IsJsWhitespace('+') && !IsJsWhitespace('-') && !IsJsWhitespace('R') && !IsJsWhitespace('t');
    TrimOfPadded(a, "+", b);
    assert ClickAction(a + "+" + b) == Increment;
    TrimOfPadded(a, "-", b);
    assert ClickAction(a + "-" + b) == Decrement;
    TrimOfPadded(a, "Reset", b);
    assert ClickAction(a + "Reset" + b) == Reset;
  }

  lemma IncrementThenDecrement(state: int)
    ensures CountReducer(CountReducer(state, Increment), Decrement) == state
  {
  }

  lemma ResetIsZero(state: int)
    ensures CountReducer(state, Reset) == 0
  {
  }

  lemma UnknownIsIdentity(state: int, kind: string)
    ensures CountReducer(state, Unknown(kind)) == state
  {
  }
}
