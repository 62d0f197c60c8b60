/** JSON text (sections 2 to 7 of RFC 8259), read one character at a time: the strict parser that
    decides whether a text is a document, and where it stands after the beginning of one. */
module JsonText {
  import opened Text

  datatype Kind = Obj | Arr

  datatype Expect = Value | FirstItem | FirstKey | NextKey | Colon | AfterValue

  datatype NumState = Minus | Zero | Int | Dot | Frac | Exp | ExpSign | ExpDigits

  /** A byte that goes on with an encoded character. */
  type Continuation = x: int | 0x80 <= x <= 0xBF witness 0x80

  /** Within a string: plain; within a character of several bytes, with the range of the next byte and how
      many come after it; behind a backslash, among the digits of \u, behind a high surrogate, behind the
      backslash that must follow it, among the digits of the low surrogate. */
  datatype StrState =
    | Plain
    | Multi(lo: Continuation, hi: Continuation, more: nat)
    | Esc
    | Hex(ds: string)
    | High(ds: string)
    | HighEsc(ds: string)
    | Low(ds: string, es: string)

  datatype Lex = Idle | InStr(str: StrState) | InNum(num: NumState) | InWord(rest: string)

  /** The open containers, outermost first; what must come next; and the token begun. */
  datatype State = State(open: seq<Kind>, next: Expect, lex: Lex) | Fail

  const START := State([], Value, Idle)

  predicate Blank(c: char) {
    c == ' ' || c == '\n' || c == '\r' || c == '\t'
  }

  predicate Digit(c: char) {
    '0' <= c <= '9'
  }

  predicate HexDigit(c: char) {
    Digit(c) || 'a' <= c <= 'f' || 'A' <= c <= 'F'
  }

  predicate AllHex(s: string) {
    forall k :: 0 <= k < |s| ==> HexDigit(s[k])
  }

  // ---------- tokens ----------

  predicate IsD(c: char) {
    c == 'd' || c == 'D'
  }

  predicate HighSecond(c: char) {
    c == '8' || c == '9' || c == 'a' || c == 'A' || c == 'b' || c == 'B'
  }

  predicate LowSecond(c: char) {
    'c' <= c <= 'f' || 'C' <= c <= 'F'
  }

  /** The digits begin those of a high surrogate, U+D800 to U+DBFF. */
  predicate HighDigits(ds: string) {
    |ds| >= 2 && IsD(ds[0]) && HighSecond(ds[1])
  }

  predicate LowDigits(ds: string) {
    && AllHex(ds)
    && (|ds| >= 1 ==> IsD(ds[0]))
    && (|ds| >= 2 ==> LowSecond(ds[1]))
  }

  /** Digits that no character begins with: a low surrogate on its own. */
  predicate LoneLow(ds: string) {
    |ds| >= 2 && LowDigits(ds)
  }

  /** The bytes that may follow the first one of a character (section 4 of RFC 3629). */
  function FirstByte(c: char): Option<StrState> {
    var b := c as int;
    if b < 0x80 then Some(Plain)
    else if 0xC2 <= b <= 0xDF then Some(Multi(0x80, 0xBF, 0))
    else if b == 0xE0 then Some(Multi(0xA0, 0xBF, 1))
    else if b == 0xED then Some(Multi(0x80, 0x9F, 1))
    else if 0xE1 <= b <= 0xEF then Some(Multi(0x80, 0xBF, 1))
    else if b == 0xF0 then Some(Multi(0x90, 0xBF, 2))
    else if 0xF1 <= b <= 0xF3 then Some(Multi(0x80, 0xBF, 2))
    else if b == 0xF4 then Some(Multi(0x80, 0x8F, 2))
    else None
  }

  function StrStep(s: StrState, c: char): Option<StrState> {
    match s
    case Plain => if c == '\\' then Some(Esc) else if c < ' ' || c == '"' then None else FirstByte(c)
    case Multi(lo, hi, more) =>
      if !(lo <= c as int <= hi) then None
      else if more == 0 then Some(Plain)
      else Some(Multi(0x80, 0xBF, more - 1))
    case Esc =>
      if c == 'u' then Some(Hex(""))
      else if c in "\"\\/bfnrt" then Some(Plain)
      else None
    case Hex(ds) =>
      if !HexDigit(c) then None
      else if |ds| < 3 then Some(Hex(ds + [c]))
      else if LoneLow(ds + [c]) then None
      else if HighDigits(ds + [c]) then Some(High(ds + [c]))
      else Some(Plain)
    case High(ds) => if c == '\\' then Some(HighEsc(ds)) else None
    case HighEsc(ds) => if c == 'u' then Some(Low(ds, "")) else None
    case Low(ds, es) =>
      if !HexDigit(c) then None
      else if |es| < 3 then Some(Low(ds, es + [c]))
      else if LowDigits(es + [c]) then Some(Plain)
      else None
  }

  function NumStep(n: NumState, c: char): Option<NumState> {
    match n
    case Minus => if c == '0' then Some(Zero) else if Digit(c) then Some(Int) else None
    case Zero => if c == '.' then Some(Dot) else if c == 'e' || c == 'E' then Some(Exp) else None
    case Int =>
      if Digit(c) then Some(Int)
      else if c == '.' then Some(Dot)
      else if c == 'e' || c == 'E' then Some(Exp)
      else None
    case Dot => if Digit(c) then Some(Frac) else None
    case Frac => if Digit(c) then Some(Frac) else if c == 'e' || c == 'E' then Some(Exp) else None
    case Exp => if c == '+' || c == '-' then Some(ExpSign) else if Digit(c) then Some(ExpDigits) else None
    case ExpSign => if Digit(c) then Some(ExpDigits) else None
    case ExpDigits => if Digit(c) then Some(ExpDigits) else None
  }

  predicate NumDone(n: NumState) {
    n == Zero || n == Int || n == Frac || n == ExpDigits
  }

  function NumStart(c: char): Option<NumState> {
    if c == '-' then Some(Minus) else if c == '0' then Some(Zero) else if Digit(c) then Some(Int) else None
  }

  function WordStart(c: char): Option<string> {
    if c == 't' then Some("rue") else if c == 'f' then Some("alse") else if c == 'n' then Some("ull") else None
  }

  // ---------- the document ----------

  function Done(open: seq<Kind>): State {
    State(open, AfterValue, Idle)
  }

  function Top(open: seq<Kind>): Kind
    requires open != []
  {
    open[|open| - 1]
  }

  function Pop(open: seq<Kind>): seq<Kind>
    requires open != []
  {
    open[..|open| - 1]
  }

  predicate ExpectsKey(e: Expect) {
    e == FirstKey || e == NextKey
  }

  predicate ExpectsValue(e: Expect) {
    e == Value || e == FirstItem
  }

  /** A string has ended: a key, or a value. */
  function EndString(open: seq<Kind>, e: Expect): State {
    if ExpectsKey(e) then State(open, Colon, Idle) else Done(open)
  }

  /** A character between tokens that is no blank. */
  function StepIdle(open: seq<Kind>, e: Expect, c: char): State {
    match e
    case Colon => if c == ':' then State(open, Value, Idle) else Fail
    case AfterValue =>
      if open == [] then Fail
      else if c == ',' then State(open, if Top(open) == Arr then Value else NextKey, Idle)
      else if c == if Top(open) == Arr then ']' else '}' then Done(Pop(open))
      else Fail
    case NextKey => if c == '"' then State(open, e, InStr(Plain)) else Fail
    case FirstKey =>
      if c == '"' then State(open, e, InStr(Plain))
      else if c == '}' && open != [] then Done(Pop(open))
      else Fail
    case _ =>
      if c == '{' then State(open + [Obj], FirstKey, Idle)
      else if c == '[' then State(open + [Arr], FirstItem, Idle)
      else if c == '"' then State(open, e, InStr(Plain))
      else if NumStart(c).Some? then State(open, e, InNum(NumStart(c).value))
      else if WordStart(c).Some? then State(open, e, InWord(WordStart(c).value))
      else if c == ']' && e == FirstItem && open != [] then Done(Pop(open))
      else Fail
  }

  function StepBetween(open: seq<Kind>, e: Expect, c: char): State {
    if Blank(c) then State(open, e, Idle) else StepIdle(open, e, c)
  }

  function Step(s: State, c: char): State {
    if s.Fail? then Fail
    else
      match s.lex
      case Idle => StepBetween(s.open, s.next, c)
      case InStr(st) =>
        if st == Plain && c == '"' then EndString(s.open, s.next)
        else
          var r := StrStep(st, c);
          if r.Some? then s.(lex := InStr(r.value)) else Fail
      case InNum(n) =>
        var r := NumStep(n, c);
        if r.Some? then s.(lex := InNum(r.value))
        else if NumDone(n) then StepBetween(s.open, AfterValue, c)
        else Fail
      case InWord(rest) =>
        if rest == "" || c != rest[0] then Fail
        else if |rest| == 1 then Done(s.open)
        else s.(lex := InWord(rest[1..]))
  }

  function Run(s: State, text: string): State
    decreases |text|
  {
    if text == "" then s else Run(Step(s, text[0]), text[1..])
  }

  /** At the end of the input a number is complete. */
  function AtEnd(s: State): State {
    if s.State? && s.lex.InNum? && NumDone(s.lex.num) then Done(s.open) else s
  }

  /** The text is a document: the whole parser succeeds. */
  predicate CanParse(text: string) {
    AtEnd(Run(START, text)) == Done([])
  }

  lemma {:induction false} RunConcat(s: State, a: string, b: string)
    ensures Run(s, a + b) == Run(Run(s, a), b)
    decreases |a|
  {
    if a == "" {
      assert a + b == b;
    } else {
      assert (a + b)[1..] == a[1..] + b;
      RunConcat(Step(s, a[0]), a[1..], b);
    }
  }

  lemma RunLast(s: State, a: string, c: char)
    ensures Run(s, a + [c]) == Step(Run(s, a), c)
  {
    RunConcat(s, a, [c]);
    assert [c][1..] == "" && Run(Run(s, a), [c]) == Run(Step(Run(s, a), c), "");
  }

  lemma RunFirst(s: State, c: char, b: string)
    ensures Run(s, [c] + b) == Run(Step(s, c), b)
  {
    assert ([c] + b)[1..] == b;
  }

  lemma {:induction false} RunFails(text: string)
    ensures Run(Fail, text) == Fail
    decreases |text|
  {
    if text != "" {
      RunFails(text[1..]);
    }
  }

  /** A beginning of a document does not fail. */
  lemma TruncationRuns(text: string, rest: string)
    requires CanParse(text + rest)
    ensures Run(START, text) != Fail
  {
    RunConcat(START, text, rest);
    RunFails(rest);
  }

  /** What a stretch of a string that holds no closing quote does to it. */
  function StrRun(st: StrState, s: string): Option<StrState>
    decreases |s|
  {
    if s == "" then Some(st)
    else if st == Plain && s[0] == '"' then None
    else if StrStep(st, s[0]).None? then None
    else StrRun(StrStep(st, s[0]).value, s[1..])
  }

  lemma {:induction false} StrRuns(open: seq<Kind>, e: Expect, st: StrState, s: string)
    requires StrRun(st, s).Some?
    ensures Run(State(open, e, InStr(st)), s) == State(open, e, InStr(StrRun(st, s).value))
    decreases |s|
  {
    if s != "" {
      StrRuns(open, e, StrStep(st, s[0]).value, s[1..]);
    }
  }

  // ---------- states that occur ----------

  predicate StrGood(s: StrState) {
    match s
    case Plain => true
    case Esc => true
    case Multi(_, _, _) => true
    case Hex(ds) => |ds| < 4 && AllHex(ds)
    case High(ds) => |ds| == 4 && AllHex(ds) && HighDigits(ds)
    case HighEsc(ds) => |ds| == 4 && AllHex(ds) && HighDigits(ds)
    case Low(ds, es) => |ds| == 4 && AllHex(ds) && HighDigits(ds) && |es| < 4 && AllHex(es)
  }

  /** What is left of true, false or null. */
  predicate WordEnd(s: string) {
    && s != "" && (s[|s| - 1] == 'e' || s[|s| - 1] == 'l')
    && forall k :: 0 <= k < |s| ==> 'a' <= s[k] <= 'z'
  }

  /** What comes next agrees with the innermost container, and a token only begins where it may. */
  predicate Good(s: State) {
    s.State? ==>
      && (s.next == FirstItem ==> s.open != [] && Top(s.open) == Arr)
      && (ExpectsKey(s.next) || s.next == Colon ==> s.open != [] && Top(s.open) == Obj)
      && (s.lex.InNum? || s.lex.InWord? ==> ExpectsValue(s.next))
      && (s.lex.InStr? ==> (ExpectsValue(s.next) || ExpectsKey(s.next)) && StrGood(s.lex.str))
      && (s.lex.InWord? ==> WordEnd(s.lex.rest))
  }

  lemma StrStepGood(s: StrState, c: char)
    requires StrGood(s)
    ensures StrStep(s, c).Some? ==> StrGood(StrStep(s, c).value)
  {
  }

  lemma StepGood(s: State, c: char)
    requires Good(s)
    ensures Good(Step(s, c))
  {
    hide StrStep, StrGood, NumStep, StepBetween;
    if s.State? {
      match s.lex
      case Idle => BetweenGood(s.open, s.next, c);
      case InStr(st) => StrStepGood(st, c);
      case InNum(n) => BetweenGood(s.open, AfterValue, c);
      case InWord(rest) =>
    }
  }

  lemma BetweenGood(open: seq<Kind>, e: Expect, c: char)
    requires Good(State(open, e, Idle))
    ensures Good(StepBetween(open, e, c))
  {
  }

  lemma {:induction false} RunGood(s: State, text: string)
    requires Good(s)
    ensures Good(Run(s, text))
    decreases |text|
  {
    if text != "" {
      StepGood(s, text[0]);
      RunGood(Step(s, text[0]), text[1..]);
    }
  }
}
