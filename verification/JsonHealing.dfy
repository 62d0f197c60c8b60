/** Completing a JSON text that was cut off. The code finds out by trial where the text stopped; here it
    is shown to do what the state of the parser calls for, and to end with a document. */
module JsonHealing {
  import opened Text
  import opened JsonText
  import opened JsonErrors
  import opened JsonTrials
  import opened JsonUnicode
  import opened JsonLocator

  /** What comes of parsing: a document, all of the input or what stands before an error; a text completed
      with the marker; `false`; or an exception. */
  datatype Outcome = Whole(text: string) | Healed(text: string, dumpMarker: string) | Refused | Throws

  // ---------- what the code looks at ----------

  function LastNonSpace(s: string): Option<char> {
    if s == "" then None
    else if Blank(s[|s| - 1]) then LastNonSpace(s[..|s| - 1])
    else Some(s[|s| - 1])
  }

  /** The text stops in what may be a number, not necessarily complete. */
  predicate MaybeNumber(s: string) {
    s != "" && var c := s[|s| - 1]; Digit(c) || c == '.' || c == 'e' || c == 'E' || c == '-'
  }

  predicate Separator(k: Kind, c: char) {
    if k == Arr then c == '[' || c == ',' else c == ':'
  }

  /** The last separator before a value. */
  function LastSeparator(s: string, k: Kind): (i: Option<nat>)
    ensures i.Some? ==> i.value < |s| && Separator(k, s[i.value])
  {
    if s == "" then None
    else if Separator(k, s[|s| - 1]) then Some(|s| - 1)
    else LastSeparator(s[..|s| - 1], k)
  }

  // ---------- what the state calls for ----------

  /** The completed text is parsed, and an exception thrown if it is no document. */
  function Parsed(text: string, dumpMarker: string): Outcome {
    if CanParse(text) then Healed(text, dumpMarker) else Throws
  }

  function CutBack(str: string, top: Kind, marker: string, close: string): Outcome {
    match LastSeparator(str, top)
    case None => Throws
    case Some(i) => Parsed(str[..i + 1] + ("\"" + marker) + "\"" + close, "\"" + marker)
  }

  /** The completion that fits the state: the marker goes where text may go on; a value that may be
      unfinished is cut off. */
  function Mended(str: string, marker: string, s: State): Outcome
    requires s.State? && s.open != []
  {
    var top, close := Top(s.open), CloseOf(s.open);
    match s.lex
    case InStr(st) =>
      var end := if ExpectsKey(s.next) then "\": 1" else "\"";
      if st == Plain then Parsed(str + marker + end + close, marker)
      else if st == Esc then Parsed(str + ("\\" + marker) + end + close, "\\" + marker)
      else if Unfilled(str, st) then CutBack(str, top, marker, close)
      else Parsed(str + (Padding(str) + marker) + end + close, Padding(str) + marker)
    case InNum(_) => CutBack(str, top, marker, close)
    case InWord(_) => CutBack(str, top, marker, close)
    case Idle =>
      match s.next
      case Colon => Parsed(str + (":\"" + marker) + "\"" + close, ":\"" + marker)
      case Value => Parsed(str + ("\"" + marker) + "\"" + close, "\"" + marker)
      case FirstItem => Parsed(str + ("\"" + marker) + "\"" + close, "\"" + marker)
      case FirstKey => Parsed(str + ("\"" + marker) + "\": 1" + close, "\"" + marker)
      case NextKey => Parsed(str + ("\"" + marker) + "\": 1" + close, "\"" + marker)
      case AfterValue =>
        if MaybeNumber(str) then CutBack(str, top, marker, close)
        else Parsed(str + (",\"" + marker) + (if top == Arr then "\"" else "\": 1") + close, ",\"" + marker)
  }

  /** Outside all containers only a string is completed. */
  function Rooted(str: string, marker: string): Outcome {
    var s := Run(START, str);
    if s.State? && s.lex == InStr(Plain) then Parsed(str + marker + "\"", marker)
    else if s.State? && s.lex == InStr(Esc) then Parsed(str + ("\\" + marker) + "\"", "\\" + marker)
    else Refused
  }

  /** The whole of parsing with a marker: what stands before the error is completed as the state calls for;
      when it ends within a token that may not stand there, it is cut back. */
  function Plan(input: string, marker: string): Outcome {
    var str, s := input[..ErrorAt(input)], Run(START, input[..Taken(START, input)]);
    ErrorIs(input);
    if CanParse(input) then Whole(input)
    else if CanParse(str) then Whole(str)
    else if marker == "" then Refused
    else if s.open == [] then Rooted(str, marker)
    else if Run(START, str).State? then Mended(str, marker, s)
    else CutBack(str, Top(s.open), marker, CloseOf(s.open))
  }

  /** A text that does not fail is planned for as it is. */
  lemma PlanStopped(str: string, marker: string)
    requires Run(START, str).State?
    ensures var s := Run(START, str);
      Plan(str, marker) ==
      if CanParse(str) then Whole(str)
      else if marker == "" then Refused
      else if s.open == [] then Rooted(str, marker)
      else Mended(str, marker, s)
  {
    ErrorIs(str);
    assert str[..|str|] == str;
    hide Run, CanParse, Mended, Rooted, ErrorAt, Taken, CutBack;
  }

  // ---------- the last character tells the state ----------

  /** What the last character before blanks is, where it matters. */
  predicate LastFits(c: char, s: State)
    requires s.State? && (s.next == FirstItem || s.next == FirstKey || s.next == NextKey ==> s.open != [])
  {
    match s.lex
    case InStr(_) => true
    case InWord(_) => true
    case InNum(n) => if NumDone(n) then Digit(c) else Digit(c) || c in ".eE+-"
    case Idle =>
      match s.next
      case Value => s.open != [] ==> c == if Top(s.open) == Arr then ',' else ':'
      case FirstItem => c == '['
      case FirstKey => c == '{'
      case NextKey => c == ','
      case Colon => c == '"'
      case AfterValue => c in "\"}]el" || Digit(c)
  }

  lemma NumLast(n: NumState, c: char)
    requires NumStep(n, c).Some?
    ensures LastFits(c, State([], Value, InNum(NumStep(n, c).value)))
  {
  }

  lemma BetweenLast(open: seq<Kind>, e: Expect, c: char, last: Option<char>)
    requires Good(State(open, e, Idle))
    requires State(open, e, Idle) == START || (last.Some? && LastFits(last.value, State(open, e, Idle)))
    ensures var t := StepBetween(open, e, c);
      t.State? ==> t == START || if Blank(c) then last.Some? && LastFits(last.value, t) else LastFits(c, t)
  {
  }

  lemma StepLast(s: State, c: char, last: Option<char>)
    requires Good(s) && (s.State? ==> s == START || (last.Some? && LastFits(last.value, s)))
    ensures var t := Step(s, c);
      Good(t) && (t.State? ==> t == START || if Blank(c) then last.Some? && LastFits(last.value, t) else LastFits(c, t))
  {
    StepGood(s, c);
    if s.State? {
      match s.lex
      case Idle => BetweenLast(s.open, s.next, c, last);
      case InNum(n) =>
        if NumStep(n, c).Some? {
          NumLast(n, c);
        } else if NumDone(n) {
          BetweenLast(s.open, AfterValue, c, last);
        }
      case _ =>
    }
  }

  lemma {:induction false} RunLastFits(str: string)
    ensures var s := Run(START, str);
      && Good(s)
      && (s.State? ==> s == START || (LastNonSpace(str).Some? && LastFits(LastNonSpace(str).value, s)))
    decreases |str|
  {
    if str != "" {
      var before, c := str[..|str| - 1], str[|str| - 1];
      assert str == before + [c];
      RunLastFits(before);
      RunLast(START, before, c);
      hide Step, Good, LastFits;
      StepLast(Run(START, before), c, LastNonSpace(before));
    }
  }

  // ---------- cutting back to the last separator ----------

  /** Characters of numbers and words, and blanks. */
  predicate ScalarChar(c: char) {
    Blank(c) || Digit(c) || 'a' <= c <= 'z' || c in "E.+-"
  }

  predicate ScalarText(s: string) {
    forall k :: 0 <= k < |s| ==> ScalarChar(s[k])
  }

  /** Behind the last separator there is nothing but the beginning of a value, and there the value was
      expected. */
  ghost predicate ValueSince(str: string, s: State)
    requires s.State? && s.open != []
  {
    var i := LastSeparator(str, Top(s.open));
    && i.Some?
    && ScalarText(str[i.value + 1..])
    && ExpectsValue(s.next)
    && Run(START, str[..i.value + 1]) == State(s.open, s.next, Idle)
  }

  /** A state in which a value is expected, or begun without a quote. */
  predicate AtValue(s: State) {
    s.State? && s.open != [] && ExpectsValue(s.next) && !s.lex.InStr?
  }

  lemma ValueGoesOn(str: string, s: State, c: char, t: State)
    requires AtValue(s) && ValueSince(str, s) && ScalarChar(c)
    requires t.State? && t.open == s.open && ExpectsValue(s.next)
    ensures LastSeparator(str + [c], Top(s.open)) == LastSeparator(str, Top(s.open))
    ensures ScalarText((str + [c])[LastSeparator(str, Top(s.open)).value + 1..])
    ensures t.next == s.next ==> ValueSince(str + [c], t)
  {
    var k := Top(s.open);
    var i := LastSeparator(str, k).value;
    NoSeparator(str, c, k);
    hide Run, LastSeparator, ScalarChar, Separator;
    assert (str + [c])[i + 1..] == str[i + 1..] + [c];
    assert (str + [c])[..i + 1] == str[..i + 1];
  }

  lemma NoSeparator(str: string, c: char, k: Kind)
    requires ScalarChar(c)
    ensures LastSeparator(str + [c], k) == LastSeparator(str, k)
  {
    assert (str + [c])[..|str|] == str && !Separator(k, c);
  }

  lemma ValueBegins(str: string, c: char, t: State)
    requires AtValue(t) && t.lex == Idle && Separator(Top(t.open), c) && Run(START, str + [c]) == t
    ensures ValueSince(str + [c], t)
  {
    var text := str + [c];
    assert LastSeparator(text, Top(t.open)) == Some(|str|);
    assert text[|str| + 1..] == "" && text[..|str| + 1] == text;
  }

  /** How a state at a value comes about: a value goes on, or a separator is read. */
  lemma StepToValue(s: State, c: char)
    requires Good(s) && AtValue(Step(s, c))
    ensures var t := Step(s, c);
      || (AtValue(s) && t.open == s.open && t.next == s.next && ScalarChar(c))
      || (t.lex == Idle && Separator(Top(t.open), c))
  {
    var t := Step(s, c);
    match s.lex
    case Idle =>
    case InStr(st) =>
    case InNum(n) =>
      if NumStep(n, c).Some? {
        assert ScalarChar(c);
      }
    case InWord(rest) =>
      assert 'a' <= rest[0] <= 'z';
  }

  lemma {:induction false} RunValueSince(str: string)
    ensures AtValue(Run(START, str)) ==> ValueSince(str, Run(START, str))
    decreases |str|
  {
    if str != "" {
      var before, c := str[..|str| - 1], str[|str| - 1];
      assert str == before + [c];
      RunValueSince(before);
      RunLast(START, before, c);
      RunGood(START, before);
      var s, t := Run(START, before), Run(START, str);
      if AtValue(t) {
        hide Step, Good;
        StepToValue(s, c);
        if t.lex == Idle && Separator(Top(t.open), c) {
          ValueBegins(before, c, t);
        } else {
          ValueGoesOn(before, s, c, t);
        }
      }
    }
  }

  /** Right behind a value that ends in a letter or digit: it is a word, directly behind its separator. */
  lemma WordJustRead(str: string)
    requires var s := Run(START, str); s.State? && s.open != [] && s.next == AfterValue && s.lex == Idle
    requires MaybeNumber(str)
    ensures var before, s := str[..|str| - 1], Run(START, str);
      var b := Run(START, before);
      AtValue(b) && b.open == s.open && ScalarChar(str[|str| - 1])
  {
    var before, c := str[..|str| - 1], str[|str| - 1];
    assert str == before + [c];
    RunGood(START, before);
    RunLast(START, before, c);
    hide Good, Run;
    WordStep(Run(START, before), c);
  }

  lemma WordStep(s: State, c: char)
    requires Good(s) && (Digit(c) || c == '.' || c == 'e' || c == 'E' || c == '-')
    requires var t := Step(s, c); t.State? && t.next == AfterValue && t.lex == Idle && t.open != []
    ensures AtValue(s) && s.open == Step(s, c).open && ScalarChar(c)
  {
    match s.lex
    case Idle =>
    case InStr(st) =>
    case InNum(n) =>
    case InWord(rest) =>
  }

  /** Where the code cuts, a value was expected in the same containers, and nothing but a number or a word
      is dropped. */
  lemma CutIsRight(str: string)
    requires var s := Run(START, str);
      && s.State? && s.open != []
      && (s.lex.InNum? || s.lex.InWord? || (s.lex == Idle && s.next == AfterValue && MaybeNumber(str)))
    ensures var s := Run(START, str);
      var i := LastSeparator(str, Top(s.open));
      && i.Some? && ScalarText(str[i.value + 1..])
      && exists e :: ExpectsValue(e) && Run(START, str[..i.value + 1]) == State(s.open, e, Idle)
  {
    var s := Run(START, str);
    RunGood(START, str);
    if s.lex == Idle {
      WordJustRead(str);
      var before, c := str[..|str| - 1], str[|str| - 1];
      assert str == before + [c];
      RunValueSince(before);
      var b := Run(START, before);
      ValueGoesOn(before, b, c, s);
      var i := LastSeparator(before, Top(b.open)).value;
      assert str[..i + 1] == before[..i + 1];
      assert Run(START, str[..i + 1]) == State(s.open, b.next, Idle);
    } else {
      RunValueSince(str);
      assert Run(START, str[..LastSeparator(str, Top(s.open)).value + 1]) == State(s.open, s.next, Idle);
    }
  }

  // ---------- the outcomes of the trials ----------

  lemma EndRuns(open: seq<Kind>, e: Expect, rest: string)
    requires rest == if ExpectsKey(e) then ": 1" else ""
    requires open != [] || !ExpectsKey(e)
    ensures Run(EndString(open, e), rest + CloseOf(open)) == Done([])
  {
    if ExpectsKey(e) {
      KeyValueRuns(open);
    } else {
      CloseRuns(open);
      assert rest + CloseOf(open) == CloseOf(open);
    }
  }

  /** The trials that end a string: by a quote, by a backslash and a quote, by the padding and a quote. */
  lemma QuoteTrials(str: string, rest: string)
    requires var s := Run(START, str);
      s.State? && (s.lex.InStr? ==> (ExpectsKey(s.next) <==> rest == ": 1")) && (rest == "" || rest == ": 1")
    ensures var s := Run(START, str);
      && (Trial(s, ['"'] + rest) <==> s.lex == InStr(Plain))
      && (s.lex != InStr(Plain) ==> (Trial(s, ['\\', '"'] + rest) <==> s.lex == InStr(Esc)))
      && (s.lex != InStr(Plain) && s.lex != InStr(Esc) ==>
            (Trial(s, Padding(str) + (['"'] + rest)) <==> s.lex.InStr? && !Unfilled(str, s.lex.str)))
  {
    var s := Run(START, str);
    RunGood(START, str);
    RestUnquoted(rest);
    StringOpens(s);
    hide *;
    if s.lex.InStr? {
      var st := s.lex.str;
      EndRuns(s.open, s.next, rest);
      QuoteTrial(s.open, s.next, st, ['"'] + rest, rest);
      if st != Plain {
        BackslashTrial(s.open, s.next, st, ['\\', '"'] + rest, rest);
        if st != Esc {
          PaddingTrial(str, rest);
        }
      }
    } else {
      OutsideTrials(s, Padding(str), rest) by {
        PaddingNoQuotes(str);
      }
    }
  }

  lemma RestUnquoted(rest: string)
    requires rest == "" || rest == ": 1"
    ensures NoQuotes(rest)
  {
  }

  lemma StringOpens(s: State)
    requires Good(s)
    ensures s.State? && s.lex.InStr? ==>
              s == State(s.open, s.next, InStr(s.lex.str)) && (s.open != [] || !ExpectsKey(s.next))
  {
  }

  lemma OutsideTrials(s: State, pad: string, rest: string)
    requires s.State? && Good(s) && !s.lex.InStr? && NoQuotes(rest) && NoQuotes(pad)
    ensures !Trial(s, ['"'] + rest) && !Trial(s, ['\\', '"'] + rest) && !Trial(s, pad + (['"'] + rest))
  {
    hide Run, Trial, Good;
    assert ['"'] + rest == "" + ['"'] + rest && ['\\', '"'] + rest == ['\\'] + ['"'] + rest;
    assert pad + (['"'] + rest) == pad + ['"'] + rest;
    OneQuoteOutside(s, ['"'] + rest, "", rest);
    OneQuoteOutside(s, ['\\', '"'] + rest, ['\\'], rest);
    OneQuoteOutside(s, pad + (['"'] + rest), pad, rest);
  }

  lemma PaddingTrial(str: string, rest: string)
    requires var s := Run(START, str);
      && s.State? && Good(s) && s.lex.InStr? && s.lex.str != Plain && s.lex.str != Esc
      && rest == if ExpectsKey(s.next) then ": 1" else ""
    ensures var s := Run(START, str);
      Trial(s, Padding(str) + (['"'] + rest)) <==> !Unfilled(str, s.lex.str)
  {
    var s, pad := Run(START, str), Padding(str);
    var close := CloseOf(s.open);
    StringOpens(s);
    StringGood(s);
    hide *;
    RunEnds(str);
    PaddingFills(str, s.open, s.next, s.lex.str);
    EndRuns(s.open, s.next, rest);
    QuotedJoined(pad, rest, close);
    RunConcat(s, pad, ['"'] + (rest + close));
    if Unfilled(str, s.lex.str) {
      RunFails(['"'] + (rest + close));
    } else {
      StrEnds(s.open, s.next, rest + close);
    }
    TrialMeans(s, pad + (['"'] + rest));
  }

  lemma QuotedJoined(pad: string, rest: string, close: string)
    ensures pad + (['"'] + rest) + close == pad + (['"'] + (rest + close))
  {
  }

  lemma StringGood(s: State)
    requires Good(s)
    ensures s.State? && s.lex.InStr? ==> StrGood(s.lex.str)
  {
  }

  lemma TrialMeans(s: State, more: string)
    requires s.State?
    ensures Trial(s, more) <==> AtEnd(Run(s, more + CloseOf(s.open))) == Done([])
    ensures AtEnd(Fail) != Done([]) && AtEnd(Done([])) == Done([])
  {
  }

  /** A number that has begun was not followed by a blank. */
  lemma NumEnds(str: string)
    requires var s := Run(START, str); s.State? && s.lex.InNum?
    ensures str != "" && LastNonSpace(str) == Some(str[|str| - 1])
    ensures NumDone(Run(START, str).lex.num) ==> MaybeNumber(str)
  {
    var before, c := str[..|str| - 1], str[|str| - 1];
    assert str == before + [c];
    RunLast(START, before, c);
    NumStepped(Run(START, before), c);
  }

  lemma NumStepped(s: State, c: char)
    requires Step(s, c).State? && Step(s, c).lex.InNum?
    ensures !Blank(c) && (NumDone(Step(s, c).lex.num) ==> Digit(c))
  {
  }

  /** A string stopped behind a backslash ends with it. */
  lemma EscEnds(str: string)
    requires var s := Run(START, str); s.State? && s.lex == InStr(Esc)
    ensures str != "" && str[|str| - 1] == '\\' && LastNonSpace(str) == Some('\\')
  {
    RunEnds(str);
    assert str[|str| - 1..] == "\\";
    assert str[|str| - 1] == str[|str| - 1..][0];
  }

  lemma TrialsOfKey(str: string)
    requires var s := Run(START, str);
      && s.State? && s.open != [] && Top(s.open) == Obj && (s.next == Colon || s.next == Value)
      && !(s.lex.InNum? && NumDone(s.lex.num))
    ensures var s, last := Run(START, str), LastNonSpace(str);
      && (last == Some(':') && Trial(s, "1") <==> s.lex == Idle && s.next == Value)
      && (Trial(s, ": 1") <==> s.lex == Idle && s.next == Colon)
      && !(last == Some('{') && Trial(s, ""))
  {
    var s := Run(START, str);
    RunLastFits(str);
    assert s != START;
    hide *;
    Unquoted();
    if s.lex.InStr? {
      NoQuoteInside(s, "1");
      NoQuoteInside(s, ": 1");
      NoQuoteInside(s, "");
    } else {
      KeySteps(s, LastNonSpace(str).value);
      Firsts(s);
      CloseFirst(s.open);
      FirstFails(s, "1", '1', CloseOf(s.open));
      FirstFails(s, ": 1", ':', " 1" + CloseOf(s.open));
      FirstFails(s, "", '}', CloseOf(Pop(s.open)));
      KeyTrialsHold(s);
    }
  }

  lemma Unquoted()
    ensures NoQuotes("1") && NoQuotes(": 1") && NoQuotes("") && NoQuotes(", 1")
  {
  }

  lemma Firsts(s: State)
    requires s.State?
    ensures "1" + CloseOf(s.open) == ['1'] + CloseOf(s.open)
    ensures ": 1" + CloseOf(s.open) == [':'] + (" 1" + CloseOf(s.open))
    ensures ", 1" + CloseOf(s.open) == [','] + (" 1" + CloseOf(s.open))
  {
  }

  lemma CloseFirst(open: seq<Kind>)
    requires open != []
    ensures "" + CloseOf(open) == [Bracket(Top(open))] + CloseOf(Pop(open))
    ensures Bracket(Top(open)) == if Top(open) == Arr then ']' else '}'
  {
  }

  /** With a key pending, what the first character of a trial does outside a string. */
  lemma KeySteps(s: State, last: char)
    requires s.State? && Good(s) && !s.lex.InStr? && s.open != [] && Top(s.open) == Obj
    requires (s.next == Colon || s.next == Value) && !(s.lex.InNum? && NumDone(s.lex.num))
    requires LastFits(last, s)
    ensures Step(s, ':') == Fail || (s.lex == Idle && s.next == Colon)
    ensures Step(s, '}') == Fail
    ensures Step(s, '1') == Fail || (s.lex == Idle && s.next == Value) || last != ':'
    ensures s.lex == Idle && s.next == Value ==> last == ':'
    ensures s.lex == Idle && s.next == Colon ==> Step(s, '1') == Fail
    ensures s.lex == Idle && s.next == Value ==> Step(s, ':') == Fail
  {
  }

  lemma KeyTrialsHold(s: State)
    requires s.State? && s.open != []
    ensures s.lex == Idle && s.next == Value ==> Trial(s, "1")
    ensures s.lex == Idle && s.next == Colon ==> Trial(s, ": 1")
  {
    KeyValueRuns(s.open);
  }

  /** A trial whose first character does not fit fails. */
  lemma FirstFails(s: State, more: string, c: char, rest: string)
    requires s.State?
    ensures more + CloseOf(s.open) == [c] + rest && Step(s, c) == Fail ==> !Trial(s, more)
  {
    RunFirst(s, c, rest);
    RunFails(rest);
  }

  /** In an array, likewise. */
  lemma ItemSteps(s: State, last: char)
    requires s.State? && Good(s) && !s.lex.InStr? && s.open != [] && Top(s.open) == Arr && LastFits(last, s)
    ensures Step(s, '1') == Fail || (s.lex == Idle && ExpectsValue(s.next)) || (last != ',' && last != '[')
    ensures s.lex == Idle && ExpectsValue(s.next) ==> last == ',' || last == '['
    ensures Step(s, ',') == Fail || (s.lex == Idle && s.next == AfterValue) || (s.lex.InNum? && NumDone(s.lex.num))
    ensures s.lex == Idle && s.next == AfterValue ==> Step(s, '1') == Fail
  {
  }

  lemma ItemTrialsHold(s: State)
    requires s.State? && Good(s) && s.open != [] && Top(s.open) == Arr
    ensures s.lex == Idle && ExpectsValue(s.next) ==> Trial(s, "1")
    ensures s.lex == Idle && s.next == AfterValue ==> Trial(s, ", 1")
  {
    var close := CloseOf(s.open);
    Firsts(s);
    RunFirst(s, '1', close);
    NumCloses(s.open, s.next, Int);
    RunFirst(s, ',', " 1" + close);
    var t := State(s.open, Value, Idle);
    assert " 1" + close == [' '] + (['1'] + close);
    RunFirst(t, ' ', ['1'] + close);
    RunFirst(t, '1', close);
    NumCloses(s.open, Value, Int);
  }

  lemma TrialsOfItem(str: string)
    requires var s := Run(START, str); s.State? && s.open != [] && Top(s.open) == Arr
    ensures var s, last := Run(START, str), LastNonSpace(str);
      && ((last == Some(',') || last == Some('[')) && Trial(s, "1") <==> s.lex == Idle && ExpectsValue(s.next))
      && (!MaybeNumber(str) && Trial(s, ", 1") <==> s.lex == Idle && s.next == AfterValue && !MaybeNumber(str))
  {
    var s := Run(START, str);
    RunLastFits(str);
    assert s != START && Good(s);
    hide *;
    Unquoted();
    if s.lex.InStr? {
      NoQuoteInside(s, "1");
      NoQuoteInside(s, ", 1");
    } else {
      ItemSteps(s, LastNonSpace(str).value);
      Firsts(s);
      FirstFails(s, "1", '1', CloseOf(s.open));
      FirstFails(s, ", 1", ',', " 1" + CloseOf(s.open));
      ItemTrialsHold(s);
      if s.lex.InNum? {
        NumEnds(str);
      }
    }
  }

  /** In an object where no key is pending, likewise. */
  lemma MemberSteps(s: State, last: char)
    requires s.State? && Good(s) && !s.lex.InStr? && s.open != [] && Top(s.open) == Obj && LastFits(last, s)
    requires ExpectsKey(s.next) || s.next == AfterValue || (s.lex.InNum? && NumDone(s.lex.num))
    ensures s.next == FirstKey ==> last == '{'
    ensures s.next == NextKey ==> last == ','
    ensures !ExpectsKey(s.next) ==> last != '{' && last != ','
  {
  }

  lemma MemberTrialsHold(s: State)
    requires s.State? && Good(s) && s.lex == Idle && s.open != [] && Top(s.open) == Obj
    ensures s.next == FirstKey ==> Trial(s, "")
    ensures s.next == NextKey ==> Trial(s, "\"\": 1")
    ensures s.next == AfterValue ==> Trial(s, ",\"\": 1")
  {
    if s.next == FirstKey {
      FirstKeyHolds(s);
    } else if s.next == NextKey {
      NextKeyHolds(s.open);
    } else if s.next == AfterValue {
      AfterMemberHolds(s.open);
    }
  }

  lemma FirstKeyHolds(s: State)
    requires s.State? && s.lex == Idle && s.next == FirstKey && s.open != [] && Top(s.open) == Obj
    ensures Trial(s, "")
  {
    CloseFirst(s.open);
    RunFirst(s, '}', CloseOf(Pop(s.open)));
    CloseRuns(Pop(s.open));
  }

  lemma NextKeyRuns(open: seq<Kind>)
    requires open != []
    ensures Run(State(open, NextKey, Idle), ['"'] + (['"'] + (": 1" + CloseOf(open)))) == Done([])
  {
    var tail := ": 1" + CloseOf(open);
    KeyValueRuns(open);
    RunFirst(State(open, NextKey, Idle), '"', ['"'] + tail);
    StrEnds(open, NextKey, tail);
  }

  lemma NextKeyHolds(open: seq<Kind>)
    requires open != []
    ensures Trial(State(open, NextKey, Idle), "\"\": 1")
  {
    NextKeyRuns(open);
    hide Run;
    assert "\"\": 1" + CloseOf(open) == ['"'] + (['"'] + (": 1" + CloseOf(open)));
  }

  lemma AfterMemberHolds(open: seq<Kind>)
    requires open != [] && Top(open) == Obj
    ensures Trial(Done(open), ",\"\": 1")
  {
    var rest := ['"'] + (['"'] + (": 1" + CloseOf(open)));
    NextKeyRuns(open);
    RunFirst(Done(open), ',', rest);
    hide Run;
    assert ",\"\": 1" + CloseOf(open) == [','] + rest;
  }

  lemma TrialsOfMember(str: string)
    requires var s := Run(START, str);
      && s.State? && s.open != [] && Top(s.open) == Obj
      && (ExpectsKey(s.next) || s.next == AfterValue || (s.lex.InNum? && NumDone(s.lex.num)))
    ensures var s, last := Run(START, str), LastNonSpace(str);
      var first := (last == Some('{') && Trial(s, "")) || (last == Some(',') && Trial(s, "\"\": 1"));
      && (first <==> s.lex == Idle && ExpectsKey(s.next))
      && (!first ==> (!MaybeNumber(str) && Trial(s, ",\"\": 1") <==>
                      s.lex == Idle && s.next == AfterValue && !MaybeNumber(str)))
  {
    var s, last := Run(START, str), LastNonSpace(str);
    RunLastFits(str);
    assert s != START && Good(s);
    MemberKinds(s);
    hide *;
    Unquoted();
    if s.lex.InStr? {
      NoQuoteInside(s, "");
      KeyTwiceTrial(s.open, s.next, s.lex.str, ",\"\": 1");
      if s.lex == InStr(Esc) {
        EscEnds(str);
      } else {
        KeyTwiceTrial(s.open, s.next, s.lex.str, "\"\": 1");
      }
    } else {
      MemberSteps(s, last.value);
      if s.lex.InNum? {
        NumEnds(str);
      } else {
        MemberTrialsHold(s);
      }
    }
  }

  lemma MemberKinds(s: State)
    requires s.State? && Good(s) && (ExpectsKey(s.next) || s.next == AfterValue || (s.lex.InNum? && NumDone(s.lex.num)))
    ensures s.lex.InStr? ==> ExpectsKey(s.next) && s == State(s.open, s.next, InStr(s.lex.str))
    ensures s.lex.InNum? ==> NumDone(s.lex.num) && !ExpectsKey(s.next) && s.next != AfterValue
    ensures !s.lex.InWord?
    ensures s.lex == Idle ==> s.next == FirstKey || s.next == NextKey || s.next == AfterValue
    ensures ExpectsKey(s.next) <==> s.next == FirstKey || s.next == NextKey
  {
  }

  // ---------- the code ----------

  function ClosingOf(stack: seq<Element>): string {
    if stack == [] then ""
    else
      BracketOf(stack[|stack| - 1]) + ClosingOf(stack[..|stack| - 1])
  }

  lemma ClosingPush(outer: seq<Element>, e: Element)
    ensures ClosingOf(outer + [e]) == BracketOf(e) + ClosingOf(outer)
  {
    assert (outer + [e])[..|outer|] == outer;
  }

  lemma StackPush(open: seq<Kind>, pending: bool)
    requires open != []
    ensures StackFor(open, pending) ==
            var outer := StackFor(Pop(open), true);
            if Top(open) == Arr then outer + [ArrayOpen]
            else if pending then (outer + [ObjectOpen]) + [KeyOpen]
            else outer + [ObjectOpen]
  {
    var outer := StackFor(Pop(open), true);
    assert outer + [ObjectOpen, KeyOpen] == (outer + [ObjectOpen]) + [KeyOpen];
  }

  lemma {:induction false} ClosingOfStack(open: seq<Kind>, pending: bool)
    ensures ClosingOf(StackFor(open, pending)) == CloseOf(open)
    decreases |open|
  {
    if open != [] {
      hide StackFor, ClosingOf;
      var outer := StackFor(Pop(open), true);
      ClosingOfStack(Pop(open), true);
      StackPush(open, pending);
      ClosingPush(outer, if Top(open) == Arr then ArrayOpen else ObjectOpen);
      ClosingPush(outer + [ObjectOpen], KeyOpen);
      assert "" + ClosingOf(outer + [ObjectOpen]) == ClosingOf(outer + [ObjectOpen]);
    }
  }

  function BracketOf(e: Element): string {
    match e
    case ObjectOpen => "}"
    case ArrayOpen => "]"
    case KeyOpen => ""
  }

  lemma ClosingStep(before: string, stack: seq<Element>, i: nat)
    requires 0 < i <= |stack|
    ensures before + ClosingOf(stack[..i]) == before + BracketOf(stack[i - 1]) + ClosingOf(stack[..i - 1])
  {
    assert stack[..i][..i - 1] == stack[..i - 1];
  }

  method BuildClosing(stack: seq<Element>) returns (closing: string)
    ensures closing == ClosingOf(stack)
  {
    closing := "";
    var i := |stack|;
    assert stack[..i] == stack;
    while i > 0
      invariant 0 <= i <= |stack|
      invariant closing + ClosingOf(stack[..i]) == ClosingOf(stack)
    {
      ClosingStep(closing, stack, i);
      match stack[i - 1] {
        case ObjectOpen => closing := closing + "}";
        case ArrayOpen => closing := closing + "]";
        case KeyOpen => assert closing + "" == closing;
      }
      i := i - 1;
    }
  }

  /** The element on top of the stack, by the state. */
  lemma StackTop(s: State)
    requires s.State? && s.open != [] && Good(s)
    ensures var stack := StackOf(AtEnd(s));
      && stack != []
      && (stack[|stack| - 1] == ArrayOpen <==> Top(s.open) == Arr)
      && (stack[|stack| - 1] == KeyOpen <==>
          Top(s.open) == Obj && (s.next == Colon || s.next == Value) && !(s.lex.InNum? && NumDone(s.lex.num)))
      && (stack[|stack| - 1] == ObjectOpen ==>
            Top(s.open) == Obj && (ExpectsKey(s.next) || s.next == AfterValue || (s.lex.InNum? && NumDone(s.lex.num))))
  {
  }

  lemma TextTrial(str: string, text: string, more: string)
    requires Run(START, str).State? && text == str + more + CloseOf(Run(START, str).open)
    ensures CanParse(text) <==> Trial(Run(START, str), more)
  {
    TrialIs(str, more);
  }

  /** A text that fails is no document, whatever follows. */
  lemma NoTrial(str: string, text: string)
    requires Run(START, str).Fail? && str <= text
    ensures !CanParse(text)
  {
    var rest := text[|str|..];
    assert text == str + rest;
    RunConcat(START, str, rest);
    RunFails(rest);
  }

  lemma NoValueTrial(str: string, padding: string, closing: string)
    requires Run(START, str).Fail?
    ensures !CanParse(str + "1" + closing) && !CanParse(str + ": 1" + closing) && !CanParse(str + closing)
    ensures !CanParse(str + "\"" + closing) && !CanParse(str + "\\\"" + closing)
    ensures !CanParse(str + padding + "\"" + closing) && !CanParse(str + ", 1" + closing)
  {
    hide CanParse, Run;
    NoTrial(str, str + "1" + closing);
    NoTrial(str, str + ": 1" + closing);
    NoTrial(str, str + closing);
    NoTrial(str, str + "\"" + closing);
    NoTrial(str, str + "\\\"" + closing);
    NoTrial(str, str + padding + "\"" + closing);
    NoTrial(str, str + ", 1" + closing);
  }

  lemma NoMemberTrial(str: string, padding: string, closing: string)
    requires Run(START, str).Fail?
    ensures !CanParse(str + closing) && !CanParse(str + "\"\": 1" + closing) && !CanParse(str + ",\"\": 1" + closing)
    ensures !CanParse(str + "\": 1" + closing) && !CanParse(str + "\\\": 1" + closing)
    ensures !CanParse(str + padding + "\": 1" + closing)
  {
    hide CanParse, Run;
    NoTrial(str, str + closing);
    NoTrial(str, str + "\"\": 1" + closing);
    NoTrial(str, str + ",\"\": 1" + closing);
    NoTrial(str, str + "\": 1" + closing);
    NoTrial(str, str + "\\\": 1" + closing);
    NoTrial(str, str + padding + "\": 1" + closing);
  }

  /** A key's value is pending. */
  method HealValue(str: string, marker: string, closing: string, last: char, padding: string)
    returns (r: Outcome)
    requires var s := Run(START, str);
      s.State? ==>
        && s.open != [] && Top(s.open) == Obj && (s.next == Colon || s.next == Value)
        && !(s.lex.InNum? && NumDone(s.lex.num))
        && closing == CloseOf(s.open)
    requires LastNonSpace(str) == Some(last) && padding == Padding(str) && str != ""
    ensures var s := Run(START, str);
      r == if s.State? then Mended(str, marker, s) else CutBack(str, Obj, marker, closing)
  {
    ghost var s := Run(START, str);
    if s.State? {
      StringOpens(s) by { RunGood(START, str); }
      TrialsOfKey(str);
      QuoteTrials(str, "");
      ValueTrials(str, padding, closing);
      if s.lex == InStr(Esc) {
        EscEnds(str);
      }
      MendedValue(str, marker);
    } else {
      NoValueTrial(str, padding, closing);
    }
    hide *;
    if last == ':' && CanParse(str + "1" + closing) {
      return Parsed(str + ("\"" + marker) + "\"" + closing, "\"" + marker);
    } else if CanParse(str + ": 1" + closing) {
      return Parsed(str + (":\"" + marker) + "\"" + closing, ":\"" + marker);
    } else if last == '{' && CanParse(str + closing) {
      return Parsed(str + ("\"" + marker) + "\": 1" + closing, "\"" + marker);
    } else if CanParse(str + "\"" + closing) {
      return Parsed(str + marker + "\"" + closing, marker);
    } else if str[|str| - 1] == '\\' && CanParse(str + "\\\"" + closing) {
      return Parsed(str + ("\\" + marker) + "\"" + closing, "\\" + marker);
    } else if CanParse(str + padding + "\"" + closing) {
      return Parsed(str + (padding + marker) + "\"" + closing, padding + marker);
    } else {
      return CutBack(str, Obj, marker, closing);
    }
  }

  lemma ValueTrials(str: string, padding: string, closing: string)
    requires var s := Run(START, str); s.State? && closing == CloseOf(s.open) && padding == Padding(str)
    ensures var s := Run(START, str);
      && (CanParse(str + "1" + closing) <==> Trial(s, "1"))
      && (CanParse(str + ": 1" + closing) <==> Trial(s, ": 1"))
      && (CanParse(str + closing) <==> Trial(s, ""))
      && (CanParse(str + "\"" + closing) <==> Trial(s, ['"'] + ""))
      && (CanParse(str + "\\\"" + closing) <==> Trial(s, ['\\', '"'] + ""))
      && (CanParse(str + padding + "\"" + closing) <==> Trial(s, padding + (['"'] + "")))
  {
    hide CanParse, Trial, Padding, Run;
    TextTrial(str, str + "1" + closing, "1");
    TextTrial(str, str + ": 1" + closing, ": 1");
    assert str + closing == str + "" + closing;
    TextTrial(str, str + closing, "");
    assert ['"'] + "" == "\"" && ['\\', '"'] + "" == "\\\"";
    TextTrial(str, str + "\"" + closing, ['"'] + "");
    TextTrial(str, str + "\\\"" + closing, ['\\', '"'] + "");
    assert str + padding + "\"" + closing == str + (padding + (['"'] + "")) + closing;
    TextTrial(str, str + padding + "\"" + closing, padding + (['"'] + ""));
  }

  lemma MendedValue(str: string, marker: string)
    requires var s := Run(START, str);
      && s.State? && s.open != [] && Top(s.open) == Obj && (s.next == Colon || s.next == Value)
    ensures var s, m := Run(START, str), Mended(str, marker, Run(START, str));
      var close := CloseOf(s.open);
      && (s.lex == Idle && s.next == Value ==> m == Parsed(str + ("\"" + marker) + "\"" + close, "\"" + marker))
      && (s.lex == Idle && s.next == Colon ==> m == Parsed(str + (":\"" + marker) + "\"" + close, ":\"" + marker))
      && (s.lex == InStr(Plain) ==> m == Parsed(str + marker + "\"" + close, marker))
      && (s.lex == InStr(Esc) ==> m == Parsed(str + ("\\" + marker) + "\"" + close, "\\" + marker))
      && (s.lex.InStr? && s.lex.str != Plain && s.lex.str != Esc && !Unfilled(str, s.lex.str) ==>
            m == Parsed(str + (Padding(str) + marker) + "\"" + close, Padding(str) + marker))
      && (s.lex.InStr? && s.lex.str != Plain && s.lex.str != Esc && Unfilled(str, s.lex.str) ==>
            m == CutBack(str, Obj, marker, close))
      && (s.lex.InNum? || s.lex.InWord? ==> m == CutBack(str, Obj, marker, close))
  {
    hide Run, CloseOf, Parsed, CutBack, Padding, Unfilled;
  }

  /** The innermost container is an array. */
  method HealItem(str: string, marker: string, closing: string, last: char, padding: string)
    returns (r: Outcome)
    requires var s := Run(START, str);
      s.State? ==> s.open != [] && Top(s.open) == Arr && closing == CloseOf(s.open)
    requires LastNonSpace(str) == Some(last) && padding == Padding(str) && str != ""
    ensures var s := Run(START, str);
      r == if s.State? then Mended(str, marker, s) else CutBack(str, Arr, marker, closing)
  {
    ghost var s := Run(START, str);
    if s.State? {
      ItemKinds(s) by { RunGood(START, str); }
      TrialsOfItem(str);
      QuoteTrials(str, "");
      ItemTrials(str, padding, closing);
      if s.lex == InStr(Esc) {
        EscEnds(str);
      }
      MendedItem(str, marker);
    } else {
      NoValueTrial(str, padding, closing);
    }
    hide *;
    if (last == ',' || last == '[') && CanParse(str + "1" + closing) {
      return Parsed(str + ("\"" + marker) + "\"" + closing, "\"" + marker);
    } else if CanParse(str + "\"" + closing) {
      return Parsed(str + marker + "\"" + closing, marker);
    } else if str[|str| - 1] == '\\' && CanParse(str + "\\\"" + closing) {
      return Parsed(str + ("\\" + marker) + "\"" + closing, "\\" + marker);
    } else if CanParse(str + padding + "\"" + closing) {
      return Parsed(str + (padding + marker) + "\"" + closing, padding + marker);
    } else if !MaybeNumber(str) && CanParse(str + ", 1" + closing) {
      return Parsed(str + (",\"" + marker) + "\"" + closing, ",\"" + marker);
    } else {
      return CutBack(str, Arr, marker, closing);
    }
  }

  lemma ItemKinds(s: State)
    requires Good(s)
    ensures s.State? && s.open != [] && Top(s.open) == Arr ==> !ExpectsKey(s.next) && s.next != Colon
  {
  }

  lemma ItemTrials(str: string, padding: string, closing: string)
    requires var s := Run(START, str); s.State? && closing == CloseOf(s.open) && padding == Padding(str)
    ensures var s := Run(START, str);
      && (CanParse(str + "1" + closing) <==> Trial(s, "1"))
      && (CanParse(str + ", 1" + closing) <==> Trial(s, ", 1"))
      && (CanParse(str + "\"" + closing) <==> Trial(s, ['"'] + ""))
      && (CanParse(str + "\\\"" + closing) <==> Trial(s, ['\\', '"'] + ""))
      && (CanParse(str + padding + "\"" + closing) <==> Trial(s, padding + (['"'] + "")))
  {
    hide CanParse, Trial, Padding, Run;
    ValueTrials(str, padding, closing);
    TextTrial(str, str + ", 1" + closing, ", 1");
  }

  lemma MendedItem(str: string, marker: string)
    requires var s := Run(START, str);
      s.State? && s.open != [] && Top(s.open) == Arr && !ExpectsKey(s.next) && s.next != Colon
    ensures var s, m := Run(START, str), Mended(str, marker, Run(START, str));
      var close := CloseOf(s.open);
      && (s.lex == Idle && ExpectsValue(s.next) ==> m == Parsed(str + ("\"" + marker) + "\"" + close, "\"" + marker))
      && (s.lex == InStr(Plain) ==> m == Parsed(str + marker + "\"" + close, marker))
      && (s.lex == InStr(Esc) ==> m == Parsed(str + ("\\" + marker) + "\"" + close, "\\" + marker))
      && (s.lex.InStr? && s.lex.str != Plain && s.lex.str != Esc && !Unfilled(str, s.lex.str) ==>
            m == Parsed(str + (Padding(str) + marker) + "\"" + close, Padding(str) + marker))
      && (s.lex.InStr? && s.lex.str != Plain && s.lex.str != Esc && Unfilled(str, s.lex.str) ==>
            m == CutBack(str, Arr, marker, close))
      && (s.lex.InNum? || s.lex.InWord? ==> m == CutBack(str, Arr, marker, close))
      && (s.lex == Idle && s.next == AfterValue ==>
            m == if MaybeNumber(str) then CutBack(str, Arr, marker, close)
                 else Parsed(str + (",\"" + marker) + "\"" + close, ",\"" + marker))
  {
    hide Run, CloseOf, Parsed, CutBack, Padding, Unfilled, MaybeNumber;
  }

  /** The innermost container is an object, and no key is pending. */
  method HealMember(str: string, marker: string, closing: string, last: char, padding: string)
    returns (r: Outcome)
    requires var s := Run(START, str);
      s.State? ==>
        && s.open != [] && Top(s.open) == Obj
        && (ExpectsKey(s.next) || s.next == AfterValue || (s.lex.InNum? && NumDone(s.lex.num)))
        && closing == CloseOf(s.open)
    requires LastNonSpace(str) == Some(last) && padding == Padding(str) && str != ""
    ensures var s := Run(START, str);
      r == if s.State? then Mended(str, marker, s) else CutBack(str, Obj, marker, closing)
  {
    ghost var s := Run(START, str);
    if s.State? {
      MemberKinds(s) by { RunGood(START, str); }
      TrialsOfMember(str);
      QuoteTrials(str, ": 1");
      MemberTrials(str, padding, closing);
      if s.lex == InStr(Esc) {
        EscEnds(str);
      }
      if s.lex.InNum? {
        NumEnds(str);
      }
      MendedMember(str, marker);
    } else {
      NoMemberTrial(str, padding, closing);
    }
    hide *;
    if (last == '{' && CanParse(str + closing)) || (last == ',' && CanParse(str + "\"\": 1" + closing)) {
      return Parsed(str + ("\"" + marker) + "\": 1" + closing, "\"" + marker);
    } else if !MaybeNumber(str) && CanParse(str + ",\"\": 1" + closing) {
      return Parsed(str + (",\"" + marker) + "\": 1" + closing, ",\"" + marker);
    } else if CanParse(str + "\": 1" + closing) {
      return Parsed(str + marker + "\": 1" + closing, marker);
    } else if str[|str| - 1] == '\\' && CanParse(str + "\\\": 1" + closing) {
      return Parsed(str + ("\\" + marker) + "\": 1" + closing, "\\" + marker);
    } else if CanParse(str + padding + "\": 1" + closing) {
      return Parsed(str + (padding + marker) + "\": 1" + closing, padding + marker);
    } else {
      return CutBack(str, Obj, marker, closing);
    }
  }

  lemma MemberTrials(str: string, padding: string, closing: string)
    requires var s := Run(START, str); s.State? && closing == CloseOf(s.open) && padding == Padding(str)
    ensures var s := Run(START, str);
      && (CanParse(str + closing) <==> Trial(s, ""))
      && (CanParse(str + "\"\": 1" + closing) <==> Trial(s, "\"\": 1"))
      && (CanParse(str + ",\"\": 1" + closing) <==> Trial(s, ",\"\": 1"))
      && (CanParse(str + "\": 1" + closing) <==> Trial(s, ['"'] + ": 1"))
      && (CanParse(str + "\\\": 1" + closing) <==> Trial(s, ['\\', '"'] + ": 1"))
      && (CanParse(str + padding + "\": 1" + closing) <==> Trial(s, padding + (['"'] + ": 1")))
  {
    hide CanParse, Trial, Padding, Run;
    assert str + closing == str + "" + closing;
    TextTrial(str, str + closing, "");
    TextTrial(str, str + "\"\": 1" + closing, "\"\": 1");
    TextTrial(str, str + ",\"\": 1" + closing, ",\"\": 1");
    assert ['"'] + ": 1" == "\": 1" && ['\\', '"'] + ": 1" == "\\\": 1";
    TextTrial(str, str + "\": 1" + closing, ['"'] + ": 1");
    TextTrial(str, str + "\\\": 1" + closing, ['\\', '"'] + ": 1");
    assert str + padding + "\": 1" + closing == str + (padding + (['"'] + ": 1")) + closing;
    TextTrial(str, str + padding + "\": 1" + closing, padding + (['"'] + ": 1"));
  }

  lemma MendedMember(str: string, marker: string)
    requires var s := Run(START, str);
      && s.State? && s.open != [] && Top(s.open) == Obj && !s.lex.InWord?
      && (s.lex.InStr? ==> ExpectsKey(s.next))
      && (s.lex == Idle ==> s.next == FirstKey || s.next == NextKey || s.next == AfterValue)
    ensures var s, m := Run(START, str), Mended(str, marker, Run(START, str));
      var close := CloseOf(s.open);
      && (s.lex == Idle && ExpectsKey(s.next) ==> m == Parsed(str + ("\"" + marker) + "\": 1" + close, "\"" + marker))
      && (s.lex == InStr(Plain) ==> m == Parsed(str + marker + "\": 1" + close, marker))
      && (s.lex == InStr(Esc) ==> m == Parsed(str + ("\\" + marker) + "\": 1" + close, "\\" + marker))
      && (s.lex.InStr? && s.lex.str != Plain && s.lex.str != Esc && !Unfilled(str, s.lex.str) ==>
            m == Parsed(str + (Padding(str) + marker) + "\": 1" + close, Padding(str) + marker))
      && (s.lex.InStr? && s.lex.str != Plain && s.lex.str != Esc && Unfilled(str, s.lex.str) ==>
            m == CutBack(str, Obj, marker, close))
      && (s.lex.InNum? ==> m == CutBack(str, Obj, marker, close))
      && (s.lex == Idle && s.next == AfterValue ==>
            m == if MaybeNumber(str) then CutBack(str, Obj, marker, close)
                 else Parsed(str + (",\"" + marker) + "\": 1" + close, ",\"" + marker))
  {
    hide Run, CloseOf, Parsed, CutBack, Padding, Unfilled, MaybeNumber;
  }

  /** A string at the top level, outside all containers. */
  method HealRoot(str: string, marker: string) returns (r: Outcome)
    requires var s := Run(START, str); s.State? ==> s.open == []
    requires str != "" && marker != ""
    ensures r == Rooted(str, marker)
  {
    ghost var s := Run(START, str);
    if s.State? {
      RootKinds(s) by { RunGood(START, str); }
      QuoteTrials(str, "");
      RootTrials(str);
      if s.lex == InStr(Esc) {
        EscEnds(str);
      }
    } else {
      NoTrial(str, str + "\"");
      NoTrial(str, str + "\\\"");
    }
    RootedIs(str, marker);
    hide *;
    if CanParse(str + "\"") {
      return Parsed(str + marker + "\"", marker);
    } else if str[|str| - 1] == '\\' && CanParse(str + "\\\"") {
      return Parsed(str + ("\\" + marker) + "\"", "\\" + marker);
    } else {
      return Refused;
    }
  }

  lemma RootedIs(str: string, marker: string)
    ensures var s, p := Run(START, str), Rooted(str, marker);
      && (s.State? && s.lex == InStr(Plain) ==> p == Parsed(str + marker + "\"", marker))
      && (s.State? && s.lex == InStr(Esc) ==> p == Parsed(str + ("\\" + marker) + "\"", "\\" + marker))
      && (!s.State? || (s.lex != InStr(Plain) && s.lex != InStr(Esc)) ==> p == Refused)
  {
    hide CanParse, Run, Parsed;
  }

  lemma RootKinds(s: State)
    requires Good(s)
    ensures s.State? && s.open == [] ==> !ExpectsKey(s.next)
  {
  }

  lemma RootTrials(str: string)
    requires var s := Run(START, str); s.State? && s.open == []
    ensures var s := Run(START, str);
      && (CanParse(str + "\"") <==> Trial(s, ['"'] + ""))
      && (CanParse(str + "\\\"") <==> Trial(s, ['\\', '"'] + ""))
  {
    assert CloseOf([]) == "";
    hide CanParse, Trial, Run, CloseOf;
    assert str + "\"" == str + (['"'] + "") + "" && str + "\\\"" == str + (['\\', '"'] + "") + "";
    TextTrial(str, str + "\"", ['"'] + "");
    TextTrial(str, str + "\\\"", ['\\', '"'] + "");
  }

  /** common_json_parse: the trials come to what the state of the parser calls for. */
  method CommonJsonParse(input: string, marker: string) returns (r: Outcome)
    ensures r == Plan(input, marker)
  {
    hide Run, Mended, LastNonSpace, Padding, CloseOf, ClosingOf, LastFits, Rooted, ErrorAt, Taken, CutBack;
    var locator := new JsonErrorLocator();
    var s := locator.SaxParse(input);
    if !locator.foundError {
      return Whole(input);
    }
    ErrorIs(input);
    var str := input[..locator.position];
    if CanParse(str) {
      return Whole(str);
    }
    NothingRead();
    NothingToRoot(marker);
    StoppedState(input, s);
    if s.open != [] {
      StackTop(s);
      ClosingOfStack(s.open, AtEnd(s).next == Value || AtEnd(s).next == Colon);
    } else {
      RootStack(s);
    }
    if marker != "" && locator.stack != [] {
      var last := LastNonSpace(str);
      if last.None? {
        return Throws;
      }
      assert str != "";
      var closing := BuildClosing(locator.stack);
      var padding := Padding(str);
      match locator.stack[|locator.stack| - 1] {
        case KeyOpen => r := HealValue(str, marker, closing, last.value, padding);
        case ArrayOpen => r := HealItem(str, marker, closing, last.value, padding);
        case ObjectOpen => r := HealMember(str, marker, closing, last.value, padding);
      }
      return;
    }
    if str != "" && marker != "" && locator.stack == [] {
      r := HealRoot(str, marker);
      return;
    }
    r := Refused;
  }

  /** Where the parser stands at the error, and what the text before it holds. */
  lemma StoppedState(input: string, s: State)
    requires s == Run(START, input[..Taken(START, input)])
    ensures var str := input[..ErrorAt(input)];
      && s.State? && Good(s)
      && (Run(START, str).State? ==> Run(START, str) == s)
      && (s.open != [] ==> LastNonSpace(str).Some?)
  {
    var taken, str := input[..Taken(START, input)], input[..ErrorAt(input)];
    ErrorIs(input);
    RunLastFits(taken);
    hide Run, ErrorAt, Taken, LastNonSpace, LastFits;
    assert taken <= str;
    if s.open != [] {
      LastNonSpaceBehind(taken, str);
    }
  }

  lemma {:induction false} LastNonSpaceBehind(a: string, b: string)
    requires a <= b && LastNonSpace(a).Some?
    ensures LastNonSpace(b).Some?
    decreases |b|
  {
    if |a| < |b| {
      LastNonSpaceBehind(a, b[..|b| - 1]);
    } else {
      assert a == b;
    }
  }

  lemma NothingToRoot(marker: string)
    ensures Rooted("", marker) == Refused
  {
  }

  lemma NothingRead()
    ensures Run(START, "") == START && LastNonSpace("") == None
  {
  }

  lemma RootStack(s: State)
    requires s.State? && s.open == []
    ensures StackOf(AtEnd(s)) == []
  {
  }
}
