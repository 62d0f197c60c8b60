/** What becomes of a text cut off when something is put behind it: the trials by which healing finds
    out where the text stopped. */
module JsonTrials {
  import opened Text
  import opened JsonText

  // ---------- closing ----------

  function Bracket(k: Kind): char {
    if k == Arr then ']' else '}'
  }

  /** The brackets that close the containers, innermost first. */
  function CloseOf(open: seq<Kind>): string
    decreases |open|
  {
    if open == [] then "" else [Bracket(Top(open))] + CloseOf(Pop(open))
  }

  lemma {:induction false} CloseRuns(open: seq<Kind>)
    ensures Run(Done(open), CloseOf(open)) == Done([])
    decreases |open|
  {
    if open != [] {
      CloseRuns(Pop(open));
      RunFirst(Done(open), Bracket(Top(open)), CloseOf(Pop(open)));
    }
  }

  /** The text is a document once `more` is put behind the state and everything is closed. */
  predicate Trial(s: State, more: string)
    requires s.State?
  {
    AtEnd(Run(s, more + CloseOf(s.open))) == Done([])
  }

  lemma TrialIs(text: string, more: string)
    requires Run(START, text).State?
    ensures CanParse(text + more + CloseOf(Run(START, text).open)) <==> Trial(Run(START, text), more)
  {
    var close := CloseOf(Run(START, text).open);
    assert text + more + close == text + (more + close);
    RunConcat(START, text, more + close);
  }

  /** A number begun where a value may stand is closed like any value. */
  lemma NumCloses(open: seq<Kind>, e: Expect, n: NumState)
    requires NumDone(n) && open != []
    ensures Run(State(open, e, InNum(n)), CloseOf(open)) == Done([])
  {
    var close := CloseOf(Pop(open));
    CloseRuns(open);
    RunFirst(State(open, e, InNum(n)), Bracket(Top(open)), close);
    RunFirst(Done(open), Bracket(Top(open)), close);
    assert Step(State(open, e, InNum(n)), Bracket(Top(open))) == Step(Done(open), Bracket(Top(open)));
  }

  // ---------- quotes ----------

  predicate NoQuotes(s: string) {
    forall k :: 0 <= k < |s| ==> s[k] != '"'
  }

  lemma {:induction false} CloseNoQuotes(open: seq<Kind>)
    ensures NoQuotes(CloseOf(open))
    decreases |open|
  {
    if open != [] {
      CloseNoQuotes(Pop(open));
    }
  }

  lemma BothNoQuotes(a: string, b: string)
    requires NoQuotes(a) && NoQuotes(b)
    ensures NoQuotes(a + b)
  {
  }

  /** Without a quote a string does not end. */
  lemma {:induction false} StaysInside(s: State, text: string)
    requires s.State? && s.lex.InStr? && NoQuotes(text)
    ensures Run(s, text).State? ==> Run(s, text).lex.InStr?
    decreases |text|
  {
    if text != "" {
      var t := Step(s, text[0]);
      if t.State? {
        StaysInside(t, text[1..]);
      } else {
        RunFails(text[1..]);
      }
    }
  }

  /** Without a quote no string begins. */
  lemma {:induction false} StaysOutside(s: State, text: string)
    requires (s.State? ==> !s.lex.InStr?) && NoQuotes(text)
    ensures Run(s, text).State? ==> !Run(s, text).lex.InStr?
    decreases |text|
  {
    if text != "" {
      StaysOutside(Step(s, text[0]), text[1..]);
    }
  }

  /** In a string, a trial without quotes fails. */
  lemma NoQuoteInside(s: State, more: string)
    requires s.State? && s.lex.InStr? && NoQuotes(more)
    ensures !Trial(s, more)
  {
    CloseNoQuotes(s.open);
    StaysInside(s, more + CloseOf(s.open));
  }

  /** Outside strings, a single quote begins a string that does not end. */
  lemma OneQuote(s: State, a: string, rest: string)
    requires Good(s) && (s.State? ==> !s.lex.InStr?) && NoQuotes(a) && NoQuotes(rest)
    ensures var end := Run(s, a + (['"'] + rest));
      end.State? ==> end.lex.InStr?
  {
    StaysOutside(s, a);
    RunGood(s, a);
    var t := Run(s, a);
    RunConcat(s, a, ['"'] + rest);
    RunFirst(t, '"', rest);
    QuoteBegins(t);
    if Step(t, '"').State? {
      StaysInside(Step(t, '"'), rest);
    } else {
      RunFails(rest);
    }
  }

  /** Outside strings, a trial with a single quote fails. */
  lemma OneQuoteOutside(s: State, more: string, a: string, b: string)
    requires s.State? && Good(s) && !s.lex.InStr? && more == a + ['"'] + b && NoQuotes(a) && NoQuotes(b)
    ensures !Trial(s, more)
  {
    hide *;
    var rest := b + CloseOf(s.open);
    CloseNoQuotes(s.open);
    BothNoQuotes(b, CloseOf(s.open));
    OneQuote(s, a, rest);
    assert more + CloseOf(s.open) == a + (['"'] + rest);
    Rejected(s, more, Run(s, more + CloseOf(s.open)));
  }

  /** A trial that fails or ends within a string is rejected. */
  lemma Rejected(s: State, more: string, end: State)
    requires s.State? && Run(s, more + CloseOf(s.open)) == end
    requires end.State? ==> end.lex.InStr?
    ensures !Trial(s, more)
  {
  }

  lemma QuoteBegins(t: State)
    requires Good(t) && (t.State? ==> !t.lex.InStr?)
    ensures Step(t, '"').State? ==> Step(t, '"').lex.InStr?
  {
    if t.State? && t.lex.InNum? {
      assert NumStep(t.lex.num, '"').None?;
    }
  }

  // ---------- trials within a string ----------

  /** Outside plain text a string has no use for a character that is no digit, letter or escape. */
  lemma NoStep(st: StrState, c: char)
    requires st != Plain && (c == '"' || c == ',' || c == '\\')
    ensures StrStep(st, c).Some? ==> (st == Esc && c != ',') || (st.High? && c == '\\')
  {
  }

  /** What a character does to a string that has more to say about it. */
  lemma StrStepped(open: seq<Kind>, e: Expect, st: StrState, c: char, rest: string)
    requires st != Plain || c != '"'
    ensures var r := StrStep(st, c);
      Run(State(open, e, InStr(st)), [c] + rest) ==
      if r.Some? then Run(State(open, e, InStr(r.value)), rest) else Fail
  {
    RunFirst(State(open, e, InStr(st)), c, rest);
    RunFails(rest);
  }

  lemma StrEnds(open: seq<Kind>, e: Expect, rest: string)
    ensures Run(State(open, e, InStr(Plain)), ['"'] + rest) == Run(EndString(open, e), rest)
  {
    RunFirst(State(open, e, InStr(Plain)), '"', rest);
  }

  lemma KeyValueRuns(open: seq<Kind>)
    requires open != []
    ensures Run(State(open, Colon, Idle), ": 1" + CloseOf(open)) == Done([])
    ensures Run(State(open, Value, Idle), "1" + CloseOf(open)) == Done([])
  {
    var close := CloseOf(open);
    var s0, s1 := State(open, Colon, Idle), State(open, Value, Idle);
    assert ": 1" + close == [':'] + ([' '] + (['1'] + close)) && "1" + close == ['1'] + close;
    RunFirst(s0, ':', [' '] + (['1'] + close));
    RunFirst(s1, ' ', ['1'] + close);
    RunFirst(s1, '1', close);
    NumCloses(open, Value, Int);
  }

  /** A quote ends a plain string, and only a plain one. */
  lemma QuoteTrial(open: seq<Kind>, e: Expect, st: StrState, more: string, rest: string)
    requires more == ['"'] + rest && NoQuotes(rest)
    ensures Trial(State(open, e, InStr(st)), more) <==>
            st == Plain && AtEnd(Run(EndString(open, e), rest + CloseOf(open))) == Done([])
  {
    var s, close := State(open, e, InStr(st)), CloseOf(open);
    assert more + close == ['"'] + (rest + close);
    if st == Plain {
      StrEnds(open, e, rest + close);
    } else {
      StrStepped(open, e, st, '"', rest + close);
      CloseNoQuotes(open);
      var r := StrStep(st, '"');
      if r.Some? {
        StaysInside(State(open, e, InStr(r.value)), rest + close);
      }
    }
  }

  /** A backslash and a quote end a string stopped behind a backslash, and only such a one. */
  lemma BackslashTrial(open: seq<Kind>, e: Expect, st: StrState, more: string, rest: string)
    requires more == ['\\', '"'] + rest && NoQuotes(rest) && st != Plain
    ensures Trial(State(open, e, InStr(st)), more) <==>
            st == Esc && AtEnd(Run(EndString(open, e), rest + CloseOf(open))) == Done([])
  {
    var close := CloseOf(open);
    assert more + close == ['\\'] + (['"'] + (rest + close));
    StrStepped(open, e, st, '\\', ['"'] + (rest + close));
    NoStep(st, '\\');
    if st == Esc {
      StrEnds(open, e, rest + close);
    } else if st.High? {
      StrStepped(open, e, HighEsc(st.ds), '"', rest + close);
      Rejected(State(open, e, InStr(st)), more, Fail);
    } else {
      Rejected(State(open, e, InStr(st)), more, Fail);
    }
  }

  /** Two quotes with something between them that no key may have behind it. */
  lemma KeyTwiceTrial(open: seq<Kind>, e: Expect, st: StrState, more: string)
    requires ExpectsKey(e)
    requires more == ",\"\": 1" || (more == "\"\": 1" && st != Esc)
    ensures !Trial(State(open, e, InStr(st)), more)
  {
    var s, tail := State(open, e, InStr(st)), ": 1" + CloseOf(open);
    var quoted := ['"'] + (['"'] + tail);
    if st == Plain {
      StrEnds(open, e, ['"'] + tail);
      RunFirst(State(open, Colon, Idle), '"', tail);
      RunFails(tail);
    }
    if st != Plain {
      NoStep(st, ',');
      NoStep(st, '"');
    }
    if more == ",\"\": 1" {
      assert more + CloseOf(open) == [','] + quoted;
      StrStepped(open, e, st, ',', quoted);
    } else {
      assert more + CloseOf(open) == quoted;
      if st != Plain {
        StrStepped(open, e, st, '"', ['"'] + tail);
      }
    }
    Rejected(s, more, Fail);
  }
}
