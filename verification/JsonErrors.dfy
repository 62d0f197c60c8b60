/** Where the parser tells of an error: it has read on to the end of the token that may not stand there. */
module JsonErrors {
  import opened JsonText

  /** How much of the text the parser takes before it fails. */
  function Taken(s: State, t: string): (n: nat)
    requires s.State?
    ensures n <= |t|
    decreases |t|
  {
    if t == "" || Step(s, t[0]).Fail? then 0 else 1 + Taken(Step(s, t[0]), t[1..])
  }

  /** What is taken does not fail, and the next character does. */
  lemma {:induction false} TakenRuns(s: State, t: string)
    requires s.State?
    ensures var n := Taken(s, t);
      && Run(s, t[..n]).State? && (n < |t| ==> Step(Run(s, t[..n]), t[n]).Fail?)
      && (Run(s, t).State? <==> n == |t|)
    decreases |t|
  {
    hide Step;
    if t == "" {
      assert t[..0] == "";
    } else if Step(s, t[0]).Fail? {
      assert t[..0] == "";
      RunFails(t[1..]);
    } else {
      var n, rest := Taken(s, t), t[1..];
      TakenRuns(Step(s, t[0]), rest);
      assert t[..n][1..] == rest[..n - 1];
    }
  }

  // ---------- a token that is read ----------

  /** The characters of a string that are read before the last one, its quote or one that may not stand there. */
  function StringRead(st: StrState, t: string): (n: nat)
    ensures n <= |t|
    decreases |t|
  {
    if t == "" || (st == Plain && t[0] == '"') || StrStep(st, t[0]).None? then 0
    else 1 + StringRead(StrStep(st, t[0]).value, t[1..])
  }

  function WordRead(w: string, t: string): (n: nat)
    ensures n <= |t|
    decreases |t|
  {
    if t == "" || w == "" || t[0] != w[0] || |w| == 1 then 0 else 1 + WordRead(w[1..], t[1..])
  }

  /** A number is read up to what does not belong to it, which is put back when the number is complete. */
  function NumberRead(n: NumState, t: string): (r: nat)
    ensures r <= |t| + 1
    decreases |t|
  {
    if t != "" && NumStep(n, t[0]).Some? then 1 + NumberRead(NumStep(n, t[0]).value, t[1..])
    else if NumDone(n) then 0
    else 1
  }

  /** How much is read of a token that may not stand here, the last character apart. */
  function TokenRead(t: string): (n: nat)
    requires t != ""
    ensures n <= |t|
  {
    var c, rest := t[0], t[1..];
    if c == '"' then 1 + StringRead(Plain, rest)
    else if NumStart(c).Some? then NumberRead(NumStart(c).value, rest)
    else if WordStart(c).Some? then 1 + WordRead(WordStart(c).value, rest)
    else 0
  }

  /** A token is over: it has failed, or is complete, a number before what does not belong to it. */
  predicate TokenOver(s: State, next: string) {
    || s.Fail? || s.lex == Idle
    || (s.lex.InNum? && NumDone(s.lex.num) && (next == "" || NumStep(s.lex.num, next[0]).None?))
  }

  lemma {:induction false} StringStays(open: seq<Kind>, st: StrState, t: string)
    ensures var n := StringRead(st, t); var s := Run(State(open, Value, InStr(st)), t[..n]);
      && s.State? && s.lex.InStr?
      && (n < |t| ==> TokenOver(Run(State(open, Value, InStr(st)), t[..n + 1]), t[n + 1..]))
    decreases |t|
  {
    hide StrStep;
    var n := StringRead(st, t);
    if n == 0 {
      assert t[..0] == "";
      if t != "" {
        assert t[..1] == [t[0]] + "";
        RunFirst(State(open, Value, InStr(st)), t[0], "");
      }
    } else {
      StringStays(open, StrStep(st, t[0]).value, t[1..]);
      Shifted(t, n);
    }
  }

  lemma {:induction false} WordStays(open: seq<Kind>, w: string, t: string)
    requires w != ""
    ensures var n := WordRead(w, t); var s := Run(State(open, Value, InWord(w)), t[..n]);
      && s.State? && s.lex.InWord?
      && (n < |t| ==> TokenOver(Run(State(open, Value, InWord(w)), t[..n + 1]), t[n + 1..]))
    decreases |t|
  {
    var n := WordRead(w, t);
    if n == 0 {
      assert t[..0] == "";
      if t != "" {
        assert t[..1] == [t[0]] + "";
        RunFirst(State(open, Value, InWord(w)), t[0], "");
      }
    } else {
      WordStays(open, w[1..], t[1..]);
      Shifted(t, n);
    }
  }

  /** Here `r` counts from the first digit. */
  lemma {:induction false} NumberStays(open: seq<Kind>, num: NumState, t: string)
    ensures var r := NumberRead(num, t);
      && (r > 0 ==> var s := Run(State(open, Value, InNum(num)), t[..r - 1]); s.State? && s.lex.InNum?)
      && (r <= |t| ==> TokenOver(Run(State(open, Value, InNum(num)), t[..r]), t[r..]))
    decreases |t|
  {
    hide NumStep;
    var r := NumberRead(num, t);
    if t != "" && NumStep(num, t[0]).Some? {
      NumberStays(open, NumStep(num, t[0]).value, t[1..]);
      Shifted(t, r - 1);
      assert r > 1 ==> t[..r - 1][1..] == t[1..][..r - 2];
      assert t[..0] == "";
    } else {
      assert t[..0] == "";
      if r == 1 && t != "" {
        assert t[..1] == [t[0]] + "";
        RunFirst(State(open, Value, InNum(num)), t[0], "");
      }
    }
  }

  lemma Shifted(t: string, n: nat)
    requires t != ""
    ensures 0 < n <= |t| ==> t[..n][0] == t[0] && t[..n][1..] == t[1..][..n - 1]
    ensures n < |t| ==> t[..n + 1][0] == t[0] && t[..n + 1][1..] == t[1..][..n] && t[n + 1..] == t[1..][n..]
  {
  }

  /** What is read of a token that may not stand here is what would be read of it where a value may stand: up
      to `n` the token goes on, and with the character at `n` it is over. */
  lemma TokenStays(open: seq<Kind>, t: string)
    requires t != "" && t[0] != '{' && t[0] != '[' && !Blank(t[0])
    ensures var n := TokenRead(t);
      && (n > 0 ==> var s := Run(State(open, Value, Idle), t[..n]); s.State? && s.lex != Idle)
      && (n < |t| ==> TokenOver(Run(State(open, Value, Idle), t[..n + 1]), t[n + 1..]))
  {
    var c, rest, n, s := t[0], t[1..], TokenRead(t), Step(State(open, Value, Idle), t[0]);
    hide Run, StrStep, NumStep;
    Shifted(t, n);
    RunStarts(State(open, Value, Idle), t, n);
    RunStarts(State(open, Value, Idle), t, n + 1);
    if c == '"' {
      StringStays(open, Plain, rest);
    } else if NumStart(c).Some? {
      NumberStays(open, NumStart(c).value, rest);
    } else if WordStart(c).Some? {
      WordStays(open, WordStart(c).value, rest);
    } else {
      assert s.Fail?;
      RunFails(rest[..0]);
    }
  }

  lemma RunStarts(s: State, t: string, n: nat)
    requires t != ""
    ensures 0 < n <= |t| ==> Run(s, t[..n]) == Run(Step(s, t[0]), t[1..][..n - 1])
  {
    if 0 < n <= |t| {
      assert t[..n] == [t[0]] + t[1..][..n - 1];
      RunFirst(s, t[0], t[1..][..n - 1]);
    }
  }

  /** The parser stands within a token that is not complete. */
  predicate InToken(s: State)
    requires s.State?
  {
    s.lex.InStr? || s.lex.InWord? || (s.lex.InNum? && !NumDone(s.lex.num))
  }

  /** What is read before the last character, when the parser fails, or reaches the end of the input. */
  function ErrorAt(input: string): (p: nat)
    ensures p <= |input|
  {
    var n := Taken(START, input);
    var s := Run(START, input[..n]);
    if n == |input| || (s.State? && InToken(s)) then n else n + TokenRead(input[n..])
  }

  /** The text up to the error is what has been taken, or it goes on with a token that may not stand there,
      and then it begins no document. */
  lemma ErrorIs(input: string)
    ensures var n, p := Taken(START, input), ErrorAt(input);
      && n <= p && Run(START, input[..n]).State?
      && (Run(START, input).State? ==> n == p == |input|)
      && (p > n ==> Run(START, input[..p]).Fail?)
      && (n < |input| ==> Run(START, input).Fail?)
  {
    var n, p := Taken(START, input), ErrorAt(input);
    TakenRuns(START, input);
    hide Step, Taken, TokenRead;
    if n < |input| {
      FailsBeyond(input, n, |input|);
      assert input[..|input|] == input;
      if p > n {
        FailsBeyond(input, n, p);
      }
    }
  }

  lemma FailsBeyond(input: string, n: nat, p: nat)
    requires n < p <= |input| && Step(Run(START, input[..n]), input[n]).Fail?
    ensures Run(START, input[..p]).Fail?
  {
    hide Step;
    var taken, rest := input[..n], input[..p][n + 1..];
    assert input[..p] == taken + ([input[n]] + rest);
    RunConcat(START, taken, [input[n]] + rest);
    RunFirst(Run(START, taken), input[n], rest);
    RunFails(rest);
  }

  lemma NothingTaken(input: string)
    ensures input[..0] == "" && Run(START, "") == START && Taken(START, input) == 0 + Taken(START, input[0..])
  {
    assert input[0..] == input;
  }

  /** One character of a text of which `i` have been taken. */
  lemma TakenStep(input: string, i: nat, s: State)
    requires i < |input| && s.State? && s == Run(START, input[..i]) && Taken(START, input) == i + Taken(s, input[i..])
    ensures var t := Step(s, input[i]);
      if t.Fail? then Taken(START, input) == i && !CanParse(input)
      else t == Run(START, input[..i + 1]) && Taken(START, input) == i + 1 + Taken(t, input[i + 1..])
  {
    assert input[i..][1..] == input[i + 1..] && input[..i + 1] == input[..i] + [input[i]];
    RunLast(START, input[..i], input[i]);
    hide Step;
    if Step(s, input[i]).Fail? {
      ErrorIs(input);
    }
  }

  lemma AllTaken(input: string)
    ensures Taken(START, input) == |input| ==> Run(START, input).State? && ErrorAt(input) == |input|
    ensures CanParse(input) <==> AtEnd(Run(START, input)) == Done([])
    ensures input[..|input|] == input
  {
    assert input[..|input|] == input;
    ErrorIs(input);
  }
}
