/** Printer and parser of XML-style tool calls undo each other.

    The printer writes the shape that the generated grammar derives: inside the scope, one call
    after another, each with its name and its arguments between the form's delimiters. Printed
    texts carry the text that follows them, so that every step of the parser reads one piece off
    the front. */
module XmlRoundTrip {
  import opened Text
  import opened ChatDiff
  import opened ChatParser
  import opened XmlToolCall

  datatype Call = Call(name: string, args: Args)

  // ---------- the printer ----------

  function PrintSeparator2(form: Form, rest: string): string {
    match form.keyValSep2
    case None => rest
    case Some(sep) => "\n" + (sep + rest)
  }

  function PrintArgs(form: Form, args: Args, rest: string): string {
    if args == [] then rest
    else form.keyStart + (args[0].0 + (form.keyValSep + PrintSeparator2(form,
           args[0].1 + (form.valEnd + PrintArgs(form, args[1..], rest)))))
  }

  function PrintCall(form: Form, c: Call, rest: string): string {
    form.toolStart + (c.name + (form.toolSep + PrintArgs(form, c.args, form.toolEnd + rest)))
  }

  function PrintCalls(form: Form, calls: seq<Call>, rest: string): string {
    if calls == [] then rest else PrintCall(form, calls[0], PrintCalls(form, calls[1..], rest))
  }

  /** The whole scope, followed by `rest`. */
  function Print(form: Form, calls: seq<Call>, rest: string): string {
    form.scopeStart + PrintCalls(form, calls, form.scopeEnd + rest)
  }

  // ---------- which fields can be told apart ----------

  /** The field does not hide the delimiter that follows it. */
  predicate Delimited(field: string, delim: string) {
    Find(field + delim, delim, 0) == Some(|field|)
  }

  /** Neither text begins the other. */
  predicate Apart(a: string, b: string) {
    exists i :: 0 <= i < |a| && i < |b| && a[i] != b[i]
  }

  /** `delim` cannot start anywhere inside `field`, whatever follows it. */
  predicate Clear(field: string, delim: string) {
    forall i :: 0 <= i < |field| ==> Apart(field[i..], delim)
  }

  predicate CleanForm(form: Form) {
    && form.Usable()
    && !IsSpace(form.toolEnd[0]) && Apart(form.keyStart, form.toolEnd)
    && (AllSpace(form.scopeStart) ==> Delimited(form.scopeStart, form.toolStart))
    && (form.keyValSep2.Some? ==> Delimited("\n", form.keyValSep2.value))
  }

  predicate CleanName(form: Form, c: Call) {
    && c.name != "" && Stripped(c.name)
    && Find(c.name, form.toolEnd, 0).None?
    && if !AllSpace(form.toolSep) then Delimited(c.name, form.toolSep)
       else if c.args != [] then
         Delimited(c.name + form.toolSep, form.keyStart) && Find(c.name + form.toolSep, form.toolEnd, 0).None?
       else
         Delimited(c.name + form.toolSep, form.toolEnd) && Clear(c.name + form.toolSep + form.toolEnd, form.keyStart)
  }

  predicate CleanArg(form: Form, key: string, value: string) {
    Delimited(key, form.keyValSep) && Delimited(value, form.valEnd) && (form.trimRawArgval ==> Stripped(value))
  }

  predicate CleanCall(form: Form, c: Call) {
    && CleanName(form, c)
    && (forall i :: 0 <= i < |c.args| ==> CleanArg(form, c.args[i].0, c.args[i].1))
    && (forall i, j :: 0 <= i < j < |c.args| ==> c.args[i].0 != c.args[j].0)
  }

  /** What follows the calls does not look like one more call. */
  predicate CleanEnd(form: Form, calls: seq<Call>, rest: string, partial: bool, syntax: Syntax) {
    && (calls == [] ==> form.scopeStart == "" || !AllSpace(form.scopeStart))
    && NoFurtherCall(form, rest, partial, syntax)
  }

  predicate NoFurtherCall(form: Form, rest: string, partial: bool, syntax: Syntax) {
    var f := FindLiteral(Source(form.scopeEnd + rest, partial, syntax), 0, form.toolStart);
    f.None? || !AllSpace(f.value.prelude)
  }

  // ---------- reading one piece ----------

  /** Where the text `rest` starts, when the input ends with it. */
  function At(src: Source, rest: string): int {
    |src.input| - |rest|
  }

  predicate Ends(src: Source, rest: string) {
    |rest| <= |src.input| && src.input[At(src, rest)..] == rest
  }

  lemma EndsPiece(src: Source, a: string, rest: string)
    requires Ends(src, a + rest)
    ensures Ends(src, rest) && At(src, a + rest) + |a| == At(src, rest)
    ensures src.input[At(src, a + rest)..At(src, rest)] == a && MatchAt(src.input, At(src, a + rest), a)
  {
    Piece(src.input, At(src, a + rest), a, rest);
  }

  /** A delimited field is read whole. */
  lemma FieldRead(src: Source, field: string, delim: string, rest: string)
    requires Ends(src, field + (delim + rest)) && Delimited(field, delim)
    ensures Ends(src, delim + rest) && Ends(src, rest)
    ensures FindLiteral(src, At(src, field + (delim + rest)), delim)
            == Some(Found(field, At(src, delim + rest), At(src, rest)))
    ensures Whole(Found(field, At(src, delim + rest), At(src, rest)), delim)
  {
    hide Find, MatchAt;
    EndsPiece(src, field, delim + rest);
    EndsPiece(src, delim, rest);
    assert field + (delim + rest) == field + delim + rest;
    DelimiterFound(src.input, At(src, field + (delim + rest)), field, delim, rest);
  }

  lemma EmptyIsDelimited(delim: string)
    ensures Delimited("", delim)
  {
    assert "" + delim == delim;
    FindIs("" + delim, delim, 0, 0);
  }

  lemma LiteralRead(src: Source, lit: string, rest: string)
    requires Ends(src, lit + rest)
    ensures Ends(src, rest)
    ensures FindLiteral(src, At(src, lit + rest), lit) == Some(Found("", At(src, lit + rest), At(src, rest)))
    ensures Whole(Found("", At(src, lit + rest), At(src, rest)), lit)
  {
    hide FindLiteral;
    EmptyIsDelimited(lit);
    assert "" + (lit + rest) == lit + rest;
    FieldRead(src, "", lit, rest);
  }

  /** What is found spells the literal, wholly or up to the end of the input. */
  lemma FoundSpells(src: Source, pos: nat, lit: string)
    requires pos <= |src.input|
    ensures var f := FindLiteral(src, pos, lit);
            f.Some? ==> (f.value.end == f.value.begin + |lit| || f.value.end == |src.input|) &&
                        forall k :: f.value.begin <= k < f.value.end ==>
                          k - f.value.begin < |lit| && src.input[k] == lit[k - f.value.begin]
  {
    var f := FindLiteral(src, pos, lit);
    if f.Some? {
      assert forall k :: f.value.begin <= k < f.value.end ==>
        src.input[k] == src.input[f.value.begin..f.value.end][k - f.value.begin];
    }
  }

  /** A literal that is searched for where another one stands is found later, behind text. */
  lemma LiteralNotHere(src: Source, lit: string, other: string, rest: string)
    requires Ends(src, other + rest) && other != "" && !IsSpace(other[0]) && Apart(lit, other)
    ensures var f := FindLiteral(src, At(src, other + rest), lit); f.None? || !AllSpace(f.value.prelude)
  {
    hide FindLiteral;
    var pos := At(src, other + rest);
    EndsPiece(src, other, rest);
    assert forall k :: pos <= k < pos + |other| ==> src.input[k] == src.input[pos..pos + |other|][k - pos];
    var f := FindLiteral(src, pos, lit);
    FoundSpells(src, pos, lit);
    var i :| 0 <= i < |lit| && i < |other| && lit[i] != other[i];
    assert src.input[pos + i] == other[i];
    assert f.Some? ==> f.value.begin != pos;
    assert f.Some? ==> f.value.prelude[0] == src.input[pos];
  }

  // ---------- arguments ----------

  lemma ValueReads(src: Source, form: Form, name: string, msg: Msg, args: Args, key: string, value: string,
                   rest: string)
    requires Ends(src, value + (form.valEnd + rest)) && CleanArg(form, key, value)
    ensures Ends(src, rest)
    ensures Value(src, form, name, State(At(src, value + (form.valEnd + rest)), msg), args, key)
            == ArgRead(State(At(src, rest), msg), Put(args, key, value))
  {
    hide FindLiteral, Delimited, Put, CutCall, Rest, Strip, Ends;
    FieldRead(src, value, form.valEnd, rest);
    if form.trimRawArgval {
      StripIs(value, "", value, "");
    }
  }

  lemma Separator2Reads(src: Source, form: Form, name: string, msg: Msg, args: Args, key: string, value: string,
                        rest: string)
    requires CleanForm(form) && CleanArg(form, key, value)
    requires Ends(src, PrintSeparator2(form, value + (form.valEnd + rest)))
    ensures Ends(src, rest)
    ensures Separator2(src, form, name, State(At(src, PrintSeparator2(form, value + (form.valEnd + rest))), msg), args,
                       key)
            == ArgRead(State(At(src, rest), msg), Put(args, key, value))
  {
    hide FindLiteral, Delimited, Put, CutCall, Value, Ends, Apart;
    var after := value + (form.valEnd + rest);
    if form.keyValSep2.Some? {
      FieldRead(src, "\n", form.keyValSep2.value, after);
    }
    ValueReads(src, form, name, msg, args, key, value, rest);
  }

  lemma ArgReads(src: Source, form: Form, name: string, msg: Msg, args: Args, key: string, value: string, rest: string)
    requires CleanForm(form) && CleanArg(form, key, value)
    requires Ends(src, form.keyStart + (key + (form.keyValSep + PrintSeparator2(form, value + (form.valEnd + rest)))))
    ensures Ends(src, rest)
    ensures var inner := PrintSeparator2(form, value + (form.valEnd + rest));
            var pos := At(src, form.keyStart + (key + (form.keyValSep + inner)));
            Arg(src, form, name, State(pos, msg), args) == ArgRead(State(At(src, rest), msg), Put(args, key, value))
  {
    hide FindLiteral, Delimited, Put, CutCall, Separator2, Ends, PrintSeparator2, Apart, OpenDump;
    var after := PrintSeparator2(form, value + (form.valEnd + rest));
    LiteralRead(src, form.keyStart, key + (form.keyValSep + after));
    FieldRead(src, key, form.keyValSep, after);
    Separator2Reads(src, form, name, msg, args, key, value, rest);
  }

  lemma {:induction false} PutFresh(args: Args, key: string, value: string)
    requires forall i :: 0 <= i < |args| ==> args[i].0 != key
    ensures Put(args, key, value) == args + [(key, value)]
  {
    if args != [] {
      PutFresh(args[1..], key, value);
      assert args == [args[0]] + args[1..];
    }
  }

  /** The loop reads the printed arguments, in order, onto those read before. */
  lemma {:induction false} ArgsRead(src: Source, form: Form, name: string, msg: Msg, done: Args, args: Args,
                                    rest: string, recovery: bool)
    requires CleanForm(form) && Ends(src, PrintArgs(form, args, form.toolEnd + rest))
    requires forall i :: 0 <= i < |args| ==> CleanArg(form, args[i].0, args[i].1)
    requires forall i, j :: 0 <= i < j < |done + args| ==> (done + args)[i].0 != (done + args)[j].0
    ensures Ends(src, form.toolEnd + rest)
    ensures ArgsLoop(src, form, name, State(At(src, PrintArgs(form, args, form.toolEnd + rest)), msg), done, recovery)
            == Ended(State(At(src, form.toolEnd + rest), msg), done + args, recovery && args == [])
    decreases |args|
  {
    hide Arg, Ends, Put, CleanArg, FindLiteral, Delimited, PrintSeparator2;
    if args == [] {
      LiteralNotHereForArg(src, form, name, msg, done, rest);
      assert done + args == done;
    } else {
      var after := PrintArgs(form, args[1..], form.toolEnd + rest);
      ArgReads(src, form, name, msg, done, args[0].0, args[0].1, after);
      assert forall i :: 0 <= i < |done| ==> (done + args)[i] == done[i];
      assert (done + args)[|done|] == args[0];
      PutFresh(done, args[0].0, args[0].1);
      assert done + [(args[0].0, args[0].1)] + args[1..] == done + args;
      ArgsRead(src, form, name, msg, done + [(args[0].0, args[0].1)], args[1..], rest, false);
    }
  }

  lemma LiteralNotHereForArg(src: Source, form: Form, name: string, msg: Msg, args: Args, rest: string)
    requires CleanForm(form) && Ends(src, form.toolEnd + rest)
    ensures var st := State(At(src, form.toolEnd + rest), msg); Arg(src, form, name, st, args) == NoMoreArgs(st)
  {
    hide FindLiteral, Key, OpenDump;
    LiteralNotHere(src, form.keyStart, form.toolEnd, rest);
  }

  // ---------- calls ----------

  lemma {:induction false} PrintArgsStart(form: Form, args: Args, rest: string) returns (more: string)
    ensures PrintArgs(form, args, rest) == if args == [] then rest else form.keyStart + more
  {
    more := "";
    if args != [] {
      more := args[0].0 + (form.keyValSep + PrintSeparator2(form,
           args[0].1 + (form.valEnd + PrintArgs(form, args[1..], rest))));
    }
  }

  /** The name of a printed call, and the position from which its arguments are read. */
  lemma NameReads(src: Source, form: Form, c: Call, rest: string)
    requires CleanForm(form) && CleanName(form, c)
    requires Ends(src, c.name + (form.toolSep + PrintArgs(form, c.args, form.toolEnd + rest)))
    ensures var args := PrintArgs(form, c.args, form.toolEnd + rest);
            var f := ToolName(src, form, At(src, c.name + (form.toolSep + args)));
            && Ends(src, args)
            && f.Some? && Strip(f.value.prelude) == c.name
            && (if AllSpace(form.toolSep) then f.value.begin else f.value.end) == At(src, args)
  {
    hide Ends, FindLiteral, Find, Strip, Delimited, PrintArgs, Apart, Clear;
    var args := PrintArgs(form, c.args, form.toolEnd + rest);
    EndsPiece(src, c.name, form.toolSep + args);
    EndsPiece(src, form.toolSep, args);
    StripIs(c.name, "", c.name, "");
    if !AllSpace(form.toolSep) {
      FieldRead(src, c.name, form.toolSep, args);
    } else {
      SpacedNameReads(src, form, c, rest);
      StripIs(c.name + form.toolSep, "", c.name, form.toolSep);
    }
  }

  /** With a blank separator the name is found by what comes after it. */
  lemma SpacedNameReads(src: Source, form: Form, c: Call, rest: string)
    requires CleanForm(form) && CleanName(form, c) && AllSpace(form.toolSep)
    requires Ends(src, c.name + (form.toolSep + PrintArgs(form, c.args, form.toolEnd + rest)))
    ensures var args := PrintArgs(form, c.args, form.toolEnd + rest);
            var f := ToolName(src, form, At(src, c.name + (form.toolSep + args)));
            f.Some? && f.value.prelude == c.name + form.toolSep && f.value.begin == At(src, args)
  {
    hide Ends, FindLiteral, Find, Delimited, PrintArgs, Apart;
    var args := PrintArgs(form, c.args, form.toolEnd + rest);
    var field := c.name + form.toolSep;
    assert c.name + (form.toolSep + args) == field + args;
    var more := PrintArgsStart(form, c.args, form.toolEnd + rest);
    if c.args != [] {
      FieldRead(src, field, form.keyStart, more);
    } else {
      FieldRead(src, field, form.toolEnd, rest);
      NoKeyInside(src, form, field, rest);
    }
  }

  predicate Elsewhere(b: int, pos: int, i: int) {
    b != pos + i
  }

  lemma ClearAt(field: string, delim: string, i: nat) returns (k: nat)
    requires Clear(field, delim) && i < |field|
    ensures i + k < |field| && k < |delim| && field[i + k] != delim[k]
  {
    assert Apart(field[i..], delim);
    k :| 0 <= k < |field[i..]| && k < |delim| && field[i..][k] != delim[k];
  }

  /** A literal clear of a text is not found inside it. */
  lemma ClearOf(src: Source, lit: string, whole: string, rest: string)
    requires Ends(src, whole + rest) && Clear(whole, lit)
    ensures var f := FindLiteral(src, At(src, whole + rest), lit);
            f.None? || (f.value.begin >= At(src, rest) && whole <= f.value.prelude)
  {
    hide FindLiteral;
    var pos := At(src, whole + rest);
    EndsPiece(src, whole, rest);
    assert forall k :: pos <= k < pos + |whole| ==> src.input[k] == src.input[pos..pos + |whole|][k - pos];
    FoundSpells(src, pos, lit);
    var f := FindLiteral(src, pos, lit);
    if f.Some? {
      var b := f.value.begin;
      forall i | 0 <= i < |whole| ensures Elsewhere(b, pos, i) {
        var k := ClearAt(whole, lit, i);
        assert src.input[pos + i + k] == whole[i + k];
      }
      assert b < pos + |whole| ==> Elsewhere(b, pos, b - pos);
      assert src.input[pos..b][..|whole|] == src.input[pos..pos + |whole|];
    }
  }

  /** A key start searched from a call without arguments lies beyond that call's end. */
  lemma NoKeyInside(src: Source, form: Form, field: string, rest: string)
    requires Ends(src, field + (form.toolEnd + rest)) && Clear(field + form.toolEnd, form.keyStart)
    ensures var f := FindLiteral(src, At(src, field + (form.toolEnd + rest)), form.keyStart);
            f.None? || Find(f.value.prelude, form.toolEnd, 0).Some?
  {
    hide Find, FindLiteral, Clear, Ends;
    EndsInside(src, field + (form.toolEnd + rest));
    var whole := field + form.toolEnd;
    assert field + (form.toolEnd + rest) == whole + rest;
    ClearOf(src, form.keyStart, whole, rest);
    var f := FindLiteral(src, At(src, whole + rest), form.keyStart);
    if f.Some? {
      var p := f.value.prelude;
      assert p[|field|..|field| + |form.toolEnd|] == whole[|field|..] == form.toolEnd;
      assert MatchAt(p, |field|, form.toolEnd);
      FindIsFirst(p, form.toolEnd, 0);
    }
  }

  /** One turn of the loop reads one printed call, possibly behind a blank scope start. */
  lemma CallReads(src: Source, form: Form, start: nat, msg: Msg, lead: string, c: Call, rest: string, recovery: bool)
    requires CleanForm(form) && CleanCall(form, c)
    requires AllSpace(lead) && Delimited(lead, form.toolStart)
    requires Ends(src, lead + PrintCall(form, c, rest))
    ensures Ends(src, rest)
    ensures Tool(src, form, start, State(At(src, lead + PrintCall(form, c, rest)), msg), recovery)
            == ToolRead(State(At(src, rest), AddCall(msg, c.name, Dump(c.args))))
  {
    hide Ends, FindLiteral, Delimited, PrintArgs, ToolName, ArgsLoop, Strip, Dump, Find, Apart, CleanArg, CleanName;
    var args := PrintArgs(form, c.args, form.toolEnd + rest);
    FieldRead(src, lead, form.toolStart, c.name + (form.toolSep + args));
    NameReads(src, form, c, rest);
    assert [] + c.args == c.args;
    ArgsRead(src, form, c.name, msg, [], c.args, rest, recovery);
    LiteralRead(src, form.toolEnd, rest);
    NamedCall(form, c);
  }

  lemma NamedCall(form: Form, c: Call)
    requires CleanName(form, c)
    ensures c.name != ""
  {
  }

  /** The calls as they end up in the message. */
  function Added(msg: Msg, calls: seq<Call>): Msg
    decreases |calls|
  {
    if calls == [] then msg else Added(AddCall(msg, calls[0].name, Dump(calls[0].args)), calls[1..])
  }

  lemma {:induction false} CallsRead(src: Source, form: Form, start: nat, msg: Msg, calls: seq<Call>, rest: string,
                                     recovery: bool)
    requires CleanForm(form) && (forall i :: 0 <= i < |calls| ==> CleanCall(form, calls[i]))
    requires Ends(src, PrintCalls(form, calls, form.scopeEnd + rest))
    requires start <= At(src, PrintCalls(form, calls, form.scopeEnd + rest))
    requires NoFurtherCall(form, rest, src.partial, src.syntax)
    ensures Ends(src, rest)
    ensures Tools(src, form, start, State(At(src, PrintCalls(form, calls, form.scopeEnd + rest)), msg), recovery)
            == (Returned(true), State(At(src, rest), Added(msg, calls)))
    decreases |calls|
  {
    hide Tool, Ends, CleanCall, PrintCall, FindLiteral, Dump, NoFurtherCall, CleanForm, Delimited, AddCall;
    var here := State(At(src, PrintCalls(form, calls, form.scopeEnd + rest)), msg);
    EndsInside(src, PrintCalls(form, calls, form.scopeEnd + rest));
    CleanFormIsUsable(form);
    ToolMovesOn(src, form, start, here, recovery);
    if calls == [] {
      ScopeCloses(src, form, start, here, rest, recovery);
    } else {
      var after := PrintCalls(form, calls[1..], form.scopeEnd + rest);
      assert "" + PrintCall(form, calls[0], after) == PrintCall(form, calls[0], after);
      EmptyIsDelimited(form.toolStart);
      CallReads(src, form, start, msg, "", calls[0], after, recovery);
      CallsRead(src, form, start, AddCall(msg, calls[0].name, Dump(calls[0].args)), calls[1..], rest, false);
    }
  }

  lemma CleanFormIsUsable(form: Form)
    requires CleanForm(form)
    ensures form.Usable()
  {
  }

  lemma EndsInside(src: Source, rest: string)
    requires Ends(src, rest)
    ensures 0 <= At(src, rest) <= |src.input|
  {
  }

  lemma ScopeCloses(src: Source, form: Form, start: nat, st: State, rest: string, recovery: bool)
    requires CleanForm(form) && Ends(src, form.scopeEnd + rest) && st.pos == At(src, form.scopeEnd + rest)
    requires NoFurtherCall(form, rest, src.partial, src.syntax)
    ensures Ends(src, rest)
    ensures Tool(src, form, start, st, recovery) == NoMoreTools(st)
    ensures Closing(src, form, start, st, recovery) == (Returned(true), st.(pos := At(src, rest)))
  {
    hide FindLiteral, NamedTool;
    LiteralRead(src, form.scopeEnd, rest);
    if FindLiteral(src, st.pos, form.toolStart).Some? {
      FoundInSuffix(src, st.pos, form.toolStart);
    }
  }

  lemma MatchInSuffix(s: string, pos: nat, lit: string, j: nat)
    requires pos <= |s|
    ensures MatchAt(s, pos + j, lit) == MatchAt(s[pos..], j, lit)
    ensures pos + j < |s| ==> PartialAt(s, pos + j, lit) == PartialAt(s[pos..], j, lit)
  {
    if pos + j + |lit| <= |s| {
      assert s[pos + j..pos + j + |lit|] == s[pos..][j..j + |lit|];
    }
    if pos + j < |s| {
      assert s[pos + j..] == s[pos..][j..];
    }
  }

  lemma FindInSuffix(s: string, pos: nat, lit: string)
    requires pos <= |s|
    ensures var r := Find(s, lit, pos);
            Find(s[pos..], lit, 0) == if r.Some? then Some(r.value - pos) else None
  {
    hide Find, MatchAt;
    var u := s[pos..];
    FindIsFirst(s, lit, pos);
    FindIsFirst(u, lit, 0);
    forall j: nat ensures MatchAt(s, pos + j, lit) == MatchAt(u, j, lit) {
      MatchInSuffix(s, pos, lit, j);
    }
    var r := Find(s, lit, pos);
    if r.Some? {
      assert MatchAt(u, r.value - pos, lit);
      FindIs(u, lit, 0, r.value - pos);
    } else {
      forall j: nat ensures !MatchAt(u, j, lit) {
        assert MatchAt(s, pos + j, lit) == MatchAt(u, j, lit);
      }
    }
  }

  lemma PartialStopInSuffix(s: string, pos: nat, lit: string)
    requires pos <= |s| && PartialStop(s, lit).Some? && PartialStop(s, lit).value >= pos
    ensures PartialStop(s[pos..], lit) == Some(PartialStop(s, lit).value - pos)
  {
    hide PartialStop, PartialAt;
    var u, p := s[pos..], PartialStop(s, lit).value;
    PartialStopIsFirst(s, lit);
    PartialStopIsFirst(u, lit);
    InsideText(s, p, lit);
    forall j: nat | pos + j < |s| ensures PartialAt(s, pos + j, lit) == PartialAt(u, j, lit) {
      MatchInSuffix(s, pos, lit, j);
    }
    assert PartialAt(u, p - pos, lit);
    var q := PartialStop(u, lit);
    assert q.Some? && q.value <= p - pos;
    assert PartialAt(s, pos + q.value, lit);
  }

  lemma InsideText(s: string, p: nat, lit: string)
    requires PartialAt(s, p, lit)
    ensures p < |s|
  {
  }

  /** What is found from a position is found from the start of the text that begins there. */
  lemma FoundInSuffix(src: Source, pos: nat, lit: string)
    requires pos <= |src.input| && FindLiteral(src, pos, lit).Some?
    ensures var f := FindLiteral(src.(input := src.input[pos..]), 0, lit);
            f.Some? && f.value.prelude == FindLiteral(src, pos, lit).value.prelude
  {
    hide Find, PartialStop;
    var s := src.input;
    FindInSuffix(s, pos, lit);
    var b := FindLiteral(src, pos, lit).value.begin;
    assert s[pos..b] == s[pos..][0..b - pos];
    if Find(s, lit, pos).None? {
      PartialStopInSuffix(s, pos, lit);
    }
  }

  /** Round trip: printed calls, whatever text follows them, are parsed back to exactly those
      calls in order, with the cursor just past the scope. */
  lemma PrintedIsParsed(src: Source, form: Form, msg: Msg, calls: seq<Call>, rest: string)
    requires CleanForm(form) && (forall i :: 0 <= i < |calls| ==> CleanCall(form, calls[i]))
    requires CleanEnd(form, calls, rest, src.partial, src.syntax)
    requires Ends(src, Print(form, calls, rest))
    ensures Ends(src, rest)
    ensures ParseXml(src, form, State(At(src, Print(form, calls, rest)), msg))
            == (Returned(true), State(At(src, rest), Added(msg, calls)))
  {
    hide Ends, CleanCall, PrintCalls, Tools, FindLiteral, Added, NoFurtherCall, Delimited, Apart;
    var inner := PrintCalls(form, calls, form.scopeEnd + rest);
    EndsInside(src, Print(form, calls, rest));
    if AllSpace(form.scopeStart) {
      BlankScopeReads(src, form, msg, calls, rest);
    } else {
      LiteralRead(src, form.scopeStart, inner);
      EndsInside(src, inner);
      CallsRead(src, form, At(src, Print(form, calls, rest)), msg, calls, rest, true);
    }
  }

  /** A blank scope start is not consumed by itself: it is blank text before the first call. */
  lemma BlankScopeReads(src: Source, form: Form, msg: Msg, calls: seq<Call>, rest: string)
    requires CleanForm(form) && (forall i :: 0 <= i < |calls| ==> CleanCall(form, calls[i]))
    requires CleanEnd(form, calls, rest, src.partial, src.syntax) && AllSpace(form.scopeStart)
    requires Ends(src, Print(form, calls, rest)) && 0 <= At(src, Print(form, calls, rest)) <= |src.input|
    ensures Ends(src, rest)
    ensures var pos := At(src, Print(form, calls, rest));
            Tools(src, form, pos, State(pos, msg), true) == (Returned(true), State(At(src, rest), Added(msg, calls)))
  {
    hide Ends, CleanCall, PrintCall, Tool, FindLiteral, NoFurtherCall, Delimited, Apart, Dump, AddCall;
    var pos := At(src, Print(form, calls, rest));
    ToolMovesOn(src, form, pos, State(pos, msg), true);
    if calls == [] {
      assert "" + PrintCalls(form, calls, form.scopeEnd + rest) == form.scopeEnd + rest;
      CallsRead(src, form, pos, msg, calls, rest, true);
    } else {
      var after := PrintCalls(form, calls[1..], form.scopeEnd + rest);
      CallReads(src, form, pos, msg, form.scopeStart, calls[0], after, true);
      CallsRead(src, form, pos, AddCall(msg, calls[0].name, Dump(calls[0].args)), calls[1..], rest, false);
    }
  }
}
