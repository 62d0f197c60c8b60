/** Printed tool calls that arrive bit by bit: wherever the text stops, the parser shows exactly the calls
    that are complete and the open one as far as it is certain, so that no difference ever fails. */
module XmlStream {
  import opened Text
  import opened Utf8
  import opened ChatDiff
  import opened ChatParser
  import opened XmlToolCall
  import opened XmlRoundTrip
  import opened XmlShown

  // ---------- looking for a delimiter in a text that stops ----------

  lemma SuffixPartial(s: string, pos: nat, lit: string, i: nat)
    requires pos <= |s| && i < |s| - pos
    ensures PartialAt(s[pos..], i, lit) <==> PartialAt(s, pos + i, lit)
  {
    assert s[pos..][i..] == s[pos + i..];
  }

  lemma PartialChars(s: string, i: nat, lit: string, k: nat)
    requires PartialAt(s, i, lit) && i <= k < |s|
    ensures k - i < |lit| && s[k] == lit[k - i]
  {
    assert s[i..][k - i] == s[k];
  }

  /** The search looks at the whole input; with a fresh first character it comes to the same as a search in
      the text from the cursor on. */
  lemma FindCut(src: Source, u: string, lit: string)
    requires src.partial && Ends(src, u) && FirstDoesNotRecur(lit) && Find(u, lit, 0).None?
    ensures FindLiteral(src, At(src, u), lit) ==
            match PartialStop(u, lit)
            case None => None
            case Some(i) => Some(Found(u[..i], At(src, u) + i, |src.input|))
  {
    hide Find, PartialStop, PartialAt;
    var s, pos := src.input, At(src, u);
    FindInSuffix(s, pos, lit);
    PartialStopIsFirst(s, lit);
    PartialStopIsFirst(u, lit);
    var p, q := PartialStop(s, lit), PartialStop(u, lit);
    if p.Some? && p.value >= pos {
      PartialStopInSuffix(s, pos, lit);
      PartialInside(s, p.value, lit);
      assert s[pos..p.value] == u[..p.value - pos];
    } else if q.Some? {
      PartialInside(u, q.value, lit);
      SuffixPartial(s, pos, lit, q.value);
      if p.Some? {
        PartialChars(s, p.value, lit, pos + q.value);
        PartialChars(s, pos + q.value, lit, pos + q.value);
      }
    }
  }

  lemma PartialInside(u: string, i: nat, lit: string)
    requires PartialAt(u, i, lit)
    ensures i < |u|
  {
  }

  lemma NoneAt(u: string, lit: string, j: nat)
    requires lit != "" && lit[0] !in u
    ensures !MatchAt(u, j, lit) && !PartialAt(u, j, lit)
  {
    assert j + |lit| <= |u| ==> u[j..j + |lit|][0] == u[j];
    assert j < |u| ==> u[j..][0] == u[j];
  }

  lemma Absent(u: string, lit: string)
    requires lit != "" && lit[0] !in u
    ensures Find(u, lit, 0) == None && PartialStop(u, lit) == None
  {
    hide Find, PartialStop, PartialAt;
    var r, p := Find(u, lit, 0), PartialStop(u, lit);
    NoneAt(u, lit, if r.Some? then r.value else 0);
    NoneAt(u, lit, if p.Some? then p.value else 0);
  }

  /** A delimiter whose first character is not there is not found. */
  lemma NotFound(src: Source, u: string, lit: string)
    requires src.partial && Ends(src, u) && FirstDoesNotRecur(lit) && lit != "" && lit[0] !in u
    ensures FindLiteral(src, At(src, u), lit) == None
  {
    hide FindLiteral, PartialStop;
    Absent(u, lit);
    FindCut(src, u, lit);
  }

  lemma NoneBegun(field: string, d: string, lit: string, j: nat)
    requires d < lit && lit[0] !in field
    ensures !MatchAt(field + d, j, lit)
    ensures j < |field| ==> !PartialAt(field + d, j, lit)
  {
    var u := field + d;
    assert j + |lit| <= |u| ==> u[j..j + |lit|][0] == u[j];
    assert j < |u| ==> u[j..][0] == u[j];
    assert j < |field| ==> u[j] == field[j] != lit[0];
  }

  /** A field followed by the beginning of a delimiter. */
  lemma PartFound(src: Source, field: string, d: string, lit: string)
    requires src.partial && Ends(src, field + d) && d != "" && d < lit && FirstDoesNotRecur(lit) && lit[0] !in field
    ensures FindLiteral(src, At(src, field + d), lit) == Some(Found(field, At(src, d), |src.input|))
    ensures !Whole(Found(field, At(src, d), |src.input|), lit)
  {
    hide FindLiteral, PartialStop, Find;
    var u := field + d;
    var r := Find(u, lit, 0);
    NoneBegun(field, d, lit, if r.Some? then r.value else 0);
    PartBegun(field, d, lit);
    PartialStopIsFirst(u, lit);
    NoneBegun(field, d, lit, PartialStop(u, lit).value);
    hide PartialAt;
    FindCut(src, u, lit);
    assert u[..|field|] == field;
  }

  lemma PartBegun(field: string, d: string, lit: string)
    requires d != "" && d < lit
    ensures PartialAt(field + d, |field|, lit)
  {
    assert (field + d)[|field|..] == d;
  }

  lemma CutMatch(u: string, all: string, r: nat, lit: string)
    requires u <= all && MatchAt(u, r, lit)
    ensures MatchAt(all, r, lit)
  {
    assert all[r..r + |lit|] == u[r..r + |lit|];
  }

  /** A field that has not arrived with its whole delimiter does not hold it. */
  lemma NotYet(u: string, field: string, delim: string)
    requires u < field + delim && Delimited(field, delim)
    ensures Find(u, delim, 0).None?
  {
    var all := field + delim;
    FindIsFirst(all, delim, 0);
    hide Find;
    var r := Find(u, delim, 0);
    if r.Some? {
      CutMatch(u, all, r.value, delim);
    }
  }

  lemma PartialWhole(u: string, p: nat, lit: string)
    requires PartialAt(u, p, lit)
    ensures |u| - p < |lit| || MatchAt(u, p, lit)
  {
  }

  /** What is found of a delimited field that has not arrived whole. */
  lemma FieldCut(src: Source, u: string, field: string, delim: string)
    requires src.partial && Ends(src, u) && u < field + delim && FirstDoesNotRecur(delim) && Delimited(field, delim)
    ensures FindLiteral(src, At(src, u), delim) ==
            match PartialStop(u, delim)
            case None => None
            case Some(i) => Some(Found(u[..i], At(src, u) + i, |src.input|))
    ensures PartialStop(u, delim).Some? ==> |u| - PartialStop(u, delim).value < |delim|
  {
    NotYet(u, field, delim);
    FindIsFirst(u, delim, 0);
    hide *;
    FindCut(src, u, delim);
    var p := PartialStop(u, delim);
    if p.Some? {
      PartialWhole(u, p.value, delim);
    }
  }

  // ---------- cutting at the marker ----------

  lemma {:induction false} FindLastIs(s: string, lit: string, at: nat, p: nat)
    requires p <= at && MatchAt(s, p, lit) && forall q :: p < q <= at ==> !MatchAt(s, q, lit)
    ensures FindLast(s, lit, at) == Some(p)
    decreases at
  {
    if p < at {
      FindLastIs(s, lit, at - 1, p);
    }
  }

  predicate Closers(s: string) {
    forall k :: 0 <= k < |s| ==> s[k] in "'\"}:"
  }

  /** The text before the marker is kept, but for a quote right before it. */
  lemma NeedleCut(pre: string, post: string)
    requires Closers(post)
    ensures CutAtNeedle(pre + NEEDLE + post) == Some(NoQuote(pre))
  {
    hide FindLast;
    var s, p := pre + NEEDLE + post, |pre|;
    assert s[p..p + |NEEDLE|] == NEEDLE;
    forall q | p < q <= |s|
      ensures !MatchAt(s, q, NEEDLE)
    {
      NoLater(pre, post, q);
    }
    FindLastIs(s, NEEDLE, |s|, p);
    assert s[p + |NEEDLE|..] == post;
    assert p != 0 ==> s[p - 1] == pre[p - 1];
    assert s[..p] == pre && (p != 0 ==> s[..p - 1] == pre[..p - 1]);
  }

  lemma NoLater(pre: string, post: string, q: nat)
    requires Closers(post) && q > |pre|
    ensures !MatchAt(pre + NEEDLE + post, q, NEEDLE)
  {
    var s := pre + NEEDLE + post;
    if q + |NEEDLE| <= |s| {
      assert s[q] != 'X' by {
        if q < |pre| + |NEEDLE| {
          assert s[q] == NEEDLE[q - |pre|];
          MarkerOnce(q - |pre|);
        } else {
          assert s[q] == post[q - |pre| - |NEEDLE|];
        }
      }
      assert s[q..q + |NEEDLE|][0] == s[q];
    }
  }

  lemma MarkerOnce(k: nat)
    requires 0 < k < |NEEDLE|
    ensures NEEDLE[k] != 'X' && NEEDLE[0] == 'X'
  {
  }

  lemma {:induction false} EscapedPlain(s: string)
    requires forall k :: 0 <= k < |s| ==> 'A' <= s[k] <= 'Z' || s[k] == '_'
    ensures Escaped(s) == s
    decreases |s|
  {
    if s != "" {
      EscapedPlain(s[1..]);
      assert Escape(s[0]) == [s[0]];
      assert s == [s[0]] + s[1..];
    }
  }

  lemma MarkerPlain()
    ensures Escaped(NEEDLE) == NEEDLE
  {
    hide Escaped;
    EscapedPlain(NEEDLE);
  }

  lemma MarkedQuoted(x: string)
    ensures Quoted(x + NEEDLE) == "\"" + Escaped(x) + NEEDLE + "\""
  {
    hide Escaped;
    EscapedConcat(x, NEEDLE);
    MarkerPlain();
    Around(Escaped(x), NEEDLE);
  }

  lemma Around(a: string, b: string)
    ensures "\"" + (a + b) + "\"" == "\"" + a + b + "\""
  {
  }

  lemma NoQuoteBehind(a: string, b: string)
    requires b != ""
    ensures NoQuote(a + b) == a + NoQuote(b)
  {
    assert (a + b)[|a + b| - 1] == b[|b| - 1];
    assert (a + b)[..|a + b| - 1] == a + b[..|b| - 1];
  }

  /** The marker within a key. */
  lemma KeyCut(args: Args, x: string)
    ensures CutAtNeedle(Dump(args + [(x + NEEDLE, "")])) == Some(ShownKey(args, x))
  {
    hide CutAtNeedle, Quoted, Escaped, Members, NoQuote;
    OpenMore(args, x + NEEDLE, "");
    MarkedQuoted(x);
    EmptyQuoted();
    var pre, post := Front(args) + ("\"" + Escaped(x)), "\":\"\"}";
    assert Dump(args + [(x + NEEDLE, "")]) == OpenDump(args + [(x + NEEDLE, "")]) + "}";
    assert Dump(args + [(x + NEEDLE, "")]) == pre + NEEDLE + post by {
      assert Front(args) + (("\"" + Escaped(x) + NEEDLE + "\"") + ":") + "\"\"" + "}" == pre + NEEDLE + post;
    }
    NeedleCut(pre, post);
    NoQuoteBehind(Front(args), "\"" + Escaped(x));
  }

  lemma EmptyQuoted()
    ensures Quoted("") == "\"\""
  {
  }

  /** The marker within a value. */
  lemma ValueCut(args: Args, key: string, x: string)
    ensures CutAtNeedle(Dump(args + [(key, x + NEEDLE)])) == Some(ShownValue(args, key, x))
  {
    hide CutAtNeedle, Quoted, Escaped, Members, NoQuote;
    OpenMore(args, key, x + NEEDLE);
    MarkedQuoted(x);
    var base := Front(args) + (Quoted(key) + ":");
    var pre, post := base + ("\"" + Escaped(x)), "\"}";
    assert Dump(args + [(key, x + NEEDLE)]) == OpenDump(args + [(key, x + NEEDLE)]) + "}";
    assert Dump(args + [(key, x + NEEDLE)]) == pre + NEEDLE + post by {
      assert base + ("\"" + Escaped(x) + NEEDLE + "\"") + "}" == pre + NEEDLE + post;
    }
    NeedleCut(pre, post);
    NoQuoteBehind(base, "\"" + Escaped(x));
  }

  predicate Fresh(args: Args, key: string) {
    forall i :: 0 <= i < |args| ==> args[i].0 != key
  }

  predicate NoMarker(args: Args) {
    forall i :: 0 <= i < |args| ==> !EndsWith(args[i].0, NEEDLE)
  }

  /** The state in which the parser stops, with the open call shown. */
  function Stopped(src: Source, msg: Msg, name: string, a: string): State {
    State(|src.input|, AddCall(msg, name, a))
  }

  lemma CutsKey(src: Source, st: State, name: string, done: Args, x: string)
    requires NoMarker(done)
    ensures CutCall(src, st, name, Put(done, x + NEEDLE, "")) == Stopped(src, st.msg, name, ShownKey(done, x))
  {
    assert (x + NEEDLE)[|x|..] == NEEDLE;
    PutFresh(done, x + NEEDLE, "");
    KeyCut(done, x);
    hide CutAtNeedle, Dump, ShownKey, AddCall;
  }

  lemma CutsValue(src: Source, st: State, name: string, done: Args, key: string, x: string)
    requires Fresh(done, key)
    ensures CutCall(src, st, name, Put(done, key, x + NEEDLE)) == Stopped(src, st.msg, name, ShownValue(done, key, x))
  {
    PutFresh(done, key, x + NEEDLE);
    ValueCut(done, key, x);
    hide CutAtNeedle, Dump, ShownValue, AddCall;
  }

  // ---------- one argument that has not arrived whole ----------

  /** The parser stops there, and the open call shows `a`. */
  predicate Stops(t: ArgTurn, src: Source, msg: Msg, name: string, a: string) {
    t.ArgHalt? && t.outcome == PartialException && t.st.msg == AddCall(msg, name, a)
  }

  lemma EndsLater(src: Source, a: string, b: string)
    requires Ends(src, a + b)
    ensures Ends(src, b) && At(src, b) == At(src, a + b) + |a|
  {
    EndsPiece(src, a, b);
  }

  /** The value arrived so far is put behind its key, with the marker. */
  lemma ValueCuts(src: Source, form: Form, name: string, msg: Msg, done: Args, arg: (string, string), u: string)
    requires src.partial && StreamForm(form) && StreamArg(form, arg)
    requires Ends(src, u) && u < arg.1 + form.valEnd && 0 <= At(src, u) <= |src.input|
    ensures var st := State(At(src, u), msg);
      Value(src, form, name, st, done, arg.0) == ArgHalt(PartialException,
        CutCall(src, st, name, Put(done, arg.0, Trimmed(form, Visible(u, form.valEnd)) + NEEDLE)))
  {
    hide FindLiteral, PartialStop, Put, CutCall, Strip, TruncateSafe, CleanForm, Delimited;
    assert Delimited(arg.1, form.valEnd);
    FieldCut(src, u, arg.1, form.valEnd);
    assert src.input[At(src, u)..] == u;
  }

  lemma ValueStops(src: Source, form: Form, name: string, msg: Msg, done: Args, arg: (string, string), u: string)
    requires src.partial && StreamForm(form) && StreamArg(form, arg) && Fresh(done, arg.0)
    requires Ends(src, u) && u < arg.1 + form.valEnd
    ensures Stops(Value(src, form, name, State(At(src, u), msg), done, arg.0), src, msg, name,
                  ShownValue(done, arg.0, Trimmed(form, Visible(u, form.valEnd))))
  {
    EndsInside(src, u);
    ValueCuts(src, form, name, msg, done, arg, u);
    CutsValue(src, State(At(src, u), msg), name, done, arg.0, Trimmed(form, Visible(u, form.valEnd)));
    hide Value, ShownValue, Trimmed, AddCall, CutCall;
  }

  lemma GapStops(src: Source, form: Form, name: string, msg: Msg, done: Args, arg: (string, string), u: string)
    requires src.partial && StreamForm(form) && Fresh(done, arg.0)
    requires Ends(src, u) && u < GapText(form)
    ensures Stops(Separator2(src, form, name, State(At(src, u), msg), done, arg.0), src, msg, name,
                  ShownValue(done, arg.0, ""))
  {
    hide FindLiteral, PartialStop, Put, CutCall, ShownValue, Value, Delimited, AddCall;
    var sep := form.keyValSep2.value;
    FieldCut(src, u, "\n", sep);
    var st := State(At(src, u), msg);
    CutsValue(src, st, name, done, arg.0, "");
    assert "" + NEEDLE == NEEDLE;
    var p := PartialStop(u, sep);
    if p.Some? {
      BlankBefore(u, sep, p.value);
      CutsValue(src, st.(pos := |src.input|), name, done, arg.0, "");
    }
  }

  lemma BlankBefore(u: string, sep: string, i: nat)
    requires u < "\n" + sep && PartialStop(u, sep) == Some(i)
    ensures i <= |u| && AllSpace(u[..i])
  {
    VisibleInside(u, "\n", sep);
    assert u[..i] <= "\n";
  }

  lemma KeyStops(src: Source, form: Form, name: string, msg: Msg, done: Args, arg: (string, string), u: string)
    requires src.partial && StreamForm(form) && StreamArg(form, arg) && NoMarker(done)
    requires Ends(src, u) && u < arg.0 + form.keyValSep
    ensures Stops(Key(src, form, name, State(At(src, u), msg), done), src, msg, name,
                  ShownKey(done, Visible(u, form.keyValSep)))
  {
    hide FindLiteral, PartialStop, Put, CutCall, ShownKey, TruncateSafe, CleanForm, Delimited, AddCall, Separator2;
    assert Delimited(arg.0, form.keyValSep);
    FieldCut(src, u, arg.0, form.keyValSep);
    CutsKey(src, State(At(src, u), msg), name, done, Visible(u, form.keyValSep));
    assert src.input[At(src, u)..] == u;
  }

  /** The separators between key and value, once they have arrived, lead to the value. */
  lemma GapReads(src: Source, form: Form, name: string, msg: Msg, done: Args, key: string, x: string)
    requires CleanForm(form) && Ends(src, GapText(form) + x)
    ensures Ends(src, x)
    ensures Separator2(src, form, name, State(At(src, GapText(form) + x), msg), done, key) ==
            Value(src, form, name, State(At(src, x), msg), done, key)
  {
    hide FindLiteral, Delimited, Value, CutCall, Ends, Put;
    if form.keyValSep2.Some? {
      assert GapText(form) + x == "\n" + (form.keyValSep2.value + x);
      FieldRead(src, "\n", form.keyValSep2.value, x);
    } else {
      assert GapText(form) + x == x;
    }
  }

  lemma KeyReads(src: Source, form: Form, name: string, msg: Msg, done: Args, arg: (string, string), w: string)
    requires CleanArg(form, arg.0, arg.1) && Ends(src, (arg.0 + form.keyValSep) + w)
    ensures Ends(src, w)
    ensures Key(src, form, name, State(At(src, (arg.0 + form.keyValSep) + w), msg), done) ==
            Separator2(src, form, name, State(At(src, w), msg), done, arg.0)
  {
    hide FindLiteral, Delimited, Separator2, CutCall, Ends, Put;
    assert (arg.0 + form.keyValSep) + w == arg.0 + (form.keyValSep + w);
    FieldRead(src, arg.0, form.keyValSep, w);
  }

  lemma StartReads(src: Source, form: Form, name: string, msg: Msg, done: Args, v: string)
    requires Ends(src, form.keyStart + v)
    ensures Ends(src, v)
    ensures Arg(src, form, name, State(At(src, form.keyStart + v), msg), done) ==
            Key(src, form, name, State(At(src, v), msg), done)
  {
    hide FindLiteral, Key, Ends, OpenDump;
    LiteralRead(src, form.keyStart, v);
  }

  /** An argument that has not arrived whole shows as far as it has. */
  lemma ArgStops(src: Source, form: Form, name: string, msg: Msg, done: Args, args: Args, u: string)
    requires src.partial && StreamForm(form) && args != [] && StreamArg(form, args[0])
    requires Fresh(done, args[0].0) && NoMarker(done)
    requires Ends(src, u) && u <= PrintArgs(form, args, form.toolEnd)
    requires var s := StageOf(form, args[0], u); !s.AtStart? && !s.Past?
    ensures Stops(Arg(src, form, name, State(At(src, u), msg), done), src, msg, name, ShownArgs(form, done, args, u))
  {
    var arg, rest := args[0], PrintArgs(form, args[1..], form.toolEnd);
    PrintArgsIs(form, args, form.toolEnd);
    StageIs(form, arg, rest, u);
    CleanParts(form, arg);
    ShownStage(form, done, args, u);
    var s := StageOf(form, arg, u);
    hide *;
    if s.InKey? {
      StartReads(src, form, name, msg, done, s.part);
      KeyStops(src, form, name, msg, done, arg, s.part);
    } else if s.AtGap? {
      var g :| u == form.keyStart + ((arg.0 + form.keyValSep) + g) && g < GapText(form);
      StartReads(src, form, name, msg, done, (arg.0 + form.keyValSep) + g);
      KeyReads(src, form, name, msg, done, arg, g);
      GapStops(src, form, name, msg, done, arg, g);
    } else {
      var x := s.part;
      StartReads(src, form, name, msg, done, (arg.0 + form.keyValSep) + (GapText(form) + x));
      KeyReads(src, form, name, msg, done, arg, GapText(form) + x);
      GapReads(src, form, name, msg, done, arg.0, x);
      ValueStops(src, form, name, msg, done, arg, x);
    }
  }

  lemma CleanParts(form: Form, arg: (string, string))
    requires StreamForm(form) && StreamArg(form, arg)
    ensures CleanForm(form) && CleanArg(form, arg.0, arg.1)
  {
  }

  lemma ShownStage(form: Form, done: Args, args: Args, u: string)
    requires args != []
    ensures ShownArgs(form, done, args, u) ==
            match StageOf(form, args[0], u)
            case AtStart => OpenDump(done)
            case InKey(v) => ShownKey(done, Visible(v, form.keyValSep))
            case AtGap => ShownValue(done, args[0].0, "")
            case InValue(x) => ShownValue(done, args[0].0, Trimmed(form, Visible(x, form.valEnd)))
            case Past(rest) => ShownArgs(form, done + [args[0]], args[1..], rest)
  {
    hide StageOf, ShownKey, ShownValue, Visible, Trimmed, OpenDump;
  }

  // ---------- the open call ----------

  /** What NamedTool makes of the end of the argument loop. */
  function Finish(src: Source, form: Form, start: nat, name: string, e: ArgsEnd): ToolTurn
    requires e.st.pos <= |src.input|
  {
    match e
    case Halted(o, s) => ToolHalt(o, s)
    case Ended(s, args, rec) => CloseTool(src, form, start, name, s, args, rec)
  }

  predicate Halts(t: ToolTurn, msg: Msg) {
    t.ToolHalt? && t.outcome == PartialException && t.st.msg == msg
  }

  /** Where only the beginning of what closes the call, or opens the next argument, has arrived. */
  lemma EndStops(src: Source, form: Form, start: nat, name: string, msg: Msg, done: Args, u: string, recovery: bool)
    requires src.partial && StreamForm(form) && Ends(src, u)
    requires (u < form.toolEnd) || (u < form.keyStart)
    ensures var e := ArgsLoop(src, form, name, State(At(src, u), msg), done, recovery);
      e.st.pos <= |src.input| && Halts(Finish(src, form, start, name, e), AddCall(msg, name, OpenDump(done)))
  {
    hide FindLiteral, Key, OpenDump, AddCall, StreamForm, Ends, At, Whole;
    UsableForm(form);
    EndsInside(src, u);
    EndFound(src, form, u);
  }

  /** At most one of the two delimiters is met, cut off. */
  lemma EndFound(src: Source, form: Form, u: string)
    requires src.partial && StreamForm(form) && Ends(src, u)
    requires (u < form.toolEnd) || (u < form.keyStart)
    ensures 0 <= At(src, u) <= |src.input|
    ensures MissedOrCut(src, FindLiteral(src, At(src, u), form.keyStart), At(src, u), form.keyStart)
    ensures FindLiteral(src, At(src, u), form.keyStart).None?
            ==> MissedOrCut(src, FindLiteral(src, At(src, u), form.toolEnd), At(src, u), form.toolEnd)
  {
    hide FindLiteral, FirstDoesNotRecur, Whole, At;
    EndsInside(src, u);
    assert "" + u == u;
    if u == "" {
      NotFound(src, u, form.keyStart);
      NotFound(src, u, form.toolEnd);
    } else if u < form.keyStart {
      PartFound(src, "", u, form.keyStart);
    } else {
      OtherNotThere(src, "", u, form.keyStart, form.toolEnd);
      PartFound(src, "", u, form.toolEnd);
    }
  }

  predicate MissedOrCut(src: Source, f: Option<Found>, at: int, lit: string) {
    0 <= at && (f.Some? ==> f == Some(Found("", at, |src.input|)) && !Whole(f.value, lit))
  }

  /** The beginning of one delimiter is not taken for the beginning of another, unless it is one. */
  lemma OtherNotThere(src: Source, field: string, u: string, lit: string, other: string)
    requires src.partial && Ends(src, field + u) && FirstDoesNotRecur(lit) && lit != "" && lit[0] !in field
    requires u != "" && u <= other && !(u < lit) && Apart(lit, other) && lit[0] !in other[1..]
    ensures FindLiteral(src, At(src, field + u), lit) == None
  {
    var all := field + u;
    NotBegun(u, lit, other);
    forall j: nat
      ensures !MatchAt(all, j, lit) && !PartialAt(all, j, lit)
    {
      assert j + |lit| <= |all| ==> all[j..j + |lit|][0] == all[j];
      assert j < |all| ==> all[j..][0] == all[j];
      assert j < |field| ==> all[j] == field[j];
      assert |field| < j < |all| ==> all[j] == other[1..][j - |field| - 1];
      assert all[|field|..] == u;
      assert |field| + |lit| <= |all| ==> all[|field|..|field| + |lit|] == u[..|lit|];
    }
    hide FindLiteral, PartialStop, Find, PartialAt;
    var r := Find(all, lit, 0);
    assert r.None?;
    assert PartialStop(all, lit).None?;
    FindCut(src, all, lit);
  }

  lemma NotBegun(u: string, lit: string, other: string)
    requires u <= other && u != "" && !(u < lit) && Apart(lit, other)
    ensures !(u <= lit) && !(lit <= u)
  {
    var i :| 0 <= i < |lit| && i < |other| && lit[i] != other[i];
  }

  lemma LoopStep(src: Source, form: Form, name: string, st: State, done: Args, recovery: bool)
    requires st.pos <= |src.input| && form.Usable()
    ensures var t := Arg(src, form, name, st, done);
      && t.st.pos <= |src.input|
      && ArgsLoop(src, form, name, st, done, recovery) ==
         match t
         case ArgHalt(o, s) => Halted(o, s)
         case NoMoreArgs(s) => Ended(s, done, recovery)
         case ArgRead(s, a) => ArgsLoop(src, form, name, s, a, false)
  {
    hide Arg;
    ArgMovesOn(src, form, name, st, done);
  }

  predicate Distinct(args: Args) {
    forall i, j :: 0 <= i < j < |args| ==> args[i].0 != args[j].0
  }

  lemma DistinctSplits(done: Args, args: Args)
    requires args != [] && Distinct(done + args)
    ensures Fresh(done, args[0].0) && Distinct(done + [args[0]] + args[1..])
  {
    assert done + [args[0]] + args[1..] == done + args;
    assert forall i :: 0 <= i < |done| ==> (done + args)[i] == done[i];
    assert (done + args)[|done|] == args[0];
  }

  lemma NoMarkerMore(form: Form, done: Args, arg: (string, string))
    requires NoMarker(done) && StreamArg(form, arg)
    ensures NoMarker(done + [arg])
  {
  }

  /** An argument that has arrived whole is read. */
  lemma ArgPasses(src: Source, form: Form, name: string, msg: Msg, done: Args, arg: (string, string), rest: string)
    requires CleanForm(form) && CleanArg(form, arg.0, arg.1) && Fresh(done, arg.0)
    requires Ends(src, ArgText(form, arg, rest))
    ensures Ends(src, rest)
    ensures Arg(src, form, name, State(At(src, ArgText(form, arg, rest)), msg), done) ==
            ArgRead(State(At(src, rest), msg), done + [arg])
  {
    ArgTextIs(form, arg, rest);
    hide *;
    ArgReads(src, form, name, msg, done, arg.0, arg.1, rest);
    PutsFresh(done, arg);
  }

  lemma PutsFresh(done: Args, arg: (string, string))
    requires Fresh(done, arg.0)
    ensures Put(done, arg.0, arg.1) == done + [arg]
  {
    PutFresh(done, arg.0, arg.1);
  }

  lemma ArgTextIs(form: Form, arg: (string, string), rest: string)
    ensures ArgText(form, arg, rest) ==
            form.keyStart + (arg.0 + (form.keyValSep + PrintSeparator2(form, arg.1 + (form.valEnd + rest))))
  {
    var inner := arg.1 + (form.valEnd + rest);
    assert inner == (arg.1 + form.valEnd) + rest;
    assert PrintSeparator2(form, inner) == GapText(form) + inner;
    assert arg.0 + (form.keyValSep + (GapText(form) + inner)) == (arg.0 + form.keyValSep) + (GapText(form) + inner);
  }

  lemma PrintedWhole(form: Form, args: Args, u: string)
    requires args != [] && u < PrintArgs(form, args, form.toolEnd)
    requires u <= ArgText(form, args[0], PrintArgs(form, args[1..], form.toolEnd))
    ensures var s := StageOf(form, args[0], u); s.Past? ==> s.rest < PrintArgs(form, args[1..], form.toolEnd)
  {
    var rest := PrintArgs(form, args[1..], form.toolEnd);
    PrintArgsIs(form, args, form.toolEnd);
    StageIs(form, args[0], rest, u);
    hide PrintArgs, StageOf;
    assert StageOf(form, args[0], u).Past? ==> |u| == |ArgText(form, args[0], StageOf(form, args[0], u).rest)|;
  }

  lemma UsableForm(form: Form)
    requires StreamForm(form)
    ensures form.Usable() && CleanForm(form)
  {
  }

  lemma PrintNoArgs(form: Form, tail: string)
    ensures PrintArgs(form, [], tail) == tail
  {
  }

  lemma FinishIs(src: Source, form: Form, start: nat, name: string, o: Outcome, s: State)
    requires s.pos <= |src.input|
    ensures Finish(src, form, start, name, Halted(o, s)) == ToolHalt(o, s)
  {
  }

  lemma HaltsIs(src: Source, msg: Msg, name: string, a: string, t: ArgTurn)
    requires Stops(t, src, msg, name, a)
    ensures t.ArgHalt? && Halts(ToolHalt(t.outcome, t.st), AddCall(msg, name, a))
  {
  }

  /** The arguments of a call that has not arrived whole: the call shows as far as they have. */
  lemma {:induction false} ArgsStop(src: Source, form: Form, start: nat, name: string, msg: Msg, done: Args, args: Args,
                                    u: string, recovery: bool)
    requires src.partial && StreamForm(form) && StreamArgs(form, args) && NoMarker(done) && Distinct(done + args)
    requires Ends(src, u) && u < PrintArgs(form, args, form.toolEnd) && 0 <= At(src, u) <= |src.input|
    ensures form.Usable()
    ensures var e := ArgsLoop(src, form, name, State(At(src, u), msg), done, recovery);
      && e.st.pos <= |src.input|
      && Halts(Finish(src, form, start, name, e), AddCall(msg, name, ShownArgs(form, done, args, u)))
    decreases |args|
  {
    hide *;
    UsableForm(form);
    var st := State(At(src, u), msg);
    if args == [] {
      PrintNoArgs(form, form.toolEnd);
      EndStops(src, form, start, name, msg, done, u, recovery);
      ShownNone(form, done, u);
    } else {
      var rest := PrintArgs(form, args[1..], form.toolEnd);
      StreamRest(form, args);
      DistinctSplits(done, args);
      PrintArgsIs(form, args, form.toolEnd);
      StageIs(form, args[0], rest, u);
      ShownStage(form, done, args, u);
      CleanParts(form, args[0]);
      var s := StageOf(form, args[0], u);
      if s.AtStart? {
        EndStops(src, form, start, name, msg, done, u, recovery);
      } else {
        LoopStep(src, form, name, st, done, recovery);
        if s.Past? {
          PrintedWhole(form, args, u);
          ArgPasses(src, form, name, msg, done, args[0], s.rest);
          EndsInside(src, s.rest);
          NoMarkerMore(form, done, args[0]);
          ArgsStop(src, form, start, name, msg, done + [args[0]], args[1..], s.rest, false);
        } else {
          ArgStops(src, form, name, msg, done, args, u);
          var t := Arg(src, form, name, st, done);
          HaltsIs(src, msg, name, ShownArgs(form, done, args, u), t);
          FinishIs(src, form, start, name, t.outcome, t.st);
        }
      }
    }
  }

  // ---------- the name ----------

  predicate Named(form: Form, c: Call) {
    && form.Usable()
    && c.name != "" && Stripped(c.name)
    && form.keyStart[0] !in c.name && form.toolEnd[0] !in c.name
    && (!AllSpace(form.toolSep) ==> form.toolSep[0] !in c.name)
  }

  lemma FirstOfName(form: Form, c: Call)
    requires StreamForm(form) && StreamCall(form, c)
    ensures Named(form, c) && StreamArgs(form, c.args) && Distinct(c.args) && CleanName(form, c)
  {
    hide CleanArg, StreamArg;
  }

  lemma NotInField(form: Form, name: string, c: char)
    requires c !in name && !IsSpace(c) && AllSpace(form.toolSep)
    ensures c !in name + form.toolSep
  {
  }

  lemma DelimitersSolid(form: Form)
    requires StreamForm(form)
    ensures form.Usable() && !IsSpace(form.toolEnd[0]) && !IsSpace(form.keyStart[0]) && !IsSpace(form.toolStart[0])
  {
  }

  /** A name that may still go on shows nothing. */
  lemma NameOpen(src: Source, form: Form, c: Call, u: string)
    requires src.partial && StreamForm(form) && Named(form, c) && Ends(src, u)
    requires u <= c.name + form.toolSep && |u| <= NameEnd(form, c)
    ensures ToolName(src, form, At(src, u)).None?
  {
    DelimitersSolid(form);
    hide FindLiteral, CleanForm, Find;
    var field := c.name + form.toolSep;
    assert forall k :: 0 <= k < |u| ==> u[k] == field[k];
    NotFound(src, u, form.toolEnd) by { Outside(form, c, u, form.toolEnd[0]); }
    if AllSpace(form.toolSep) {
      NotFound(src, u, form.keyStart) by { Outside(form, c, u, form.keyStart[0]); }
    } else {
      assert u <= c.name;
      NotFound(src, u, form.toolSep);
    }
  }

  lemma Outside(form: Form, c: Call, u: string, x: char)
    requires u <= c.name + form.toolSep && |u| <= NameEnd(form, c) && x !in c.name && !IsSpace(x)
    ensures x !in u
  {
    if !AllSpace(form.toolSep) {
      assert u == (c.name + form.toolSep)[..|u|] == c.name[..|u|];
    } else {
      assert forall k :: 0 <= k < |u| ==> u[k] == (c.name + form.toolSep)[k];
    }
  }

  /** What is known of a name that has ended. */
  predicate NameFound(form: Form, c: Call, f: Option<Found>, at: int) {
    f.Some? && Strip(f.value.prelude) == c.name && (if AllSpace(form.toolSep) then f.value.begin else f.value.end) == at
  }

  lemma NameStripped(c: Call, sep: string)
    requires Stripped(c.name) && AllSpace(sep)
    ensures Strip(c.name + sep) == c.name && Strip(c.name) == c.name
  {
    StripIs(c.name + sep, "", c.name, sep);
    StripIs(c.name, "", c.name, "");
  }

  /** Part of the separator behind a name. */
  lemma SeparatorPart(src: Source, form: Form, c: Call, d: string)
    requires src.partial && StreamForm(form) && Named(form, c) && !AllSpace(form.toolSep)
    requires d != "" && d < form.toolSep && Ends(src, c.name + d)
    ensures NameFound(form, c, ToolName(src, form, At(src, c.name + d)), |src.input|)
  {
    hide FindLiteral, CleanForm, Find, Strip;
    NameStripped(c, "");
    Absent(c.name, form.toolEnd);
    PartFound(src, c.name, d, form.toolSep);
  }

  /** A blank separator, and the beginning of what follows it. */
  lemma BlankPart(src: Source, form: Form, c: Call, v: string)
    requires src.partial && StreamForm(form) && Named(form, c) && CleanName(form, c) && AllSpace(form.toolSep)
    requires v != "" && v < PrintArgs(form, c.args, form.toolEnd) && Ends(src, (c.name + form.toolSep) + v)
    ensures NameFound(form, c, ToolName(src, form, At(src, (c.name + form.toolSep) + v)), At(src, v))
  {
    var field := c.name + form.toolSep;
    DelimitersSolid(form);
    NotInField(form, c.name, form.keyStart[0]);
    NotInField(form, c.name, form.toolEnd[0]);
    Absent(field, form.toolEnd);
    NameStripped(c, form.toolSep);
    EndsLater(src, field, v);
    if c.args != [] {
      BlankBeforeKey(src, form, c, v);
    } else {
      PrintNoArgs(form, form.toolEnd);
      hide FindLiteral, Find, Strip;
      if v < form.keyStart {
        PartFound(src, field, v, form.keyStart);
      } else {
        OtherNotThere(src, field, v, form.keyStart, form.toolEnd);
        PartFound(src, field, v, form.toolEnd);
      }
    }
  }

  lemma BlankBeforeKey(src: Source, form: Form, c: Call, v: string)
    requires src.partial && StreamForm(form) && Named(form, c) && CleanName(form, c) && AllSpace(form.toolSep)
      && c.args != []
    requires v != "" && v <= PrintArgs(form, c.args, form.toolEnd) && Ends(src, (c.name + form.toolSep) + v)
    requires form.keyStart[0] !in c.name + form.toolSep && Find(c.name + form.toolSep, form.toolEnd, 0).None?
    requires Strip(c.name + form.toolSep) == c.name
    ensures NameFound(form, c, ToolName(src, form, At(src, (c.name + form.toolSep) + v)), At(src, v))
  {
    hide FindLiteral, Find, Strip, PrintArgs;
    var field := c.name + form.toolSep;
    var more := PrintArgsStart(form, c.args, form.toolEnd);
    if |v| < |form.keyStart| {
      Begun(form.keyStart, more, v);
      PartFound(src, field, v, form.keyStart);
    } else {
      Dropped(form.keyStart, more, v);
      var w := v[|form.keyStart|..];
      assert v == form.keyStart + w;
      assert Delimited(field, form.keyStart);
      FieldRead(src, field, form.keyStart, w);
    }
  }

  /** The name and its separator have arrived. */
  lemma NamePasses(src: Source, form: Form, c: Call, v: string)
    requires src.partial && StreamForm(form) && Named(form, c) && CleanName(form, c)
    requires v < PrintArgs(form, c.args, form.toolEnd) && Ends(src, (c.name + form.toolSep) + v)
    requires AllSpace(form.toolSep) ==> v != ""
    ensures NameFound(form, c, ToolName(src, form, At(src, (c.name + form.toolSep) + v)), At(src, v))
  {
    if AllSpace(form.toolSep) {
      BlankPart(src, form, c, v);
    } else {
      hide FindLiteral, Find, Strip, PrintArgs;
      NameStripped(c, "");
      Absent(c.name, form.toolEnd);
      assert Delimited(c.name, form.toolSep);
      assert (c.name + form.toolSep) + v == c.name + (form.toolSep + v);
      FieldRead(src, c.name, form.toolSep, v);
    }
  }

  lemma NamedIs(src: Source, form: Form, start: nat, c: Call, st: State, at: nat, recovery: bool)
    requires st.pos <= |src.input| && form.Usable() && at <= |src.input|
    requires NameFound(form, c, ToolName(src, form, st.pos), at)
    ensures var e := ArgsLoop(src, form, c.name, st.(pos := at), [], recovery);
      e.st.pos <= |src.input| && NamedTool(src, form, start, st, recovery) == Finish(src, form, start, c.name, e)
  {
    hide ToolName, Strip, ArgsLoop, CloseTool;
    ArgsLoopInside(src, form, c.name, st.(pos := at), [], recovery);
  }

  lemma NoNameHalts(src: Source, form: Form, start: nat, st: State, recovery: bool)
    requires st.pos <= |src.input| && form.Usable() && ToolName(src, form, st.pos).None?
    ensures Halts(NamedTool(src, form, start, st, recovery), st.msg)
  {
    hide ToolName;
  }

  /** The message with the call that is open. */
  function WithOpen(msg: Msg, name: string, a: Option<string>): Msg {
    match a
    case None => msg
    case Some(x) => AddCall(msg, name, x)
  }

  lemma ShownBodyIs(form: Form, c: Call, u: string)
    ensures ShownBody(form, c, u) ==
            if |u| <= NameEnd(form, c) then None
            else
              var from := |c.name| + |form.toolSep|;
              Some(ShownArgs(form, [], c.args, if |u| < from then "" else u[from..]))
    ensures |c.name| <= NameEnd(form, c) <= |c.name| + |form.toolSep|
    ensures !AllSpace(form.toolSep) ==> NameEnd(form, c) == |c.name|
    ensures AllSpace(form.toolSep) ==> NameEnd(form, c) == |c.name| + |form.toolSep|
  {
    hide ShownArgs;
  }

  lemma EmptyEnds(src: Source)
    ensures Ends(src, "") && At(src, "") == |src.input|
  {
  }

  lemma ArgsNotEmpty(form: Form, args: Args)
    requires form.Usable()
    ensures "" < PrintArgs(form, args, form.toolEnd)
  {
  }

  lemma NoArgsYet(args: Args)
    ensures [] + args == args && NoMarker([])
  {
  }

  lemma SplitAtEnd(a: string, d: string, u: string)
    requires |a| <= |u| && a <= u && d == u[|a|..]
    ensures u == a + d
  {
  }

  /** A call that has not arrived whole shows as far as it has. */
  lemma BodyStops(src: Source, form: Form, start: nat, c: Call, msg: Msg, u: string, recovery: bool)
    requires src.partial && StreamForm(form) && form.Usable() && StreamCall(form, c)
    requires Ends(src, u) && 0 <= At(src, u) <= |src.input| && u < BodyText(form, c)
    ensures Halts(NamedTool(src, form, start, State(At(src, u), msg), recovery),
                  WithOpen(msg, c.name, ShownBody(form, c, u)))
  {
    FirstOfName(form, c);
    ShownBodyIs(form, c, u);
    ArgsNotEmpty(form, c.args);
    NoArgsYet(c.args);
    var lead, args, st := c.name + form.toolSep, PrintArgs(form, c.args, form.toolEnd), State(At(src, u), msg);
    assert BodyText(form, c) == lead + args;
    hide ShownBody, ShownArgs, PrintArgs, StreamForm, StreamCall, Named, CleanName, NamedTool, ToolName, Finish,
      ArgsLoop, Ends, NameFound, AddCall;
    if |u| <= NameEnd(form, c) {
      Begun(lead, args, u);
      NameOpen(src, form, c, u);
      NoNameHalts(src, form, start, st, recovery);
    } else if |u| < |lead| {
      Begun(lead, args, u);
      Dropped(c.name, form.toolSep, u);
      var d := u[|c.name|..];
      SplitAtEnd(c.name, d, u);
      SeparatorPart(src, form, c, d);
      NamedIs(src, form, start, c, st, |src.input|, recovery);
      EmptyEnds(src);
      ArgsStop(src, form, start, c.name, msg, [], c.args, "", recovery);
    } else {
      Dropped(lead, args, u);
      var v := u[|lead|..];
      SplitAtEnd(lead, v, u);
      NamePasses(src, form, c, v);
      EndsLater(src, lead, v);
      EndsInside(src, v);
      NamedIs(src, form, start, c, st, At(src, v), recovery);
      ArgsStop(src, form, start, c.name, msg, [], c.args, v, recovery);
    }
  }

  // ---------- the calls ----------

  lemma BlanksFindNothing(src: Source, u: string, lit: string)
    requires src.partial && Ends(src, u) && AllSpace(u) && FirstDoesNotRecur(lit) && lit != "" && !IsSpace(lit[0])
    ensures FindLiteral(src, At(src, u), lit) == None
  {
    NotFound(src, u, lit);
  }

  /** A tool start that has not arrived whole starts nothing yet. */
  lemma StartStops(src: Source, form: Form, start: nat, lead: string, msg: Msg, d: string, recovery: bool)
    requires src.partial && StreamForm(form) && form.Usable() && AllSpace(lead)
    requires d < form.toolStart && Ends(src, lead + d) && 0 <= At(src, lead + d) <= |src.input|
    ensures var st := State(At(src, lead + d), msg);
      if d == "" then Tool(src, form, start, st, recovery) == NoMoreTools(st)
      else Halts(Tool(src, form, start, st, recovery), msg)
  {
    DelimitersSolid(form);
    var st := State(At(src, lead + d), msg);
    if d == "" {
      assert lead + d == lead;
      hide FindLiteral, NamedTool;
      BlanksFindNothing(src, lead, form.toolStart);
    } else {
      EmptyEnds(src);
      assert form.toolStart[0] !in lead by {
        assert forall k :: 0 <= k < |lead| ==> IsSpace(lead[k]);
      }
      hide FindLiteral, NamedTool, FirstDoesNotRecur, CleanForm;
      PartFound(src, lead, d, form.toolStart);
      NothingNamed(src, form);
      NoNameHalts(src, form, start, State(|src.input|, msg), recovery);
    }
  }

  lemma NothingNamed(src: Source, form: Form)
    requires src.partial && StreamForm(form)
    ensures ToolName(src, form, |src.input|).None?
  {
    hide FindLiteral, FirstDoesNotRecur, CleanForm;
    EmptyEnds(src);
    SolidSeparator(form);
    NotFound(src, "", if AllSpace(form.toolSep) then form.keyStart else form.toolSep);
    NotFound(src, "", form.toolEnd);
  }

  lemma SolidSeparator(form: Form)
    requires StreamForm(form)
    ensures form.Usable() && (!AllSpace(form.toolSep) ==> form.toolSep != "")
  {
  }

  /** One turn of the loop at a call that has not arrived whole. */
  lemma CallStops(src: Source, form: Form, start: nat, lead: string, c: Call, msg: Msg, u: string, recovery: bool)
    requires src.partial && StreamForm(form) && form.Usable() && StreamCall(form, c)
    requires AllSpace(lead) && Delimited(lead, form.toolStart)
    requires u < CallText(form, c) && Ends(src, lead + u) && 0 <= At(src, lead + u) <= |src.input|
    ensures var st := State(At(src, lead + u), msg);
      if u == "" then Tool(src, form, start, st, recovery) == NoMoreTools(st)
      else Halts(Tool(src, form, start, st, recovery),
                 if |u| < |form.toolStart| then msg
                 else WithOpen(msg, c.name, ShownBody(form, c, u[|form.toolStart|..])))
  {
    hide StreamForm, StreamCall, BodyText, ShownBody, Tool, Delimited;
    var k := |form.toolStart|;
    if |u| < k {
      Begun(form.toolStart, BodyText(form, c), u);
      StartStops(src, form, start, lead, msg, u, recovery);
    } else {
      Dropped(form.toolStart, BodyText(form, c), u);
      var v := u[k..];
      SplitAtEnd(form.toolStart, v, u);
      assert v < BodyText(form, c);
      NamePlace(src, form, start, lead, msg, v, recovery);
      BodyStops(src, form, start, c, msg, v, recovery);
    }
  }

  lemma NamePlace(src: Source, form: Form, start: nat, lead: string, msg: Msg, v: string, recovery: bool)
    requires form.Usable() && AllSpace(lead) && Delimited(lead, form.toolStart)
    requires Ends(src, lead + (form.toolStart + v)) && 0 <= At(src, lead + (form.toolStart + v)) <= |src.input|
    ensures Ends(src, v) && 0 <= At(src, v) <= |src.input|
    ensures Tool(src, form, start, State(At(src, lead + (form.toolStart + v)), msg), recovery) ==
            NamedTool(src, form, start, State(At(src, v), msg), recovery)
  {
    hide FindLiteral, NamedTool, Delimited;
    FieldRead(src, lead, form.toolStart, v);
    EndsInside(src, v);
  }

  /** The message with the calls that show. */
  function Shown(msg: Msg, form: Form, calls: seq<Call>, u: string): Msg {
    msg.(toolCalls := msg.toolCalls + ShownCalls(form, calls, u))
  }

  lemma ClosingKeeps(src: Source, form: Form, start: nat, st: State, recovery: bool)
    requires st.pos <= |src.input|
    ensures Closing(src, form, start, st, recovery).1.msg == st.msg
  {
    hide FindLiteral;
  }

  /** At the end of a text that has stopped before the scope's end, the parser does not fail. */
  lemma ClosingStops(src: Source, form: Form, start: nat, msg: Msg, u: string, recovery: bool)
    requires src.partial && StreamForm(form) && Ends(src, u) && 0 <= At(src, u) <= |src.input|
    requires u <= form.scopeEnd || AllSpace(u)
    ensures Closing(src, form, start, State(At(src, u), msg), recovery).0 != SyntaxException
  {
    hide CleanForm;
    var pos, lit := At(src, u), form.scopeEnd;
    if u <= lit {
      assert "" + u == u && u + "" == u;
      if u == lit {
        LiteralRead(src, lit, "");
      } else if u != "" {
        PartFound(src, "", u, lit);
      } else {
        assert SkipSpaces(src.input, |src.input|) == |src.input|;
      }
    } else {
      BlanksClose(src, form, start, msg, u, recovery);
    }
  }

  lemma BlanksClose(src: Source, form: Form, start: nat, msg: Msg, u: string, recovery: bool)
    requires Ends(src, u) && 0 <= At(src, u) <= |src.input| && AllSpace(u)
    ensures Closing(src, form, start, State(At(src, u), msg), recovery).0 != SyntaxException
  {
    var pos := At(src, u);
    assert forall k :: pos <= k < |src.input| ==> src.input[k] == u[k - pos];
    hide FindLiteral, IsSpace, SkipSpaces;
    SkipSpacesIs(src.input, pos, |src.input|);
    var f := FindLiteral(src, pos, form.scopeEnd);
    if f.Some? {
      assert forall k :: 0 <= k < |f.value.prelude| ==> f.value.prelude[k] == src.input[pos + k];
    }
  }

  lemma ToolsStep(src: Source, form: Form, start: nat, st: State, recovery: bool)
    requires start <= st.pos <= |src.input| && form.Usable()
    ensures var t := Tool(src, form, start, st, recovery);
      && t.st.pos <= |src.input| && (t.ToolRead? ==> start <= t.st.pos)
      && Tools(src, form, start, st, recovery) ==
         match t
         case ToolHalt(o, s) => (o, s)
         case NoMoreTools(s) => Closing(src, form, start, s, recovery)
         case ToolRead(s) => Tools(src, form, start, s, false)
  {
    hide Tool, Closing;
    ToolMovesOn(src, form, start, st, recovery);
  }

  lemma HaltsMeans(t: ToolTurn, msg: Msg)
    requires Halts(t, msg)
    ensures t.ToolHalt? && t.outcome == PartialException && t.st.msg == msg
  {
  }

  /** The end of the scope is not taken for one more call. */
  lemma ScopeStops(src: Source, form: Form, start: nat, msg: Msg, u: string, recovery: bool)
    requires src.partial && StreamForm(form) && form.Usable() && Ends(src, u) && 0 <= At(src, u) <= |src.input|
    requires u <= form.scopeEnd
    ensures var st := State(At(src, u), msg);
      var t := Tool(src, form, start, st, recovery);
      t == NoMoreTools(st) || Halts(t, msg)
  {
    DelimitersSolid(form);
    assert "" + u == u;
    assert AllSpace("");
    if u < form.toolStart {
      StartStops(src, form, start, "", msg, u, recovery);
    } else {
      ScopeApart(form);
      hide FindLiteral, NamedTool, StreamForm, Apart, FirstDoesNotRecur;
      OtherNotThere(src, "", u, form.toolStart, form.scopeEnd);
    }
  }

  lemma ScopeApart(form: Form)
    requires StreamForm(form)
    ensures FirstDoesNotRecur(form.toolStart) && form.toolStart != ""
    ensures form.scopeEnd != "" ==> Apart(form.toolStart, form.scopeEnd) && form.toolStart[0] !in form.scopeEnd[1..]
  {
  }

  lemma ShownCallsIs(form: Form, calls: seq<Call>, u: string)
    requires calls != []
    ensures var c, n := calls[0], |CallText(form, calls[0])|;
      ShownCalls(form, calls, u) ==
      if |u| >= n then [ToolCall(c.name, Dump(c.args), "")] + ShownCalls(form, calls[1..], u[n..])
      else if |u| < |form.toolStart| then []
      else
        match ShownBody(form, c, u[|form.toolStart|..])
        case None => []
        case Some(a) => [ToolCall(c.name, a, "")]
  {
    hide CallText, ShownBody, Dump;
  }

  lemma OpenShown(form: Form, msg: Msg, calls: seq<Call>, u: string)
    requires calls != [] && |u| < |CallText(form, calls[0])| && calls[0].name != ""
      && |form.toolStart| <= |CallText(form, calls[0])|
    ensures Shown(msg, form, calls, u) ==
            if |u| < |form.toolStart| then msg
            else WithOpen(msg, calls[0].name, ShownBody(form, calls[0], u[|form.toolStart|..]))
  {
    ShownCallsIs(form, calls, u);
    hide ShownBody, CallText, ShownCalls;
    assert msg.toolCalls + [] == msg.toolCalls;
  }

  lemma WholeShown(form: Form, msg: Msg, calls: seq<Call>, u: string)
    requires calls != [] && |u| >= |CallText(form, calls[0])| && calls[0].name != ""
    ensures Shown(msg, form, calls, u) ==
            Shown(AddCall(msg, calls[0].name, Dump(calls[0].args)), form, calls[1..], u[|CallText(form, calls[0])|..])
  {
    ShownCallsIs(form, calls, u);
    hide CallText, ShownCalls, Dump;
    var rest := ShownCalls(form, calls[1..], u[|CallText(form, calls[0])|..]);
    var x := ToolCall(calls[0].name, Dump(calls[0].args), "");
    assert msg.toolCalls + ([x] + rest) == msg.toolCalls + [x] + rest;
  }

  lemma NothingShown(form: Form, msg: Msg, u: string)
    ensures Shown(msg, form, [], u) == msg
  {
    assert msg.toolCalls + [] == msg.toolCalls;
  }

  lemma CallIs(form: Form, c: Call)
    requires form.Usable() && StreamCall(form, c)
    ensures c.name != "" && CleanCall(form, c) && |form.toolStart| <= |CallText(form, c)| && CallText(form, c) != ""
  {
    hide CleanArg, StreamArg, BodyText;
  }

  /** What is left of the calls and the scope's end. */
  function ScopeText(form: Form, calls: seq<Call>): string {
    CallsText(form, calls) + form.scopeEnd
  }

  lemma ScopeTextIs(form: Form, calls: seq<Call>)
    ensures ScopeText(form, calls) ==
            if calls == [] then form.scopeEnd else CallText(form, calls[0]) + ScopeText(form, calls[1..])
  {
    hide CallText;
    if calls != [] {
      assert CallText(form, calls[0]) + CallsText(form, calls[1..]) + form.scopeEnd
          == CallText(form, calls[0]) + (CallsText(form, calls[1..]) + form.scopeEnd);
    } else {
      assert "" + form.scopeEnd == form.scopeEnd;
    }
  }

  ghost predicate StreamCalls(form: Form, calls: seq<Call>)
    requires form.Usable()
  {
    forall i :: 0 <= i < |calls| ==> StreamCall(form, calls[i])
  }

  lemma StreamCallsRest(form: Form, calls: seq<Call>)
    requires form.Usable() && calls != [] && StreamCalls(form, calls)
    ensures StreamCall(form, calls[0]) && StreamCalls(form, calls[1..])
  {
    hide StreamCall;
  }

  /** A call that has arrived whole is read, behind blanks. */
  lemma CallPasses(src: Source, form: Form, start: nat, lead: string, c: Call, msg: Msg, v: string, recovery: bool)
    requires CleanForm(form) && form.Usable() && CleanCall(form, c) && AllSpace(lead) && Delimited(lead, form.toolStart)
    requires Ends(src, lead + (CallText(form, c) + v)) && 0 <= At(src, lead + (CallText(form, c) + v)) <= |src.input|
    ensures Ends(src, v) && 0 <= At(src, v) <= |src.input|
    ensures Tool(src, form, start, State(At(src, lead + (CallText(form, c) + v)), msg), recovery) ==
            ToolRead(State(At(src, v), AddCall(msg, c.name, Dump(c.args))))
  {
    hide *;
    PrintCallIs(form, c, v);
    CallReads(src, form, start, msg, lead, c, v, recovery);
    EndsInside(src, v);
  }

  /** Wherever a text of printed calls stops, exactly what has arrived of them shows. */
  lemma {:induction false} CallsStop(src: Source, form: Form, start: nat, msg: Msg, calls: seq<Call>, u: string,
                                     recovery: bool)
    requires src.partial && StreamForm(form) && form.Usable() && StreamCalls(form, calls)
    requires u <= ScopeText(form, calls) && Ends(src, u) && start <= At(src, u) <= |src.input|
    ensures var r := Tools(src, form, start, State(At(src, u), msg), recovery);
      r.0 != SyntaxException && r.1.msg == Shown(msg, form, calls, u)
    decreases |calls|
  {
    hide *;
    UsableForm(form);
    var st := State(At(src, u), msg);
    var t := Tool(src, form, start, st, recovery);
    ScopeTextIs(form, calls);
    ToolsStep(src, form, start, st, recovery);
    if calls == [] {
      ScopeStops(src, form, start, msg, u, recovery);
      NothingShown(form, msg, u);
      ClosingStops(src, form, start, msg, u, recovery);
      ClosingKeeps(src, form, start, st, recovery);
      if t != NoMoreTools(st) {
        HaltsMeans(t, msg);
      }
    } else {
      var c, text, rest := calls[0], CallText(form, calls[0]), ScopeText(form, calls[1..]);
      StreamCallsRest(form, calls);
      CallIs(form, c);
      EmptyLead(form, u);
      if |u| >= |text| {
        Dropped(text, rest, u);
        var v := u[|text|..];
        SplitAtEnd(text, v, u);
        CallPasses(src, form, start, "", c, msg, v, recovery);
        WholeShown(form, msg, calls, u);
        CallsStop(src, form, start, AddCall(msg, c.name, Dump(c.args)), calls[1..], v, false);
      } else {
        Begun(text, rest, u);
        CallStops(src, form, start, "", c, msg, u, recovery);
        OpenShown(form, msg, calls, u);
        if u == "" {
          NothingYet(form, u);
          ClosingStops(src, form, start, msg, u, recovery);
          ClosingKeeps(src, form, start, st, recovery);
        } else {
          HaltsMeans(t, Shown(msg, form, calls, u));
        }
      }
    }
  }

  lemma NothingYet(form: Form, u: string)
    requires form.Usable() && u == ""
    ensures |u| < |form.toolStart| && u <= form.scopeEnd
  {
  }

  lemma EmptyLead(form: Form, u: string)
    ensures "" + u == u && AllSpace("") && Delimited("", form.toolStart)
  {
    EmptyIsDelimited(form.toolStart);
  }

  // ---------- the whole scope ----------

  lemma {:induction false} PrintCallsIs(form: Form, calls: seq<Call>, tail: string)
    ensures PrintCalls(form, calls, tail) == CallsText(form, calls) + tail
    decreases |calls|
  {
    hide CallText, PrintCall;
    if calls == [] {
      assert "" + tail == tail;
    } else {
      PrintCallsIs(form, calls[1..], tail);
      PrintCallIs(form, calls[0], PrintCalls(form, calls[1..], tail));
      assert CallText(form, calls[0]) + (CallsText(form, calls[1..]) + tail)
          == CallText(form, calls[0]) + CallsText(form, calls[1..]) + tail;
    }
  }

  lemma PrintIs(form: Form, calls: seq<Call>)
    ensures Print(form, calls, "") == form.scopeStart + ScopeText(form, calls)
  {
    PrintCallsIs(form, calls, form.scopeEnd + "");
    assert form.scopeEnd + "" == form.scopeEnd;
  }

  /** What has arrived behind the start of the scope. */
  function Arrived(form: Form, u: string): string {
    if |u| < |form.scopeStart| then "" else u[|form.scopeStart|..]
  }

  /** A blank scope start is only told from blanks by the call behind it. */
  ghost predicate StreamText(form: Form, calls: seq<Call>) {
    && StreamForm(form) && StreamCalls(form, calls)
    && (calls == [] ==> form.scopeStart == "" || !AllSpace(form.scopeStart))
  }

  lemma NoneArrived(form: Form, msg: Msg, calls: seq<Call>)
    requires form.Usable()
    ensures Shown(msg, form, calls, "") == msg
  {
    if calls != [] {
      ShownCallsIs(form, calls, "");
      assert |CallText(form, calls[0])| >= |form.toolStart|;
    }
    hide ShownCalls;
    assert msg.toolCalls + [] == msg.toolCalls;
  }

  /** Within a scope start that is not blank nothing shows. */
  lemma ScopeStartStops(src: Source, form: Form, msg: Msg, u: string)
    requires src.partial && StreamForm(form) && form.Usable() && Ends(src, u) && 0 <= At(src, u) <= |src.input|
    requires !AllSpace(form.scopeStart) && u < form.scopeStart
    ensures var r := ParseXml(src, form, State(At(src, u), msg)); r.0 != SyntaxException && r.1.msg == msg
  {
    hide Tools, CleanForm;
    assert "" + u == u;
    if u == "" {
      NotFound(src, u, form.scopeStart);
    } else {
      hide FindLiteral;
      PartFound(src, "", u, form.scopeStart);
    }
  }

  lemma ScopeStartPasses(src: Source, form: Form, msg: Msg, v: string)
    requires form.Usable() && !AllSpace(form.scopeStart)
    requires Ends(src, form.scopeStart + v) && 0 <= At(src, form.scopeStart + v) <= |src.input|
    ensures Ends(src, v) && At(src, form.scopeStart + v) <= At(src, v) <= |src.input|
    ensures ParseXml(src, form, State(At(src, form.scopeStart + v), msg)) ==
            Tools(src, form, At(src, form.scopeStart + v), State(At(src, v), msg), true)
  {
    hide Tools, FindLiteral;
    LiteralRead(src, form.scopeStart, v);
    EndsInside(src, v);
  }

  lemma BlankScopeIs(src: Source, form: Form, st: State)
    requires st.pos <= |src.input| && form.Usable() && AllSpace(form.scopeStart)
    ensures ParseXml(src, form, st) == Tools(src, form, st.pos, st, true)
  {
    hide Tools;
  }

  lemma BlankLead(form: Form)
    requires StreamForm(form) && AllSpace(form.scopeStart)
    ensures Delimited(form.scopeStart, form.toolStart)
  {
  }

  lemma BlankFront(lead: string, u: string)
    requires AllSpace(lead) && u <= lead
    ensures AllSpace(u) && u + "" == u
  {
  }

  /** Blanks before the first call show nothing. */
  lemma BlanksStop(src: Source, form: Form, msg: Msg, u: string)
    requires src.partial && StreamForm(form) && form.Usable() && AllSpace(u)
    requires Ends(src, u) && 0 <= At(src, u) <= |src.input|
    ensures var r := Tools(src, form, At(src, u), State(At(src, u), msg), true);
      r.0 != SyntaxException && r.1.msg == msg
  {
    hide *;
    BlankFront(u, u);
    var st := State(At(src, u), msg);
    NothingYet(form, "");
    EmptyBegins(form.toolStart);
    StartStops(src, form, At(src, u), u, msg, "", true);
    ToolsStep(src, form, At(src, u), st, true);
    ClosingStops(src, form, At(src, u), msg, u, true);
    ClosingKeeps(src, form, At(src, u), st, true);
  }

  lemma EmptyBegins(lit: string)
    ensures |""| < |lit| ==> "" < lit
  {
  }

  /** A blank scope start and the first call. */
  lemma BlankScopeStops(src: Source, form: Form, msg: Msg, calls: seq<Call>, v: string)
    requires src.partial && StreamForm(form) && form.Usable() && StreamCalls(form, calls) && AllSpace(form.scopeStart)
    requires calls != [] && v <= ScopeText(form, calls)
    requires Ends(src, form.scopeStart + v) && 0 <= At(src, form.scopeStart + v) <= |src.input|
    ensures var pos := At(src, form.scopeStart + v);
      var r := Tools(src, form, pos, State(pos, msg), true);
      r.0 != SyntaxException && r.1.msg == Shown(msg, form, calls, v)
  {
    hide *;
    UsableForm(form);
    BlankLead(form);
    var c, text, rest, pos := calls[0], CallText(form, calls[0]), ScopeText(form, calls[1..]),
      At(src, form.scopeStart + v);
    var st := State(pos, msg);
    var t := Tool(src, form, pos, st, true);
    StreamCallsRest(form, calls);
    CallIs(form, c);
    ScopeTextIs(form, calls);
    ToolsStep(src, form, pos, st, true);
    if |v| >= |text| {
      Dropped(text, rest, v);
      var w := v[|text|..];
      SplitAtEnd(text, w, v);
      CallPasses(src, form, pos, form.scopeStart, c, msg, w, true);
      WholeShown(form, msg, calls, v);
      CallsStop(src, form, pos, AddCall(msg, c.name, Dump(c.args)), calls[1..], w, false);
    } else {
      Begun(text, rest, v);
      CallStops(src, form, pos, form.scopeStart, c, msg, v, true);
      OpenShown(form, msg, calls, v);
      if v == "" {
        BlankFront(form.scopeStart, form.scopeStart);
        BlanksStop(src, form, msg, form.scopeStart + v);
        NothingYet(form, v);
      } else {
        HaltsMeans(t, Shown(msg, form, calls, v));
      }
    }
  }

  lemma ParseStops(src: Source, form: Form, msg: Msg, calls: seq<Call>, u: string)
    requires src.partial && StreamText(form, calls)
    requires Ends(src, u) && 0 <= At(src, u) <= |src.input| && u <= Print(form, calls, "")
    ensures form.Usable()
    ensures var r := ParseXml(src, form, State(At(src, u), msg));
      r.0 != SyntaxException && r.1.msg == Shown(msg, form, calls, Arrived(form, u))
  {
    var lead, text := form.scopeStart, ScopeText(form, calls);
    PrintIs(form, calls);
    NoneArrived(form, msg, calls);
    var st := State(At(src, u), msg);
    if |u| < |lead| {
      Begun(lead, text, u);
      hide *;
      if AllSpace(lead) {
        BlankFront(lead, u);
        BlankScopeIs(src, form, st);
        BlanksStop(src, form, msg, u);
      } else {
        ScopeStartStops(src, form, msg, u);
      }
    } else {
      Dropped(lead, text, u);
      var v := u[|lead|..];
      SplitAtEnd(lead, v, u);
      hide *;
      if !AllSpace(lead) {
        ScopeStartPasses(src, form, msg, v);
        CallsStop(src, form, At(src, u), msg, calls, v, true);
      } else {
        BlankScopeIs(src, form, st);
        if calls == [] {
          CallsStop(src, form, At(src, u), msg, calls, v, true);
        } else {
          BlankScopeStops(src, form, msg, calls, v);
        }
      }
    }
  }

  // ---------- streaming ----------

  /** The message after try_consume_xml_tool_calls when `u` has arrived behind `before`. */
  function Seen(form: Form, syntax: Syntax, before: string, msg: Msg, u: string): Msg
    requires form.Usable()
  {
    TryConsume(Source(before + u, true, syntax), form, State(|before|, msg)).1.msg
  }

  /** Wherever the text of printed calls stops, the message holds the calls that have arrived, and of the one
      that is open as much as is certain. */
  lemma SeenIsShown(form: Form, syntax: Syntax, before: string, msg: Msg, calls: seq<Call>, u: string)
    requires StreamText(form, calls) && u <= Print(form, calls, "")
    ensures form.Usable() && Seen(form, syntax, before, msg, u) == Shown(msg, form, calls, Arrived(form, u))
  {
    var src := Source(before + u, true, syntax);
    assert src.input[|before|..] == u;
    hide ParseXml, Shown, Print, StreamText;
    ParseStops(src, form, msg, calls, u);
  }

  lemma AppendGrows(m: seq<ToolCall>, a: seq<ToolCall>, b: seq<ToolCall>)
    requires CallsGrow(a, b)
    ensures CallsGrow(m + a, m + b)
  {
    if a != [] {
      var x, y := m + a, m + b;
      assert x[..|x| - 1] == m + a[..|a| - 1] && y[..|x| - 1] == m + b[..|a| - 1];
    } else if m != [] {
      assert (m + a)[..|m| - 1] == m[..|m| - 1] == (m + b)[..|m| - 1];
    }
  }

  lemma GrowExtends(m: Msg, n: Msg)
    requires m.reasoning == n.reasoning && m.content == n.content && CallsGrow(m.toolCalls, n.toolCalls)
    ensures Extends(m, n)
  {
  }

  lemma ArrivedGrows(form: Form, calls: seq<Call>, u: string, t: string)
    requires u <= t <= Print(form, calls, "")
    ensures Arrived(form, u) <= Arrived(form, t) <= ScopeText(form, calls)
  {
    hide Print, ScopeText;
    PrintIs(form, calls);
    if |t| >= |form.scopeStart| {
      Dropped(form.scopeStart, ScopeText(form, calls), t);
    }
  }

  /** Beyond the calls nothing more shows. */
  lemma {:induction false} ShownWithin(form: Form, calls: seq<Call>, u: string)
    requires u <= ScopeText(form, calls)
    ensures var n := |CallsText(form, calls)|;
      ShownCalls(form, calls, u) == ShownCalls(form, calls, if |u| < n then u else u[..n])
    decreases |calls|
  {
    hide CallText, ShownBody, Dump;
    if calls != [] {
      var text, rest := CallText(form, calls[0]), CallsText(form, calls[1..]);
      ScopeTextIs(form, calls);
      if |u| >= |text| {
        Dropped(text, ScopeText(form, calls[1..]), u);
        ShownWithin(form, calls[1..], u[|text|..]);
        if |u| >= |text + rest| {
          assert u[..|text + rest|][|text|..] == u[|text|..][..|rest|];
        }
      }
    }
  }

  lemma WithinCalls(form: Form, calls: seq<Call>, u: string)
    requires u <= ScopeText(form, calls)
    ensures var n := |CallsText(form, calls)|;
      (if |u| < n then u else u[..n]) <= CallsText(form, calls)
  {
    var text := CallsText(form, calls);
    if |u| < |text| {
      Begun(text, form.scopeEnd, u);
    } else {
      Dropped(text, form.scopeEnd, u);
    }
  }

  /** What has been seen is continued by what is seen later: no difference fails, and the client ends with
      the later message. */
  lemma SeenGrows(form: Form, syntax: Syntax, before: string, msg: Msg, calls: seq<Call>, u: string, t: string)
    requires StreamText(form, calls) && u <= t <= Print(form, calls, "")
    ensures form.Usable()
    ensures var m, n := Seen(form, syntax, before, msg, u), Seen(form, syntax, before, msg, t);
      Extends(m, n) && ComputeDiffs(m, n).Ok? && Rebuilt(m, n) == n
  {
    SeenIsShown(form, syntax, before, msg, calls, u);
    SeenIsShown(form, syntax, before, msg, calls, t);
    ArrivedGrows(form, calls, u, t);
    var v, w, n := Arrived(form, u), Arrived(form, t), |CallsText(form, calls)|;
    hide Seen, Print, Arrived, ScopeText, ShownCalls, CallsText, StreamForm, StreamCall;
    ShownWithin(form, calls, v);
    ShownWithin(form, calls, w);
    WithinCalls(form, calls, v);
    WithinCalls(form, calls, w);
    var x, y := if |v| < n then v else v[..n], if |w| < n then w else w[..n];
    ShownCallsGrow(form, calls, x, y);
    AppendGrows(msg.toolCalls, ShownCalls(form, calls, x), ShownCalls(form, calls, y));
    GrowExtends(Shown(msg, form, calls, v), Shown(msg, form, calls, w));
    DiffsConserve(Shown(msg, form, calls, v), Shown(msg, form, calls, w));
  }

  lemma {:induction false} AllShown(form: Form, msg: Msg, calls: seq<Call>)
    requires form.Usable() && StreamCalls(form, calls)
    ensures Shown(msg, form, calls, ScopeText(form, calls)) == Added(msg, calls)
    decreases |calls|
  {
    hide Shown, ScopeText, CallText, StreamCall, AddCall, Dump;
    ScopeTextIs(form, calls);
    if calls == [] {
      NothingShown(form, msg, form.scopeEnd);
    } else {
      var text, rest := CallText(form, calls[0]), ScopeText(form, calls[1..]);
      StreamCallsRest(form, calls);
      CallIs(form, calls[0]);
      assert (text + rest)[|text|..] == rest;
      WholeShown(form, msg, calls, text + rest);
      AllShown(form, AddCall(msg, calls[0].name, Dump(calls[0].args)), calls[1..]);
    }
  }

  /** When the whole text has arrived, all calls are there. */
  lemma SeenWhole(form: Form, syntax: Syntax, before: string, msg: Msg, calls: seq<Call>)
    requires StreamText(form, calls)
    ensures form.Usable() && Seen(form, syntax, before, msg, Print(form, calls, "")) == Added(msg, calls)
  {
    hide Seen, Shown, Print, ScopeText, StreamForm;
    SeenIsShown(form, syntax, before, msg, calls, Print(form, calls, ""));
    PrintIs(form, calls);
    assert (form.scopeStart + ScopeText(form, calls))[|form.scopeStart|..] == ScopeText(form, calls);
    AllShown(form, msg, calls);
  }

  lemma SeenNothing(form: Form, syntax: Syntax, before: string, msg: Msg, calls: seq<Call>)
    requires StreamText(form, calls)
    ensures form.Usable() && Seen(form, syntax, before, msg, "") == msg
  {
    hide Seen, Shown, Print, StreamForm;
    SeenIsShown(form, syntax, before, msg, calls, "");
    NoneArrived(form, msg, calls);
  }

  // ---------- the delimiters of a format of the program ----------

  const MINIMAX := Form("<minimax:tool_call>\n", "<invoke name=\"", "\">\n", "<parameter name=\"", "\">",
    "</parameter>\n", "</invoke>\n", "</minimax:tool_call>", None, false)

  /** A name or key without angle brackets and quotes. */
  predicate PlainWord(w: string) {
    w != "" && Stripped(w) && '<' !in w && '"' !in w
  }

  /** With these delimiters, whatever calls have plain names, distinct plain keys and values without an
      opening angle bracket are told as they arrive. */
  lemma MinimaxStreams(calls: seq<Call>)
    requires forall i :: 0 <= i < |calls| ==> PlainWord(calls[i].name) && Distinct(calls[i].args)
    requires forall i, j :: 0 <= i < |calls| && 0 <= j < |calls[i].args| ==> PlainArg(calls[i].args[j])
    ensures StreamText(MINIMAX, calls)
  {
    hide *;
    MinimaxForm();
    forall i | 0 <= i < |calls| ensures StreamCall(MINIMAX, calls[i]) {
      MinimaxCall(calls[i]);
    }
    TextStreams(MINIMAX, calls);
  }

  ghost predicate PlainArg(arg: (string, string)) {
    PlainWord(arg.0) && !EndsWith(arg.0, NEEDLE) && ValidUtf8(arg.0) && '<' !in arg.1 && ValidUtf8(arg.1)
  }

  lemma TextStreams(form: Form, calls: seq<Call>)
    requires StreamForm(form) && form.Usable() && form.scopeStart != "" && !AllSpace(form.scopeStart)
    requires forall i :: 0 <= i < |calls| ==> StreamCall(form, calls[i])
    ensures StreamText(form, calls)
  {
    hide StreamForm, StreamCall;
  }

  lemma MinimaxForm()
    ensures MINIMAX.Usable() && StreamForm(MINIMAX) && MINIMAX.scopeStart != "" && !AllSpace(MINIMAX.scopeStart)
  {
    hide FirstDoesNotRecur, Ascii, Apart, Delimited;
    MinimaxFirsts();
    MinimaxEnds();
    MinimaxApart();
    assert !IsSpace(MINIMAX.scopeStart[0]) && !IsSpace(MINIMAX.toolStart[0]);
    assert !IsSpace(MINIMAX.keyStart[0]) && !IsSpace(MINIMAX.toolEnd[0]);
  }

  lemma MinimaxFirsts()
    ensures FirstDoesNotRecur(MINIMAX.scopeStart) && FirstDoesNotRecur(MINIMAX.toolStart)
    ensures FirstDoesNotRecur(MINIMAX.toolSep) && FirstDoesNotRecur(MINIMAX.keyStart)
    ensures FirstDoesNotRecur(MINIMAX.keyValSep)
  {
  }

  lemma MinimaxEnds()
    ensures FirstDoesNotRecur(MINIMAX.valEnd) && FirstDoesNotRecur(MINIMAX.toolEnd)
      && FirstDoesNotRecur(MINIMAX.scopeEnd)
    ensures Ascii(MINIMAX.keyValSep) && Ascii(MINIMAX.valEnd)
  {
  }

  lemma FirstNotLater(lit: string)
    requires lit != "" && FirstDoesNotRecur(lit)
    ensures lit[0] !in lit[1..]
  {
  }

  lemma MinimaxApart()
    ensures Apart(MINIMAX.keyStart, MINIMAX.toolEnd) && MINIMAX.keyStart[0] !in MINIMAX.toolEnd[1..]
    ensures Apart(MINIMAX.toolStart, MINIMAX.scopeEnd) && MINIMAX.toolStart[0] !in MINIMAX.scopeEnd[1..]
  {
    MinimaxEnds();
    hide FirstDoesNotRecur, Apart;
    FirstNotLater(MINIMAX.toolEnd);
    FirstNotLater(MINIMAX.scopeEnd);
    DifferAt(MINIMAX.keyStart, MINIMAX.toolEnd, 1);
    DifferAt(MINIMAX.toolStart, MINIMAX.scopeEnd, 1);
  }

  lemma DifferAt(a: string, b: string, i: nat)
    requires i < |a| && i < |b| && a[i] != b[i]
    ensures Apart(a, b)
  {
  }

  lemma FreshDelimited(field: string, delim: string)
    requires delim != "" && delim[0] !in field
    ensures Delimited(field, delim)
  {
    hide Find;
    var all := field + delim;
    assert all[|field|..|field| + |delim|] == delim;
    forall j | 0 <= j < |field| ensures !MatchAt(all, j, delim) {
      assert all[j] == field[j] && (j + |delim| <= |all| ==> all[j..j + |delim|][0] == all[j]);
    }
    FindIs(all, delim, 0, |field|);
  }

  lemma MinimaxCall(c: Call)
    requires PlainWord(c.name) && Distinct(c.args) && forall j :: 0 <= j < |c.args| ==> PlainArg(c.args[j])
    ensures MINIMAX.Usable() && StreamCall(MINIMAX, c)
  {
    hide Find, ValidUtf8, EndsWith, Delimited;
    var solid := MINIMAX.toolSep[0];
    assert !IsSpace(solid);
    FreshDelimited(c.name, MINIMAX.toolSep);
    Absent(c.name, MINIMAX.toolEnd);
    forall j | 0 <= j < |c.args| ensures StreamArg(MINIMAX, c.args[j]) {
      FreshDelimited(c.args[j].0, MINIMAX.keyValSep);
      FreshDelimited(c.args[j].1, MINIMAX.valEnd);
    }
  }
}
