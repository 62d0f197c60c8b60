/** The XML-style tool-call parser of chat-parser-xml-toolcall.cpp, for forms with raw argument
    values and without alternative last ends.

    Exceptions are outcomes. The parser is first given as functions on states, one for each
    stretch of the program; the methods at the end are the program's loops over a builder. */
module XmlToolCall {
  import opened Text
  import opened ChatDiff
  import opened ChatParser
  import opened Utf8

  /** xml_tool_call_format, with raw_argval true and no last_val_end or last_tool_end. */
  datatype Form = Form(
    scopeStart: string, toolStart: string, toolSep: string, keyStart: string, keyValSep: string,
    valEnd: string, toolEnd: string, scopeEnd: string, keyValSep2: Option<string>, trimRawArgval: bool)
  {
    /** What the program asserts of every form. */
    predicate Usable() {
      toolStart != "" && keyStart != "" && keyValSep != "" && valEnd != "" && toolEnd != ""
    }
  }

  /** A return value, or the exception that ends the parse. */
  datatype Outcome = Returned(value: bool) | PartialException | SyntaxException

  // ---------- arguments as JSON ----------

  /** The argument object: keys in order of first assignment. */
  type Args = seq<(string, string)>

  function Put(args: Args, key: string, value: string): Args {
    if args == [] then [(key, value)]
    else if args[0].0 == key then [(key, value)] + args[1..]
    else [args[0]] + Put(args[1..], key, value)
  }

  function Hex(x: int): char {
    if 0 <= x < 10 then '0' + x as char else 'a' + (if 10 <= x < 16 then x - 10 else 0) as char
  }

  /** One byte inside a JSON string, as json::dump writes it. */
  function Escape(c: char): string {
    if c == '"' then "\\\""
    else if c == '\\' then "\\\\"
    else if c == 8 as char then "\\b"
    else if c == 12 as char then "\\f"
    else if c == '\n' then "\\n"
    else if c == '\r' then "\\r"
    else if c == '\t' then "\\t"
    else if c < 32 as char then ['\\', 'u', '0', '0', Hex(c as int / 16), Hex(c as int % 16)]
    else [c]
  }

  function Escaped(s: string): string {
    if s == "" then "" else Escape(s[0]) + Escaped(s[1..])
  }

  function Quoted(s: string): string {
    "\"" + Escaped(s) + "\""
  }

  function Members(args: Args): string {
    if args == [] then ""
    else Quoted(args[0].0) + ":" + Quoted(args[0].1) + (if |args| == 1 then "" else "," + Members(args[1..]))
  }

  /** arguments.dump(). */
  function Dump(args: Args): string {
    "{" + Members(args) + "}"
  }

  /** The dump without its closing brace, for a call that is still open. */
  function OpenDump(args: Args): string {
    "{" + Members(args)
  }

  const NEEDLE := "XML_TOOL_CALL_PARTIAL_FLAG"

  /** std::string::rfind, from `at` downwards. */
  function FindLast(s: string, lit: string, at: nat): Option<nat> {
    if MatchAt(s, at, lit) then Some(at) else if at == 0 then None else FindLast(s, lit, at - 1)
  }

  /** Nothing but closing punctuation and blanks. */
  predicate Punctuation(s: string) {
    forall i :: 0 <= i < |s| ==> s[i] in "'\"}:" || IsSpace(s[i])
  }

  /** partial_json: the text before the last needle, if only closing punctuation follows it. */
  function CutAtNeedle(json: string): Option<string> {
    match FindLast(json, NEEDLE, |json|)
    case None => None
    case Some(p) =>
      var rest := if p + |NEEDLE| <= |json| then json[p + |NEEDLE|..] else "";
      if !Punctuation(rest) then None
      else
        var q := if p != 0 && p <= |json| && json[p - 1] == '"' then p - 1 else p;
        if q <= |json| then Some(json[..q]) else None
  }

  // ---------- one argument ----------

  function AddCall(msg: Msg, name: string, arguments: string): Msg {
    if name == "" then msg else msg.(toolCalls := msg.toolCalls + [ToolCall(name, arguments, "")])
  }

  /** consume_rest, cut back to whole code points. */
  function Rest(src: Source, pos: nat): string
    requires pos <= |src.input|
  {
    src.input[pos..][..TruncateSafe(src.input[pos..])]
  }

  /** gen_partial_json, for arguments that already hold the needle. */
  function CutCall(src: Source, st: State, name: string, args: Args): State {
    State(|src.input|,
      match CutAtNeedle(Dump(args))
      case Some(t) => AddCall(st.msg, name, t)
      case None => st.msg)
  }

  /** The literal was found whole, not cut off by the end of the input. */
  predicate Whole(f: Found, lit: string) {
    f.end - f.begin == |lit|
  }

  /** One turn of the argument loop: an exception, the end of the loop, or one more argument. */
  datatype ArgTurn = ArgHalt(outcome: Outcome, st: State) | NoMoreArgs(st: State) | ArgRead(st: State, args: Args)

  function Value(src: Source, form: Form, name: string, st: State, args: Args, key: string): (t: ArgTurn)
    requires st.pos <= |src.input|
  {
    match FindLiteral(src, st.pos, form.valEnd)
    case None =>
      var rest := Rest(src, st.pos);
      ArgHalt(PartialException,
              CutCall(src, st, name, Put(args, key, (if form.trimRawArgval then Strip(rest) else rest) + NEEDLE)))
    case Some(v) =>
      var value := if form.trimRawArgval then Strip(v.prelude) else v.prelude;
      if !Whole(v, form.valEnd) then
        ArgHalt(PartialException, CutCall(src, st, name, Put(args, key, value + NEEDLE)))
      else ArgRead(st.(pos := v.end), Put(args, key, value))
  }

  function Separator2(src: Source, form: Form, name: string, st: State, args: Args, key: string): (t: ArgTurn)
    requires st.pos <= |src.input|
  {
    if form.keyValSep2.None? then Value(src, form, name, st, args, key)
    else
      match FindLiteral(src, st.pos, form.keyValSep2.value)
      case None => ArgHalt(PartialException, CutCall(src, st, name, Put(args, key, NEEDLE)))
      case Some(f) =>
        if !AllSpace(f.prelude) then ArgHalt(SyntaxException, st.(pos := f.end))
        else if !Whole(f, form.keyValSep2.value) then
          ArgHalt(PartialException, CutCall(src, st, name, Put(args, key, NEEDLE)))
        else Value(src, form, name, st.(pos := f.end), args, key)
  }

  function Key(src: Source, form: Form, name: string, st: State, args: Args): (t: ArgTurn)
    requires st.pos <= |src.input|
  {
    match FindLiteral(src, st.pos, form.keyValSep)
    case None => ArgHalt(PartialException, CutCall(src, st, name, Put(args, Rest(src, st.pos) + NEEDLE, "")))
    case Some(k) =>
      if !Whole(k, form.keyValSep) then
        ArgHalt(PartialException, CutCall(src, st, name, Put(args, k.prelude + NEEDLE, "")))
      else Separator2(src, form, name, st.(pos := k.end), args, k.prelude)
  }

  function Arg(src: Source, form: Form, name: string, st: State, args: Args): (t: ArgTurn)
    requires st.pos <= |src.input|
  {
    match FindLiteral(src, st.pos, form.keyStart)
    case None => NoMoreArgs(st)
    case Some(f) =>
      if !AllSpace(f.prelude) then NoMoreArgs(st)
      else if !Whole(f, form.keyStart) then
        ArgHalt(PartialException, State(f.end, AddCall(st.msg, name, OpenDump(args))))
      else Key(src, form, name, st.(pos := f.end), args)
  }

  /** A turn moves forward, and changes nothing but the tool calls, at whose end it may add when it halts. */
  predicate GoodTurn(src: Source, st: State, t: ArgTurn) {
    && st.pos <= t.st.pos <= |src.input| && OnlyAddsCalls(st.msg, t.st.msg)
    && (t.ArgRead? ==> st.pos < t.st.pos)
    && if t.ArgHalt? then !t.outcome.Returned? else t.st.msg == st.msg
  }

  lemma CutCallAdds(src: Source, st: State, name: string, args: Args)
    requires st.pos <= |src.input|
    ensures GoodTurn(src, st, ArgHalt(PartialException, CutCall(src, st, name, args)))
  {
    hide CutAtNeedle, Dump;
  }

  lemma ValueMovesOn(src: Source, form: Form, name: string, st: State, args: Args, key: string)
    requires st.pos <= |src.input| && form.Usable()
    ensures GoodTurn(src, st, Value(src, form, name, st, args, key))
  {
    hide CutCall, Rest, Strip, Put, FindLiteral;
    forall a ensures GoodTurn(src, st, ArgHalt(PartialException, CutCall(src, st, name, a))) {
      CutCallAdds(src, st, name, a);
    }
    NonEmptyMatch(src, st.pos, form.valEnd);
  }

  lemma KeyMovesOn(src: Source, form: Form, name: string, st: State, args: Args)
    requires st.pos <= |src.input| && form.Usable()
    ensures GoodTurn(src, st, Key(src, form, name, st, args))
  {
    hide CutCall, Rest, Strip, Put, FindLiteral, Value;
    forall a ensures GoodTurn(src, st, ArgHalt(PartialException, CutCall(src, st, name, a))) {
      CutCallAdds(src, st, name, a);
    }
    var k := FindLiteral(src, st.pos, form.keyValSep);
    if k.Some? {
      var s := st.(pos := k.value.end);
      forall a ensures GoodTurn(src, st, ArgHalt(PartialException, CutCall(src, s, name, a))) {
        CutCallAdds(src, s, name, a);
      }
      ValueMovesOn(src, form, name, s, args, k.value.prelude);
      if form.keyValSep2.Some? {
        var f := FindLiteral(src, s.pos, form.keyValSep2.value);
        if f.Some? {
          ValueMovesOn(src, form, name, s.(pos := f.value.end), args, k.value.prelude);
        }
      }
    }
  }

  lemma ArgMovesOn(src: Source, form: Form, name: string, st: State, args: Args)
    requires st.pos <= |src.input| && form.Usable()
    ensures GoodTurn(src, st, Arg(src, form, name, st, args))
  {
    hide Key, FindLiteral, OpenDump;
    var f := FindLiteral(src, st.pos, form.keyStart);
    if f.Some? {
      KeyMovesOn(src, form, name, st.(pos := f.value.end), args);
    }
  }

  predicate OnlyAddsCalls(m: Msg, n: Msg) {
    m.content == n.content && m.reasoning == n.reasoning && m.toolCalls <= n.toolCalls
  }

  // ---------- one tool call ----------

  datatype ArgsEnd = Halted(outcome: Outcome, st: State) | Ended(st: State, args: Args, recovery: bool)

  function ArgsLoop(src: Source, form: Form, name: string, st: State, args: Args, recovery: bool): (r: ArgsEnd)
    requires st.pos <= |src.input| && form.Usable()
    decreases |src.input| - st.pos
  {
    ArgMovesOn(src, form, name, st, args);
    match Arg(src, form, name, st, args)
    case ArgHalt(o, s) => Halted(o, s)
    case NoMoreArgs(s) => Ended(s, args, recovery)
    case ArgRead(s, a) => ArgsLoop(src, form, name, s, a, false)
  }

  /** Where the tool's name ends. */
  function ToolName(src: Source, form: Form, pos: nat): (r: Option<Found>)
    requires pos <= |src.input|
    ensures r.Some? ==> pos <= r.value.begin <= r.value.end <= |src.input|
  {
    var bySep := FindLiteral(src, pos, if AllSpace(form.toolSep) then form.keyStart else form.toolSep);
    var f := if bySep.None? then FindLiteral(src, pos, form.toolEnd) else bySep;
    if f.Some? && Find(f.value.prelude, form.toolEnd, 0).Some? then FindLiteral(src, pos, form.toolEnd) else f
  }

  datatype ToolTurn = ToolHalt(outcome: Outcome, st: State) | NoMoreTools(st: State) | ToolRead(st: State)

  /** return_error. */
  function Fail(start: nat, st: State, recovery: bool): (t: ToolTurn)
    ensures t.ToolHalt?
  {
    if recovery then ToolHalt(Returned(false), st.(pos := start)) else ToolHalt(SyntaxException, st)
  }

  function CloseTool(src: Source, form: Form, start: nat, name: string, st: State, args: Args, recovery: bool): ToolTurn
    requires st.pos <= |src.input|
  {
    match FindLiteral(src, st.pos, form.toolEnd)
    case None => ToolHalt(PartialException, State(st.pos, AddCall(st.msg, name, OpenDump(args))))
    case Some(f) =>
      if !AllSpace(f.prelude) then Fail(start, st.(pos := f.end), recovery)
      else if !Whole(f, form.toolEnd) then
        ToolHalt(PartialException, State(f.end, AddCall(st.msg, name, OpenDump(args))))
      else if name == "" then ToolHalt(PartialException, st.(pos := f.end))
      else ToolRead(State(f.end, AddCall(st.msg, name, Dump(args))))
  }

  function NamedTool(src: Source, form: Form, start: nat, st: State, recovery: bool): ToolTurn
    requires st.pos <= |src.input| && form.Usable()
  {
    match ToolName(src, form, st.pos)
    case None => ToolHalt(PartialException, st)
    case Some(f) =>
      var name := Strip(f.prelude);
      ArgsLoopInside(src, form, name, st.(pos := if AllSpace(form.toolSep) then f.begin else f.end), [], recovery);
      match ArgsLoop(src, form, name, st.(pos := if AllSpace(form.toolSep) then f.begin else f.end), [], recovery)
      case Halted(o, s) => ToolHalt(o, s)
      case Ended(s, args, rec) => CloseTool(src, form, start, name, s, args, rec)
  }

  function Tool(src: Source, form: Form, start: nat, st: State, recovery: bool): ToolTurn
    requires st.pos <= |src.input| && form.Usable()
  {
    match FindLiteral(src, st.pos, form.toolStart)
    case None => NoMoreTools(st)
    case Some(f) =>
      if !AllSpace(f.prelude) then NoMoreTools(st)
      else NamedTool(src, form, start, st.(pos := f.end), recovery)
  }

  lemma {:induction false} ArgsLoopInside(src: Source, form: Form, name: string, st: State, args: Args, recovery: bool)
    requires st.pos <= |src.input| && form.Usable()
    ensures var e := ArgsLoop(src, form, name, st, args, recovery);
            st.pos <= e.st.pos <= |src.input| && OnlyAddsCalls(st.msg, e.st.msg)
    ensures var e := ArgsLoop(src, form, name, st, args, recovery);
            e.Ended? ==> e.st.msg == st.msg && (e.recovery ==> recovery)
    ensures var e := ArgsLoop(src, form, name, st, args, recovery);
            e.Halted? ==> !e.outcome.Returned?
    decreases |src.input| - st.pos
  {
    hide Arg;
    ArgMovesOn(src, form, name, st, args);
    var t := Arg(src, form, name, st, args);
    if t.ArgRead? {
      ArgsLoopInside(src, form, name, t.st, t.args, false);
    }
  }

  /** A turn either reads one whole call, stops where it started, or ends the parse; it returns
      false only when recovery is possible, back at the start and with the message it was given. */
  lemma ToolMovesOn(src: Source, form: Form, start: nat, st: State, recovery: bool)
    requires start <= st.pos <= |src.input| && form.Usable()
    ensures GoodToolTurn(src, start, st, recovery, Tool(src, form, start, st, recovery))
    ensures Tool(src, form, start, st, recovery).ToolRead? ==> st.pos < Tool(src, form, start, st, recovery).st.pos
  {
    hide FindLiteral, NamedTool;
    var f := FindLiteral(src, st.pos, form.toolStart);
    if f.Some? && AllSpace(f.value.prelude) {
      NonEmptyMatch(src, st.pos, form.toolStart);
      NamedMovesOn(src, form, start, st.(pos := f.value.end), recovery);
    }
  }

  predicate GoodToolTurn(src: Source, start: nat, st: State, recovery: bool, t: ToolTurn) {
    && t.st.pos <= |src.input| && OnlyAddsCalls(st.msg, t.st.msg)
    && (t.ToolRead? ==> st.pos <= t.st.pos && |t.st.msg.toolCalls| == |st.msg.toolCalls| + 1)
    && (t.NoMoreTools? ==> t.st == st)
    && (t.ToolHalt? ==> t.outcome != Returned(true))
    && (t.ToolHalt? && t.outcome == Returned(false) ==> recovery && t.st == State(start, st.msg))
  }

  lemma NamedMovesOn(src: Source, form: Form, start: nat, st: State, recovery: bool)
    requires start <= st.pos <= |src.input| && form.Usable()
    ensures GoodToolTurn(src, start, st, recovery, NamedTool(src, form, start, st, recovery))
    ensures !NamedTool(src, form, start, st, recovery).NoMoreTools?
  {
    hide FindLiteral, ArgsLoop, Strip, ToolName, CloseTool;
    var n := ToolName(src, form, st.pos);
    if n.Some? {
      var s := st.(pos := if AllSpace(form.toolSep) then n.value.begin else n.value.end);
      var name := Strip(n.value.prelude);
      ArgsLoopInside(src, form, name, s, [], recovery);
      var e := ArgsLoop(src, form, name, s, [], recovery);
      if e.Ended? {
        CloseMovesOn(src, form, start, name, e.st, e.args, e.recovery);
      }
    }
  }

  lemma CloseMovesOn(src: Source, form: Form, start: nat, name: string, st: State, args: Args, recovery: bool)
    requires start <= st.pos <= |src.input|
    ensures GoodToolTurn(src, start, st, recovery, CloseTool(src, form, start, name, st, args, recovery))
    ensures !CloseTool(src, form, start, name, st, args, recovery).NoMoreTools?
  {
    hide FindLiteral, Dump, OpenDump;
  }

  /** A literal that is not empty is never matched by nothing, not even by a cut-off match. */
  lemma NonEmptyMatch(src: Source, pos: nat, lit: string)
    requires pos <= |src.input| && lit != ""
    ensures FindLiteral(src, pos, lit).Some? ==>
              FindLiteral(src, pos, lit).value.begin < FindLiteral(src, pos, lit).value.end
  {
  }

  // ---------- the whole parse ----------

  function Closing(src: Source, form: Form, start: nat, st: State, recovery: bool): (Outcome, State)
    requires st.pos <= |src.input|
  {
    match FindLiteral(src, st.pos, form.scopeEnd)
    case Some(f) =>
      if AllSpace(f.prelude) then (Returned(true), st.(pos := f.end)) else Failed(start, st.(pos := f.end), recovery)
    case None =>
      var next := st.(pos := SkipSpaces(src.input, st.pos));
      if AllSpace(form.scopeEnd) then (Returned(true), st)
      else if next.pos == |src.input| then (PartialException, next)
      else Failed(start, next, recovery)
  }

  function Failed(start: nat, st: State, recovery: bool): (Outcome, State) {
    var t := Fail(start, st, recovery);
    (t.outcome, t.st)
  }

  function Tools(src: Source, form: Form, start: nat, st: State, recovery: bool): (Outcome, State)
    requires start <= st.pos <= |src.input| && form.Usable()
    decreases |src.input| - st.pos
  {
    ToolMovesOn(src, form, start, st, recovery);
    match Tool(src, form, start, st, recovery)
    case ToolHalt(o, s) => (o, s)
    case NoMoreTools(s) => Closing(src, form, start, s, recovery)
    case ToolRead(s) => Tools(src, form, start, s, false)
  }

  /** parse_xml_tool_calls. */
  function ParseXml(src: Source, form: Form, st: State): (Outcome, State)
    requires st.pos <= |src.input| && form.Usable()
  {
    if AllSpace(form.scopeStart) then Tools(src, form, st.pos, st, true)
    else
      match FindLiteral(src, st.pos, form.scopeStart)
      case None => (Returned(false), st)
      case Some(f) =>
        if !AllSpace(f.prelude) then (Returned(false), st)
        else if !Whole(f, form.scopeStart) then (PartialException, st.(pos := f.end))
        else Tools(src, form, st.pos, st.(pos := f.end), true)
  }

  /** try_consume_xml_tool_calls: a syntax exception becomes false, with cursor and calls put back. */
  function TryConsume(src: Source, form: Form, st: State): (Outcome, State)
    requires st.pos <= |src.input| && form.Usable()
  {
    ParseOnlyAdds(src, form, st);
    var (o, s) := ParseXml(src, form, st);
    if o.SyntaxException? then
      (Returned(false), State(st.pos, s.msg.(toolCalls := s.msg.toolCalls[..|st.msg.toolCalls|])))
    else (o, s)
  }

  /** Whatever happens, calls already read stay, in order, and the texts are untouched; false is
      returned only with the state it was called in. */
  lemma {:induction false} ToolsOnlyAdd(src: Source, form: Form, start: nat, st: State, recovery: bool)
    requires start <= st.pos <= |src.input| && form.Usable()
    ensures var r := Tools(src, form, start, st, recovery);
            && r.1.pos <= |src.input| && OnlyAddsCalls(st.msg, r.1.msg)
            && (r.0 == Returned(false) ==> recovery && r.1 == State(start, st.msg))
    decreases |src.input| - st.pos
  {
    hide Tool, FindLiteral;
    ToolMovesOn(src, form, start, st, recovery);
    var t := Tool(src, form, start, st, recovery);
    if t.ToolRead? {
      ToolsOnlyAdd(src, form, start, t.st, false);
    }
  }

  lemma ParseOnlyAdds(src: Source, form: Form, st: State)
    requires st.pos <= |src.input| && form.Usable()
    ensures var r := ParseXml(src, form, st);
            && r.1.pos <= |src.input| && OnlyAddsCalls(st.msg, r.1.msg)
            && (r.0 == Returned(false) ==> r.1 == st)
  {
    hide Tools, FindLiteral;
    if AllSpace(form.scopeStart) {
      ToolsOnlyAdd(src, form, st.pos, st, true);
    } else {
      var f := FindLiteral(src, st.pos, form.scopeStart);
      if f.Some? {
        ToolsOnlyAdd(src, form, st.pos, st.(pos := f.value.end), true);
      }
    }
  }

  /** A failed tool-call parse is atomic: when try_consume_xml_tool_calls returns false, whether
      by recovery or by a caught exception, nothing has changed. */
  lemma FailureIsAtomic(src: Source, form: Form, st: State)
    requires st.pos <= |src.input| && form.Usable()
    ensures TryConsume(src, form, st).0 == Returned(false) ==> TryConsume(src, form, st).1 == st
    ensures !TryConsume(src, form, st).0.SyntaxException?
  {
    hide ParseXml;
    ParseOnlyAdds(src, form, st);
  }

  // ---------- the program's own form ----------

  method AddPartialCall(builder: ChatMsgParser, name: string, arguments: string)
    modifies builder`result
    ensures builder.result == AddCall(old(builder.result), name, arguments)
  {
    var _ := builder.AddToolCall(name, "", arguments);
  }

  /** gen_partial_json: read to the end, set the marked argument, and add the cut call. */
  method GenPartial(builder: ChatMsgParser, name: string, args: Args)
    requires builder.Valid()
    modifies builder
    ensures builder.Valid() && builder.St() == CutCall(builder.Src(), old(builder.St()), name, args)
  {
    var _ := builder.ConsumeRest();
    var cut := CutAtNeedle(Dump(args));
    if cut.Some? {
      AddPartialCall(builder, name, cut.value);
    }
  }

  method ParseValue(builder: ChatMsgParser, form: Form, name: string, args: Args, key: string) returns (t: ArgTurn)
    requires builder.Valid() && form.Usable()
    modifies builder
    ensures builder.Valid() && t == Value(builder.Src(), form, name, old(builder.St()), args, key)
      && builder.St() == t.st
  {
    hide CutCall, FindLiteral, Put, Strip, Rest;
    ghost var st := builder.St();
    var rest := Rest(builder.Src(), builder.pos);
    var v := builder.TryFindLiteral(form.valEnd);
    if v.None? {
      GenPartial(builder, name, Put(args, key, (if form.trimRawArgval then Strip(rest) else rest) + NEEDLE));
      return ArgHalt(PartialException, builder.St());
    }
    var value := v.value.prelude;
    if form.trimRawArgval {
      value := StringStrip(value);
    }
    if v.value.end - v.value.begin != |form.valEnd| {
      GenPartial(builder, name, Put(args, key, value + NEEDLE));
      CutCallIgnoresPos(builder.Src(), st, v.value.end, name, Put(args, key, value + NEEDLE));
      return ArgHalt(PartialException, builder.St());
    }
    return ArgRead(builder.St(), Put(args, key, value));
  }

  lemma CutCallIgnoresPos(src: Source, st: State, pos: nat, name: string, args: Args)
    ensures CutCall(src, st.(pos := pos), name, args) == CutCall(src, st, name, args)
  {
    hide CutAtNeedle, Dump;
  }

  /** The argument after its key start; where the program throws, `t` says which exception. */
  method ParseSeparator2(builder: ChatMsgParser, form: Form, name: string, args: Args, key: string) returns (t: ArgTurn)
    requires builder.Valid() && form.Usable()
    modifies builder
    ensures builder.Valid() && t == Separator2(builder.Src(), form, name, old(builder.St()), args, key)
    ensures builder.St() == t.st
  {
    hide CutCall, FindLiteral, Put, Value;
    if form.keyValSep2.None? {
      t := ParseValue(builder, form, name, args, key);
      return;
    }
    ghost var st := builder.St();
    var f := builder.TryFindLiteral(form.keyValSep2.value);
    if f.Some? && !AllSpace(f.value.prelude) {
      return ArgHalt(SyntaxException, builder.St());
    }
    if f.None? || f.value.end - f.value.begin != |form.keyValSep2.value| {
      GenPartial(builder, name, Put(args, key, NEEDLE));
      if f.Some? {
        CutCallIgnoresPos(builder.Src(), st, f.value.end, name, Put(args, key, NEEDLE));
      }
      return ArgHalt(PartialException, builder.St());
    }
    t := ParseValue(builder, form, name, args, key);
  }

  method ParseKey(builder: ChatMsgParser, form: Form, name: string, args: Args) returns (t: ArgTurn)
    requires builder.Valid() && form.Usable()
    modifies builder
    ensures builder.Valid() && t == Key(builder.Src(), form, name, old(builder.St()), args)
    ensures builder.St() == t.st
  {
    hide CutCall, FindLiteral, Put, Separator2, Rest;
    ghost var st := builder.St();
    var rest := Rest(builder.Src(), builder.pos);
    var k := builder.TryFindLiteral(form.keyValSep);
    if k.None? {
      GenPartial(builder, name, Put(args, rest + NEEDLE, ""));
      return ArgHalt(PartialException, builder.St());
    }
    if k.value.end - k.value.begin != |form.keyValSep| {
      GenPartial(builder, name, Put(args, k.value.prelude + NEEDLE, ""));
      CutCallIgnoresPos(builder.Src(), st, k.value.end, name, Put(args, k.value.prelude + NEEDLE, ""));
      return ArgHalt(PartialException, builder.St());
    }
    t := ParseSeparator2(builder, form, name, args, k.value.prelude);
  }

  /** One turn of the argument loop. */
  method ParseArg(builder: ChatMsgParser, form: Form, name: string, args: Args) returns (t: ArgTurn)
    requires builder.Valid() && form.Usable()
    modifies builder
    ensures builder.Valid() && t == Arg(builder.Src(), form, name, old(builder.St()), args)
    ensures builder.St() == t.st
  {
    hide FindLiteral, Key, OpenDump;
    var f := builder.TryFindLiteral(form.keyStart);
    if f.None? {
      return NoMoreArgs(builder.St());
    }
    if !AllSpace(f.value.prelude) {
      var _ := builder.MoveTo(f.value.begin - |f.value.prelude|);
      return NoMoreArgs(builder.St());
    }
    if f.value.end - f.value.begin != |form.keyStart| {
      AddPartialCall(builder, name, OpenDump(args));
      return ArgHalt(PartialException, builder.St());
    }
    t := ParseKey(builder, form, name, args);
  }

  /** The argument loop. */
  method ParseArgs(builder: ChatMsgParser, form: Form, name: string, recovering: bool) returns (e: ArgsEnd)
    requires builder.Valid() && form.Usable()
    modifies builder
    ensures builder.Valid() && e == ArgsLoop(builder.Src(), form, name, old(builder.St()), [], recovering)
    ensures builder.St() == e.st
  {
    hide Arg;
    var args: Args, recovery := [], recovering;
    while true
      invariant builder.Valid()
      invariant ArgsLoop(builder.Src(), form, name, old(builder.St()), [], recovering)
             == ArgsLoop(builder.Src(), form, name, builder.St(), args, recovery)
      decreases |builder.input| - builder.pos
    {
      ArgMovesOn(builder.Src(), form, name, builder.St(), args);
      var t := ParseArg(builder, form, name, args);
      match t {
        case ArgHalt(o, s) => return Halted(o, s);
        case NoMoreArgs(s) => return Ended(s, args, recovery);
        case ArgRead(s, a) => args, recovery := a, false;
      }
    }
  }

  method FindToolName(builder: ChatMsgParser, form: Form) returns (r: Option<Found>)
    requires builder.Valid() && form.Usable()
    modifies builder`pos
    ensures builder.Valid() && r == ToolName(builder.Src(), form, old(builder.pos))
    ensures r.None? ==> builder.pos == old(builder.pos)
  {
    hide FindLiteral, Find;
    var start := builder.pos;
    r := builder.TryFindLiteral(if AllSpace(form.toolSep) then form.keyStart else form.toolSep);
    if r.None? {
      r := builder.TryFindLiteral(form.toolEnd);
    }
    if r.Some? && Find(r.value.prelude, form.toolEnd, 0).Some? {
      var _ := builder.MoveTo(r.value.begin - |r.value.prelude|);
      EndInsidePrelude(builder.Src(), start, r.value, form.toolEnd);
      r := builder.TryFindLiteral(form.toolEnd);
    }
  }

  /** The program relies on this when it looks again for a tool end it saw in a prelude. */
  lemma EndInsidePrelude(src: Source, pos: nat, f: Found, lit: string)
    requires pos <= f.begin <= |src.input| && f.prelude == src.input[pos..f.begin]
    requires Find(f.prelude, lit, 0).Some?
    ensures FindLiteral(src, pos, lit).Some?
  {
    var i := Find(f.prelude, lit, 0).value;
    MatchChars(f.prelude, i, lit);
    assert forall k :: 0 <= k < |f.prelude| ==> f.prelude[k] == src.input[pos + k];
    MatchChars(src.input, pos + i, lit);
    FindIsFirst(src.input, lit, pos);
  }

  method ParseCloseTool(builder: ChatMsgParser, form: Form, start: nat, name: string, args: Args, recovery: bool)
    returns (t: ToolTurn)
    requires builder.Valid() && start <= |builder.input|
    modifies builder
    ensures builder.Valid() && t == CloseTool(builder.Src(), form, start, name, old(builder.St()), args, recovery)
    ensures builder.St() == t.st
  {
    hide FindLiteral, Dump, OpenDump;
    var f := builder.TryFindLiteral(form.toolEnd);
    if f.Some? {
      if !AllSpace(f.value.prelude) {
        if recovery {
          var _ := builder.MoveTo(start);
          return ToolHalt(Returned(false), builder.St());
        }
        return ToolHalt(SyntaxException, builder.St());
      }
      if f.value.end - f.value.begin == |form.toolEnd| {
        var added := builder.AddToolCall(name, "", Dump(args));
        return if added then ToolRead(builder.St()) else ToolHalt(PartialException, builder.St());
      }
    }
    AddPartialCall(builder, name, OpenDump(args));
    return ToolHalt(PartialException, builder.St());
  }

  /** One turn of the tool-call loop. */
  method ParseTool(builder: ChatMsgParser, form: Form, start: nat, recovery: bool) returns (t: ToolTurn)
    requires builder.Valid() && form.Usable() && start <= builder.pos
    modifies builder
    ensures builder.Valid() && t == Tool(builder.Src(), form, start, old(builder.St()), recovery)
    ensures builder.St() == t.st
  {
    hide FindLiteral, ArgsLoop, CloseTool, ToolName, Strip;
    var f := builder.TryFindLiteral(form.toolStart);
    if f.None? {
      return NoMoreTools(builder.St());
    }
    if !AllSpace(f.value.prelude) {
      var _ := builder.MoveTo(f.value.begin - |f.value.prelude|);
      return NoMoreTools(builder.St());
    }
    var n := FindToolName(builder, form);
    if n.None? {
      return ToolHalt(PartialException, builder.St());
    }
    var _ := builder.MoveTo(if AllSpace(form.toolSep) then n.value.begin else n.value.end);
    var name := StringStrip(n.value.prelude);
    var e := ParseArgs(builder, form, name, recovery);
    if e.Halted? {
      return ToolHalt(e.outcome, e.st);
    }
    t := ParseCloseTool(builder, form, start, name, e.args, e.recovery);
  }

  method ParseClosing(builder: ChatMsgParser, form: Form, start: nat, recovery: bool) returns (o: Outcome)
    requires builder.Valid() && start <= |builder.input|
    modifies builder`pos
    ensures builder.Valid() && (o, builder.St()) == Closing(builder.Src(), form, start, old(builder.St()), recovery)
  {
    hide FindLiteral, SkipSpaces;
    var f := builder.TryFindLiteral(form.scopeEnd);
    if f.Some? {
      if AllSpace(f.value.prelude) { return Returned(true); }
    } else {
      if AllSpace(form.scopeEnd) { return Returned(true); }
      var _ := builder.ConsumeSpaces();
      if builder.pos == |builder.input| { return PartialException; }
    }
    if recovery {
      var _ := builder.MoveTo(start);
      return Returned(false);
    }
    return SyntaxException;
  }

  method ParseXmlToolCalls(builder: ChatMsgParser, form: Form) returns (o: Outcome)
    requires builder.Valid() && form.Usable()
    modifies builder
    ensures builder.Valid() && (o, builder.St()) == ParseXml(builder.Src(), form, old(builder.St()))
  {
    hide FindLiteral, Tool, Closing;
    var start, recovery := builder.pos, true;
    if !AllSpace(form.scopeStart) {
      var f := builder.TryFindLiteral(form.scopeStart);
      if f.None? { return Returned(false); }
      if !AllSpace(f.value.prelude) {
        var _ := builder.MoveTo(start);
        return Returned(false);
      }
      if |form.scopeStart| != f.value.end - f.value.begin { return PartialException; }
    }
    ghost var st := builder.St();
    while true
      invariant builder.Valid() && start <= builder.pos
      invariant Tools(builder.Src(), form, start, st, true) == Tools(builder.Src(), form, start, builder.St(), recovery)
      decreases |builder.input| - builder.pos
    {
      ToolMovesOn(builder.Src(), form, start, builder.St(), recovery);
      var t := ParseTool(builder, form, start, recovery);
      match t {
        case ToolHalt(out, _) => return out;
        case NoMoreTools(_) =>
          o := ParseClosing(builder, form, start, recovery);
          return;
        case ToolRead(_) => recovery := false;
      }
    }
  }

  /** try_consume_xml_tool_calls; `o` tells a returned value from an escaping exception. */
  method TryConsumeXmlToolCalls(builder: ChatMsgParser, form: Form) returns (o: Outcome)
    requires builder.Valid() && form.Usable()
    modifies builder
    ensures builder.Valid() && (o, builder.St()) == TryConsume(builder.Src(), form, old(builder.St()))
    ensures o == Returned(false) ==> builder.St() == old(builder.St())
  {
    hide ParseXml;
    FailureIsAtomic(builder.Src(), form, builder.St());
    ParseOnlyAdds(builder.Src(), form, builder.St());
    var pos, tsize := builder.pos, |builder.result.toolCalls|;
    o := ParseXmlToolCalls(builder, form);
    if o.SyntaxException? {
      var _ := builder.MoveTo(pos);
      builder.result := builder.result.(toolCalls := builder.result.toolCalls[..tsize]);
      o := Returned(false);
    }
  }
}
