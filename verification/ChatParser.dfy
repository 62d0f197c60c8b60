/** The output parser of chat-parser.h and chat-parser.cpp: a cursor over the model's output and
    the message built so far.

    Functions give the meaning of each step on values; the class is the program's own form,
    proved equal to them. */
module ChatParser {
  import opened Text
  import opened ChatDiff

  /** common_reasoning_format. */
  datatype ReasoningFormat = FormatNone | FormatAuto | FormatDeepseekLegacy | FormatDeepseek

  /** The fields of common_chat_parser_params that the parser reads. */
  datatype Syntax = Syntax(format: ReasoningFormat, reasoningInContent: bool, thinkingForcedOpen: bool)

  /** What one parse is given. */
  datatype Source = Source(input: string, partial: bool, syntax: Syntax)

  /** The cursor and the message under construction. */
  datatype State = State(pos: nat, msg: Msg)

  datatype Tags = Tags(start: string, end: string)

  /** A located literal: the text before it and the range it covers. */
  datatype Found = Found(prelude: string, begin: nat, end: nat)

  // ---------- literals ----------

  /** try_find_literal: a whole occurrence, or in a partial parse one cut off by the end of input. */
  function FindLiteral(src: Source, pos: nat, lit: string): (r: Option<Found>)
    requires pos <= |src.input|
    ensures r.Some? ==> pos <= r.value.begin <= r.value.end <= |src.input|
    ensures r.Some? ==> r.value.prelude == src.input[pos..r.value.begin]
    ensures r.Some? ==> src.input[r.value.begin..r.value.end] <= lit
  {
    var s := src.input;
    match Find(s, lit, pos)
    case Some(i) => Some(Found(s[pos..i], i, i + |lit|))
    case None =>
      if !src.partial then None
      else
        match PartialStop(s, lit)
        case Some(i) => if i >= pos then Some(Found(s[pos..i], i, |s|)) else None
        case None => None
  }

  /** A whole match in a partial input is found unchanged in every extension of it. */
  lemma FullMatchIsStable(src: Source, ext: Source, pos: nat, lit: string)
    requires pos <= |src.input| && src.input <= ext.input
    requires Find(src.input, lit, pos).Some?
    ensures FindLiteral(ext, pos, lit) == FindLiteral(src, pos, lit)
  {
    FindExtends(src.input, ext.input, lit, pos);
    var i := Find(src.input, lit, pos).value;
    assert src.input[pos..i] == ext.input[pos..i];
  }

  /** The program tells a whole match from a cut-off one by its length. */
  lemma WholeMatchHasFullLength(src: Source, pos: nat, lit: string)
    requires pos <= |src.input| && FindLiteral(src, pos, lit).Some?
    ensures var f := FindLiteral(src, pos, lit).value;
            f.end - f.begin == |lit| <==> Find(src.input, lit, pos).Some?
  {
    FindIsFirst(src.input, lit, pos);
    var f := FindLiteral(src, pos, lit).value;
    assert f.end - f.begin == |lit| ==> MatchAt(src.input, f.begin, lit);
  }

  /** An occurrence in an extension that begins inside the text already seen shows up as a match
      or as a partial stop of that text. */
  lemma LaterMatchIsForeseen(s: string, t: string, lit: string, j: nat)
    requires s <= t && MatchAt(t, j, lit) && j < |s|
    ensures MatchAt(s, j, lit) || PartialAt(s, j, lit)
  {
    if j + |lit| <= |s| {
      assert t[j..j + |lit|] == s[j..j + |lit|];
    } else {
      OccurrenceIsPartial(s, t, lit, j);
    }
  }

  /** A match cut off at `i` promises that no extension holds the literal before `i`. */
  lemma PartialMatchIsStable(src: Source, t: string, pos: nat, lit: string, j: nat)
    requires pos <= j && pos <= |src.input| && src.input <= t
    requires FindLiteral(src, pos, lit).Some? && j < FindLiteral(src, pos, lit).value.begin
    ensures !MatchAt(t, j, lit)
  {
    var s := src.input;
    FindIsFirst(s, lit, pos);
    PartialStopIsFirst(s, lit);
    if MatchAt(t, j, lit) {
      LaterMatchIsForeseen(s, t, lit, j);
    }
  }

  predicate FirstDoesNotRecur(lit: string) {
    forall k :: 0 < k < |lit| ==> lit[k] != lit[0]
  }

  /** When nothing is found in `s`, the literal does not start before the end of `s` in `t` either. */
  predicate MissIsStable(lit: string, syntax: Syntax, s: string, t: string, pos: nat) {
    pos <= |s| && s <= t && FindLiteral(Source(s, true, syntax), pos, lit).None? ==>
      forall j :: pos <= j < |s| ==> !MatchAt(t, j, lit)
  }

  /** The search for a cut-off literal looks at the whole input and then drops a hit before the
      cursor, which can hide a later one. A miss is reliable, for every input, extension and
      cursor, exactly when the literal's first character does not recur in it. */
  lemma MissIsStableIff(lit: string, syntax: Syntax)
    ensures FirstDoesNotRecur(lit) <==> forall s, t, pos: nat :: MissIsStable(lit, syntax, s, t, pos)
  {
    if FirstDoesNotRecur(lit) {
      forall s, t, pos: nat ensures MissIsStable(lit, syntax, s, t, pos) {
        if pos <= |s| && s <= t && FindLiteral(Source(s, true, syntax), pos, lit).None? {
          MissWithFreshFirst(lit, s, t, pos);
        }
      }
    } else {
      var k :| 0 < k < |lit| && lit[k] == lit[0];
      MissHidden(lit, syntax, k);
    }
  }

  lemma MissWithFreshFirst(lit: string, s: string, t: string, pos: nat)
    requires FirstDoesNotRecur(lit) && pos <= |s| && s <= t
    requires Find(s, lit, pos).None? && (PartialStop(s, lit).Some? ==> PartialStop(s, lit).value < pos)
    ensures forall j :: pos <= j < |s| ==> !MatchAt(t, j, lit)
  {
    FindIsFirst(s, lit, pos);
    PartialStopIsFirst(s, lit);
    forall j | pos <= j < |s| ensures !PartialAt(s, j, lit) {
      var i := PartialStop(s, lit);
      if i.Some? && i.value < j {
        assert j - i.value < |s[i.value..]|;
        assert s[i.value..][j - i.value] == s[j];
        assert s[j..][0] == s[j];
      }
    }
    forall j | pos <= j < |s| && MatchAt(t, j, lit) ensures false {
      LaterMatchIsForeseen(s, t, lit, j);
    }
  }

  lemma MissHidden(lit: string, syntax: Syntax, k: nat)
    requires 0 < k < |lit| && lit[k] == lit[0]
    ensures !MissIsStable(lit, syntax, lit[..k + 1], lit[..k] + lit, k)
  {
    hide PartialStop;
    var s, t := lit[..k + 1], lit[..k] + lit;
    assert s[0..] == s && PartialAt(s, 0, lit);
    PartialStopIsFirst(s, lit);
    assert PartialStop(s, lit) == Some(0);
    assert t[..k + 1] == s && s <= t;
    assert MatchAt(t, k, lit);
  }

  // ---------- reasoning ----------

  function OpenTag(syntax: Syntax, tags: Tags): string {
    if syntax.format == FormatDeepseek then "<think>" else tags.start
  }

  function CloseTag(syntax: Syntax, tags: Tags): string {
    if syntax.format == FormatDeepseek then "</think>" else tags.end
  }

  /** handle_reasoning, on the message. */
  function Handle(syntax: Syntax, tags: Tags, msg: Msg, pending: string, text: string, closed: bool): Msg {
    var x := Strip(text);
    if x == "" then msg
    else if syntax.reasoningInContent then
      msg.(content := msg.content + OpenTag(syntax, tags) + x + (if closed then CloseTag(syntax, tags) else ""))
    else msg.(reasoning := msg.reasoning + pending + x)
  }

  /** handle_reasoning, on the pending prefix. */
  function Pending(syntax: Syntax, pending: string, text: string): string {
    if Strip(text) == "" || syntax.reasoningInContent then pending else ""
  }

  /** set_reasoning_prefix. */
  function Prefixed(src: Source, tags: Tags, at: nat, pending: string): string {
    if !src.syntax.thinkingForcedOpen || src.syntax.reasoningInContent then pending
    else if at + |tags.start| > |src.input| then ""
    else src.input[at..at + |tags.start|]
  }

  /** How much of `lit` the rest of the input at `at` can hold. */
  function Room(s: string, at: nat, lit: string): (n: nat)
    requires at <= |s|
    ensures n <= |lit| && at + n <= |s|
  {
    if |lit| < |s| - at then |lit| else |s| - at
  }

  /** The rest of the input begins `lit`, or `lit` begins it. */
  predicate Begins(s: string, at: nat, lit: string)
    requires at <= |s|
  {
    s[at..at + Room(s, at, lit)] == lit[..Room(s, at, lit)]
  }

  /** One turn of the loop over think blocks: the parse is over, or another block has been opened. */
  datatype Turn = Done(st: State) | More(cursor: nat, pending: string, msg: Msg)

  /** A block whose closing tag has not been seen. */
  function OpenBlock(src: Source, tags: Tags, cursor: nat, pending: string, msg: Msg): Msg
    requires cursor <= |src.input|
  {
    var s := src.input;
    var cut := PartialStop(s[cursor..], tags.end);
    var end := if cut.None? then |s| else cursor + cut.value;
    if end > cursor then Handle(src.syntax, tags, msg, pending, s[cursor..end], cut.None? && !src.partial)
    else msg
  }

  /** What follows a closing tag: nothing, the next block, half an opening tag, or content. */
  function AfterBlock(src: Source, tags: Tags, closed: nat, pending: string, msg: Msg): (r: Turn)
    requires closed <= |src.input|
    ensures r.Done? ==> r.st.pos <= |src.input|
    ensures r.More? ==> closed + |tags.start| <= r.cursor <= |src.input|
  {
    var s := src.input;
    var next := SkipSpaces(s, closed);
    if next == |s| || !Begins(s, next, tags.start) then Done(State(next, msg))
    else if Room(s, next, tags.start) < |tags.start| then Done(State(|s|, msg))
    else More(next + |tags.start|, Prefixed(src, tags, next, pending), msg)
  }

  function BlockTurn(src: Source, tags: Tags, cursor: nat, pending: string, msg: Msg): (r: Turn)
    requires cursor <= |src.input|
    ensures r.Done? ==> r.st.pos <= |src.input|
    ensures r.More? ==> cursor + |tags.end| + |tags.start| <= r.cursor <= |src.input|
  {
    var s := src.input;
    if cursor >= |s| then Done(State(|s|, msg))
    else
      match Find(s, tags.end, cursor)
      case None => Done(State(|s|, OpenBlock(src, tags, cursor, pending, msg)))
      case Some(e) =>
        AfterBlock(src, tags, e + |tags.end|, Pending(src.syntax, pending, s[cursor..e]),
                   Handle(src.syntax, tags, msg, pending, s[cursor..e], true))
  }

  /** The loop over think blocks, from just after an opening tag. */
  function Blocks(src: Source, tags: Tags, cursor: nat, pending: string, msg: Msg): (r: State)
    requires cursor <= |src.input| && |tags.start| + |tags.end| > 0
    ensures r.pos <= |src.input|
    decreases |src.input| - cursor
  {
    match BlockTurn(src, tags, cursor, pending, msg)
    case Done(st) => st
    case More(c, p, m) => Blocks(src, tags, c, p, m)
  }

  /** try_parse_reasoning once its opening tag starts at `ws`, after leading whitespace kept as content. */
  function Tagged(src: Source, tags: Tags, st: State, ws: nat): (r: State)
    requires st.pos <= ws && ws + |tags.start| <= |src.input| && |tags.start| + |tags.end| > 0
    ensures r.pos <= |src.input|
  {
    var msg := if ws > st.pos then st.msg.(content := st.msg.content + src.input[st.pos..ws]) else st.msg;
    Blocks(src, tags, ws + |tags.start|, Prefixed(src, tags, ws, ""), msg)
  }

  /** try_parse_reasoning: whether reasoning was recognised, and the state after it. */
  function Reasoning(src: Source, tags: Tags, st: State): (r: (bool, State))
    requires st.pos <= |src.input| && |tags.start| + |tags.end| > 0
    ensures r.1.pos <= |src.input|
    ensures !r.0 ==> r.1 == st
  {
    var s := src.input;
    var ws := SkipSpaces(s, st.pos);
    if src.syntax.format == FormatNone then (false, st)
    else if ws >= |s| then
      if src.syntax.thinkingForcedOpen then
        (true, State(|s|, Handle(src.syntax, tags, st.msg, "", s[st.pos..], !src.partial)))
      else (false, st)
    else if Begins(s, ws, tags.start) then
      if Room(s, ws, tags.start) < |tags.start| then (true, State(|s|, st.msg))
      else (true, Tagged(src, tags, st, ws))
    else if src.syntax.thinkingForcedOpen then (true, Blocks(src, tags, ws, "", st.msg))
    else (false, st)
  }

  /** The rest of the input becomes content. */
  function WithRest(src: Source, st: State): Msg
    requires st.pos <= |src.input|
  {
    st.msg.(content := st.msg.content + src.input[st.pos..])
  }

  const THINK := Tags("<think>", "</think>")

  /** common_chat_parse_content_only on a fresh parser, for any pair of tags. */
  function ParseWith(src: Source, tags: Tags): Msg
    requires |tags.start| + |tags.end| > 0
  {
    WithRest(src, Reasoning(src, tags, State(0, EMPTY_MSG)).1)
  }

  function ParseContentOnly(src: Source): Msg {
    ParseWith(src, THINK)
  }

  // ---------- the program's own form ----------

  /** The two whitespace loops of try_parse_reasoning. */
  method SpacesEnd(input: string, from: nat) returns (end: nat)
    requires from <= |input|
    ensures end == SkipSpaces(input, from)
  {
    end := from;
    while end < |input| && IsSpace(input[end])
      invariant from <= end <= |input|
      invariant SkipSpaces(input, end) == SkipSpaces(input, from)
    {
      end := end + 1;
    }
  }

  class ChatMsgParser {
    const input: string
    const isPartial: bool
    const syntax: Syntax
    var pos: nat
    var result: Msg

    ghost predicate Valid()
      reads this
    {
      pos <= |input|
    }

    function Src(): Source {
      Source(input, isPartial, syntax)
    }

    function St(): State
      reads this
    {
      State(pos, result)
    }

    constructor (input: string, isPartial: bool, syntax: Syntax)
      ensures Valid() && Src() == Source(input, isPartial, syntax) && St() == State(0, EMPTY_MSG)
    {
      this.input := input;
      this.isPartial := isPartial;
      this.syntax := syntax;
      pos := 0;
      result := EMPTY_MSG;
    }

    /** `ok` is false where the program throws. */
    method MoveTo(p: nat) returns (ok: bool)
      requires Valid()
      modifies this`pos
      ensures Valid() && ok == (p <= |input|)
      ensures pos == if ok then p else old(pos)
    {
      ok := p <= |input|;
      if ok { pos := p; }
    }

    method MoveBack(n: nat) returns (ok: bool)
      requires Valid()
      modifies this`pos
      ensures Valid() && ok == (n <= old(pos))
      ensures pos == if ok then old(pos) - n else old(pos)
    {
      ok := n <= pos;
      if ok { pos := pos - n; }
    }

    method AddContent(t: string)
      modifies this`result
      ensures result == old(result).(content := old(result.content) + t)
    {
      result := result.(content := result.content + t);
    }

    method AddReasoningContent(t: string)
      modifies this`result
      ensures result == old(result).(reasoning := old(result.reasoning) + t)
    {
      result := result.(reasoning := result.reasoning + t);
    }

    /** A nameless call is refused. */
    method AddToolCall(name: string, id: string, arguments: string) returns (ok: bool)
      modifies this`result
      ensures ok == (name != "")
      ensures result == if ok then
        old(result).(toolCalls := old(result.toolCalls) + [ToolCall(name, arguments, id)]) else old(result)
    {
      if name == "" { return false; }
      result := result.(toolCalls := result.toolCalls + [ToolCall(name, arguments, id)]);
      return true;
    }

    method ConsumeSpaces() returns (consumed: bool)
      requires Valid()
      modifies this`pos
      ensures Valid() && pos == SkipSpaces(input, old(pos)) && consumed == (pos > old(pos))
    {
      consumed := false;
      while pos < |input| && IsSpace(input[pos])
        invariant old(pos) <= pos <= |input| && consumed == (pos > old(pos))
        invariant SkipSpaces(input, pos) == SkipSpaces(input, old(pos))
      {
        pos := pos + 1;
        consumed := true;
      }
    }

    method TryConsumeLiteral(lit: string) returns (ok: bool)
      requires Valid()
      modifies this`pos
      ensures Valid() && ok == MatchAt(input, old(pos), lit)
      ensures pos == if ok then old(pos) + |lit| else old(pos)
    {
      MatchChars(input, pos, lit);
      var p := pos;
      for i := 0 to |lit|
        invariant p == pos + i <= |input| && pos == old(pos)
        invariant forall k :: pos <= k < p ==> input[k] == lit[k - pos]
      {
        if p >= |input| || input[p] != lit[i] {
          return false;
        }
        p := p + 1;
      }
      pos := p;
      return true;
    }

    method TryFindLiteral(lit: string) returns (r: Option<Found>)
      requires Valid()
      modifies this`pos
      ensures Valid() && r == FindLiteral(Src(), old(pos), lit)
      ensures pos == if r.Some? then r.value.end else old(pos)
    {
      var idx := Find(input, lit, pos);
      if idx.Some? {
        var end := idx.value + |lit|;
        r := Some(Found(input[pos..idx.value], idx.value, end));
        var _ := MoveTo(end);
        return;
      }
      if isPartial {
        idx := StringFindPartialStop(input, lit);
        if idx.Some? && idx.value >= pos {
          r := Some(Found(input[pos..idx.value], idx.value, |input|));
          var _ := MoveTo(|input|);
          return;
        }
      }
      return None;
    }

    method ConsumeRest() returns (rest: string)
      requires Valid()
      modifies this`pos
      ensures Valid() && rest == input[old(pos)..] && pos == |input|
    {
      rest := input[pos..];
      pos := |input|;
    }

    /** The closure handle_reasoning; it returns the pending prefix that is left. */
    method HandleReasoning(tags: Tags, pending: string, text: string, closed: bool) returns (left: string)
      modifies this`result
      ensures result == Handle(syntax, tags, old(result), pending, text, closed)
      ensures left == Pending(syntax, pending, text)
    {
      var stripped := StringStrip(text);
      left := pending;
      if stripped == "" { return; }
      if syntax.reasoningInContent {
        AddContent(OpenTag(syntax, tags));
        AddContent(stripped);
        if closed {
          AddContent(CloseTag(syntax, tags));
        }
      } else {
        if left != "" {
          AddReasoningContent(left);
          left := "";
        }
        AddReasoningContent(stripped);
      }
    }

    method TryParseReasoning(startThink: string, endThink: string) returns (found: bool)
      requires Valid() && |startThink| + |endThink| > 0
      modifies this
      ensures Valid() && (found, St()) == Reasoning(Src(), Tags(startThink, endThink), old(St()))
    {
      var tags := Tags(startThink, endThink);
      if syntax.format == FormatNone { return false; }
      var cursor := SpacesEnd(input, pos);
      if cursor >= |input| {
        if syntax.thinkingForcedOpen {
          var _ := HandleReasoning(tags, "", input[pos..], !isPartial);
          pos := |input|;
        }
        return syntax.thinkingForcedOpen;
      }
      var hasStartTag := Begins(input, cursor, startThink);
      if hasStartTag && Room(input, cursor, startThink) < |startThink| {
        pos := |input|;
        return true;
      }
      if hasStartTag {
        ParseTagged(tags, cursor);
      } else if syntax.thinkingForcedOpen {
        ParseThinkBlocks(tags, cursor, "");
      } else {
        return false;
      }
      return true;
    }

    method ParseTagged(tags: Tags, ws: nat)
      requires Valid() && pos <= ws && ws + |tags.start| <= |input| && |tags.start| + |tags.end| > 0
      modifies this
      ensures Valid() && St() == Tagged(Src(), tags, old(St()), ws)
    {
      hide Blocks;
      if ws > pos {
        AddContent(input[pos..ws]);
      }
      ParseThinkBlocks(tags, ws + |tags.start|, Prefixed(Src(), tags, ws, ""));
    }

    /** The loop over think blocks. */
    method ParseThinkBlocks(tags: Tags, from: nat, prefix: string)
      requires Valid() && from <= |input| && |tags.start| + |tags.end| > 0
      modifies this
      ensures Valid() && St() == Blocks(Src(), tags, from, prefix, old(result))
    {
      var more, cursor, pending := true, from, prefix;
      while more
        invariant cursor <= |input| && Valid()
        invariant more ==>
                    Blocks(Src(), tags, from, prefix, old(result)) == Blocks(Src(), tags, cursor, pending, result)
        invariant !more ==> Blocks(Src(), tags, from, prefix, old(result)) == St()
        decreases more, |input| - cursor
      {
        more, cursor, pending := ParseThinkBlock(tags, cursor, pending);
      }
    }

    /** The body of the loop over think blocks; `more` is false where the program returns. */
    method ParseThinkBlock(tags: Tags, from: nat, prefix: string)
      returns (more: bool, cursor: nat, pending: string)
      requires Valid() && from <= |input|
      modifies this
      ensures Valid() && cursor <= |input|
      ensures BlockTurn(Src(), tags, from, prefix, old(result))
              == if more then More(cursor, pending, result) else Done(St())
    {
      hide Handle, Pending, AfterBlock, OpenBlock, Find;
      more, cursor, pending := false, from, prefix;
      if cursor >= |input| {
        pos := |input|;
        return;
      }
      var endPos := Find(input, tags.end, cursor);
      if endPos.None? {
        ParseOpenBlock(tags, cursor, pending);
        return;
      }
      pending := HandleReasoning(tags, pending, input[cursor..endPos.value], true);
      more, cursor, pending := ParseAfterBlock(tags, endPos.value + |tags.end|, pending);
    }

    method ParseOpenBlock(tags: Tags, cursor: nat, pending: string)
      requires Valid() && cursor <= |input|
      modifies this
      ensures Valid() && pos == |input| && result == OpenBlock(Src(), tags, cursor, pending, old(result))
    {
      hide Handle, Pending, PartialStop;
      var partialOff := StringFindPartialStop(input[cursor..], tags.end);
      var reasoningEnd := if partialOff.None? then |input| else cursor + partialOff.value;
      if reasoningEnd > cursor {
        var _ := HandleReasoning(tags, pending, input[cursor..reasoningEnd], partialOff.None? && !isPartial);
      }
      pos := |input|;
    }

    method ParseAfterBlock(tags: Tags, closed: nat, prefix: string)
      returns (more: bool, cursor: nat, pending: string)
      requires Valid() && closed <= |input|
      modifies this`pos
      ensures Valid() && cursor <= |input|
      ensures AfterBlock(Src(), tags, closed, prefix, result)
              == if more then More(cursor, pending, result) else Done(St())
    {
      more, pending := false, prefix;
      cursor := SpacesEnd(input, closed);
      if |input| - cursor == 0 {
        pos := cursor;
        return;
      }
      if !Begins(input, cursor, tags.start) {
        pos := cursor;
        return;
      }
      if Room(input, cursor, tags.start) < |tags.start| {
        pos := |input|;
        return;
      }
      pending := Prefixed(Src(), tags, cursor, pending);
      cursor := cursor + |tags.start|;
      more := true;
    }

    /** common_chat_parse_content_only. */
    method RunContentOnly()
      requires Valid() && St() == State(0, EMPTY_MSG)
      modifies this
      ensures Valid() && pos == |input| && result == ParseContentOnly(Src())
    {
      var _ := TryParseReasoning("<think>", "</think>");
      var rest := ConsumeRest();
      AddContent(rest);
    }
  }
}
