/** Streaming: the output so far is parsed again after every chunk and only the difference to the
    previous parse is sent.

    A parse may be shown to a client only if no later parse takes it back. The first part
    decides, for every input and extension, when that holds for the parser of think blocks;
    the second follows whole runs of the server's update step. */
module Streaming {
  import opened Text
  import opened ChatDiff
  import opened ChatParser

  // ---------- one parse against a later one ----------

  /** Everything `m` shows is still shown by `n`. */
  predicate Keeps(m: Msg, n: Msg) {
    m.content <= n.content && m.reasoning <= n.reasoning && m.toolCalls == n.toolCalls
  }

  /** The second source is the first after more output, or at the end of the output. */
  predicate Later(src: Source, ext: Source) {
    src.partial && src.syntax == ext.syntax && src.input <= ext.input
  }

  function TurnMsg(t: Turn): Msg {
    if t.Done? then t.st.msg else t.msg
  }

  /** The rest of the loop after one turn. */
  function Continue(src: Source, tags: Tags, t: Turn): (r: State)
    requires |tags.start| + |tags.end| > 0
    requires if t.Done? then t.st.pos <= |src.input| else t.cursor <= |src.input|
    ensures r.pos <= |src.input|
  {
    match t
    case Done(st) => st
    case More(c, p, m) => Blocks(src, tags, c, p, m)
  }

  lemma HandleKeeps(syntax: Syntax, tags: Tags, msg: Msg, pending: string, text: string, closed: bool)
    ensures Keeps(msg, Handle(syntax, tags, msg, pending, text, closed))
  {
    hide Strip;
    var x, y := OpenTag(syntax, tags) + Strip(text), if closed then CloseTag(syntax, tags) else "";
    assert msg.content + OpenTag(syntax, tags) + Strip(text) + y == msg.content + (x + y);
    assert msg.reasoning + pending + Strip(text) == msg.reasoning + (pending + Strip(text));
  }

  /** Handling a longer, perhaps closed, text keeps what a shorter, unclosed one showed. */
  lemma HandleGrows(syntax: Syntax, tags: Tags, msg: Msg, pending: string, x: string, y: string, closed: bool)
    requires x <= y
    ensures Keeps(Handle(syntax, tags, msg, pending, x, false), Handle(syntax, tags, msg, pending, y, closed))
  {
    hide Strip;
    StripGrows(x, y);
    HandleKeeps(syntax, tags, msg, pending, y, closed);
    var open, a, b := OpenTag(syntax, tags), Strip(x), Strip(y);
    var tail := if closed then CloseTag(syntax, tags) else "";
    if a != "" {
      assert msg.content + open + b + tail == (msg.content + open + a + "") + (b[|a|..] + tail);
      assert msg.reasoning + pending + b == (msg.reasoning + pending + a) + b[|a|..];
    }
  }

  lemma TurnKeeps(src: Source, tags: Tags, cursor: nat, pending: string, msg: Msg)
    requires cursor <= |src.input|
    ensures Keeps(msg, TurnMsg(BlockTurn(src, tags, cursor, pending, msg)))
  {
    hide Handle, Pending, Prefixed, Find, SkipSpaces, PartialStop;
    var s := src.input;
    if cursor < |s| {
      match Find(s, tags.end, cursor)
      case Some(e) => HandleKeeps(src.syntax, tags, msg, pending, s[cursor..e], true);
      case None =>
        var cut := PartialStop(s[cursor..], tags.end);
        var end := if cut.None? then |s| else cursor + cut.value;
        HandleKeeps(src.syntax, tags, msg, pending, s[cursor..end], cut.None? && !src.partial);
    }
  }

  lemma BlocksUnfold(src: Source, tags: Tags, cursor: nat, pending: string, msg: Msg)
    requires cursor <= |src.input| && |tags.start| + |tags.end| > 0
    ensures Blocks(src, tags, cursor, pending, msg) == Continue(src, tags, BlockTurn(src, tags, cursor, pending, msg))
  {
    hide BlockTurn;
  }

  /** The loop only ever adds to the message. */
  lemma {:induction false} BlocksKeep(src: Source, tags: Tags, cursor: nat, pending: string, msg: Msg)
    requires cursor <= |src.input| && |tags.start| + |tags.end| > 0
    ensures Keeps(msg, WithRest(src, Blocks(src, tags, cursor, pending, msg)))
    decreases |src.input| - cursor
  {
    hide BlockTurn, Blocks;
    BlocksUnfold(src, tags, cursor, pending, msg);
    TurnKeeps(src, tags, cursor, pending, msg);
    var t := BlockTurn(src, tags, cursor, pending, msg);
    if t.More? {
      BlocksKeep(src, tags, t.cursor, t.pending, t.msg);
    }
  }

  lemma AfterBlockKeeps(src: Source, tags: Tags, closed: nat, pending: string, msg: Msg)
    requires closed <= |src.input| && |tags.start| + |tags.end| > 0
    ensures Keeps(msg, WithRest(src, Continue(src, tags, AfterBlock(src, tags, closed, pending, msg))))
  {
    hide Blocks, SkipSpaces, Begins, Prefixed;
    var t := AfterBlock(src, tags, closed, pending, msg);
    if t.More? {
      BlocksKeep(src, tags, t.cursor, t.pending, t.msg);
    }
  }

  /** Where `s` differs from an opening tag, so does every extension; where it holds a whole one, so do they. */
  lemma BeginsIsStable(s: string, t: string, at: nat, lit: string)
    requires at <= |s| && s <= t
    ensures !Begins(s, at, lit) ==> !Begins(t, at, lit)
    ensures Begins(s, at, lit) && Room(s, at, lit) == |lit| ==> Begins(t, at, lit) && Room(t, at, lit) == |lit|
  {
    var n, m := Room(s, at, lit), Room(t, at, lit);
    assert n <= m;
    assert s[at..at + n] == t[at..at + m][..n];
    assert lit[..n] == lit[..m][..n];
  }

  /** Where the text of an open block ends: at the first sign of its closing tag. */
  function OpenEnd(s: string, tags: Tags, cursor: nat): (r: nat)
    requires cursor <= |s|
    ensures cursor <= r <= |s|
  {
    var cut := PartialStop(s[cursor..], tags.end);
    if cut.None? then |s| else cursor + cut.value
  }

  lemma OpenBlockIs(src: Source, tags: Tags, cursor: nat, pending: string, msg: Msg)
    requires cursor <= |src.input|
    ensures exists closed :: (closed ==> !src.partial) &&
              OpenBlock(src, tags, cursor, pending, msg)
              == Handle(src.syntax, tags, msg, pending, src.input[cursor..OpenEnd(src.input, tags, cursor)], closed)
  {
    hide PartialStop;
    var end := OpenEnd(src.input, tags, cursor);
    var closed := PartialStop(src.input[cursor..], tags.end).None? && !src.partial;
    if end == cursor {
      assert src.input[cursor..end] == "";
      StripIs("", "", "", "");
    }
    assert OpenBlock(src, tags, cursor, pending, msg)
        == Handle(src.syntax, tags, msg, pending, src.input[cursor..end], closed);
  }

  /** A closing tag that shows up later starts where the open block's text ended, or after it. */
  lemma OpenEndBeforeTag(s: string, t: string, tags: Tags, cursor: nat, e: nat)
    requires s <= t && cursor <= |s| && Find(s, tags.end, cursor).None? && Find(t, tags.end, cursor) == Some(e)
    ensures OpenEnd(s, tags, cursor) <= e
  {
    var u := s[cursor..];
    PartialStopIsFirst(u, tags.end);
    FindIsFirst(s, tags.end, cursor);
    if e < |s| {
      LaterMatchIsForeseen(s, t, tags.end, e);
      assert u[e - cursor..] == s[e..];
      assert PartialAt(u, e - cursor, tags.end);
    }
  }

  lemma OpenEndGrows(s: string, t: string, tags: Tags, cursor: nat)
    requires s <= t && cursor <= |s|
    ensures OpenEnd(s, tags, cursor) <= OpenEnd(t, tags, cursor)
  {
    var u, v := s[cursor..], t[cursor..];
    assert u <= v;
    PartialStopIsFirst(u, tags.end);
    var cut := PartialStop(v, tags.end);
    if cut.Some? && cut.value < |u| {
      PartialShrinks(u, v, tags.end, cut.value);
    }
  }

  /** A block still open in `src`: whatever `ext` makes of it keeps what was shown. */
  lemma OpenBlockGrows(src: Source, ext: Source, tags: Tags, cursor: nat, pending: string, msg: Msg)
    requires Later(src, ext) && cursor < |src.input| && |tags.start| + |tags.end| > 0
    requires Find(src.input, tags.end, cursor).None?
    ensures Keeps(OpenBlock(src, tags, cursor, pending, msg), WithRest(ext, Blocks(ext, tags, cursor, pending, msg)))
  {
    hide Handle, Pending, OpenEnd, OpenBlock, Find, Blocks, AfterBlock;
    var s, t := src.input, ext.input;
    var end := OpenEnd(s, tags, cursor);
    OpenBlockIs(src, tags, cursor, pending, msg);
    var x := s[cursor..end];
    assert OpenBlock(src, tags, cursor, pending, msg) == Handle(src.syntax, tags, msg, pending, x, false);
    BlocksUnfold(ext, tags, cursor, pending, msg);
    match Find(t, tags.end, cursor) {
      case Some(e) =>
        OpenEndBeforeTag(s, t, tags, cursor, e);
        var y := t[cursor..e];
        assert x <= y;
        HandleGrows(src.syntax, tags, msg, pending, x, y, true);
        AfterBlockKeeps(ext, tags, e + |tags.end|, Pending(src.syntax, pending, y),
                        Handle(src.syntax, tags, msg, pending, y, true));
      case None =>
        OpenEndGrows(s, t, tags, cursor);
        OpenBlockIs(ext, tags, cursor, pending, msg);
        var y := t[cursor..OpenEnd(t, tags, cursor)];
        var closed :| (closed ==> !ext.partial) &&
          OpenBlock(ext, tags, cursor, pending, msg) == Handle(ext.syntax, tags, msg, pending, y, closed);
        assert x <= y;
        HandleGrows(src.syntax, tags, msg, pending, x, y, closed);
    }
  }

  lemma {:induction false} BlocksGrow(src: Source, ext: Source, tags: Tags, cursor: nat, pending: string, msg: Msg)
    requires Later(src, ext) && cursor <= |src.input| && |tags.start| + |tags.end| > 0
    ensures Keeps(WithRest(src, Blocks(src, tags, cursor, pending, msg)),
                  WithRest(ext, Blocks(ext, tags, cursor, pending, msg)))
    decreases |src.input| - cursor
  {
    hide Handle, Pending, OpenBlock, Find, Blocks, AfterBlock;
    var s, t := src.input, ext.input;
    BlocksUnfold(src, tags, cursor, pending, msg);
    BlocksUnfold(ext, tags, cursor, pending, msg);
    if cursor == |s| {
      BlocksKeep(ext, tags, cursor, pending, msg);
    } else if Find(s, tags.end, cursor).None? {
      OpenBlockGrows(src, ext, tags, cursor, pending, msg);
    } else {
      FindExtends(s, t, tags.end, cursor);
      var e := Find(s, tags.end, cursor).value;
      assert s[cursor..e] == t[cursor..e];
      var pending' := Pending(src.syntax, pending, s[cursor..e]);
      var msg' := Handle(src.syntax, tags, msg, pending, s[cursor..e], true);
      AfterBlockGrows(src, ext, tags, cursor, e + |tags.end|, pending', msg');
    }
  }

  lemma PrefixedIsStable(src: Source, ext: Source, tags: Tags, at: nat, pending: string)
    requires src.syntax == ext.syntax && src.input <= ext.input && at + |tags.start| <= |src.input|
    ensures Prefixed(src, tags, at, pending) == Prefixed(ext, tags, at, pending)
  {
    assert src.input[at..at + |tags.start|] == ext.input[at..at + |tags.start|];
  }

  lemma {:induction false} AfterBlockGrows(src: Source, ext: Source, tags: Tags, cursor: nat, closed: nat,
                                           pending: string, msg: Msg)
    requires Later(src, ext) && cursor + |tags.end| <= closed <= |src.input| && |tags.start| + |tags.end| > 0
    ensures Keeps(WithRest(src, Continue(src, tags, AfterBlock(src, tags, closed, pending, msg))),
                  WithRest(ext, Continue(ext, tags, AfterBlock(ext, tags, closed, pending, msg))))
    decreases |src.input| - cursor, 0
  {
    hide Blocks, Begins, Prefixed, SkipSpaces, Room;
    var s, t := src.input, ext.input;
    var next := SkipSpaces(s, closed);
    SkipSpacesExtends(s, t, closed);
    BeginsIsStable(s, t, next, tags.start);
    var n := Room(s, next, tags.start);
    if next == |s| || (Begins(s, next, tags.start) && n < |tags.start|) {
      assert WithRest(src, Continue(src, tags, AfterBlock(src, tags, closed, pending, msg))).content == msg.content;
      AfterBlockKeeps(ext, tags, closed, pending, msg);
    } else if !Begins(s, next, tags.start) {
      assert s[next..] <= t[next..];
    } else {
      PrefixedIsStable(src, ext, tags, next, pending);
      BlocksGrow(src, ext, tags, next + n, Prefixed(src, tags, next, pending), msg);
    }
  }

  // ---------- when nothing is taken back ----------

  /** The one way to take text back: blanks were shown as content, and then half an opening tag
      follows them. */
  predicate TakesBack(syntax: Syntax, tags: Tags, s: string, t: string) {
    && syntax.format != FormatNone && !syntax.thinkingForcedOpen
    && s != "" && AllSpace(s)
    && var ws := SkipSpaces(t, 0);
       ws < |t| && Room(t, ws, tags.start) < |tags.start| && Begins(t, ws, tags.start)
  }

  /** The parser reads leading whitespace and then takes one of four ways. */
  datatype Way = Verbatim | Nothing | AfterTag | Forced

  function WayOf(src: Source, tags: Tags): Way {
    var s, ws := src.input, SkipSpaces(src.input, 0);
    if src.syntax.format == FormatNone then Verbatim
    else if ws == |s| then if src.syntax.thinkingForcedOpen then Nothing else Verbatim
    else if Begins(s, ws, tags.start) then if Room(s, ws, tags.start) < |tags.start| then Nothing else AfterTag
    else if src.syntax.thinkingForcedOpen then Forced
    else Verbatim
  }

  function WayMsg(src: Source, tags: Tags): Msg
    requires |tags.start| + |tags.end| > 0
  {
    var ws := SkipSpaces(src.input, 0);
    match WayOf(src, tags)
    case Verbatim => EMPTY_MSG.(content := src.input)
    case Nothing => EMPTY_MSG
    case AfterTag => WithRest(src, Blocks(src, tags, ws + |tags.start|, Prefixed(src, tags, ws, ""),
                                          EMPTY_MSG.(content := src.input[..ws])))
    case Forced => WithRest(src, Blocks(src, tags, ws, "", EMPTY_MSG))
  }

  lemma BlanksHandled(syntax: Syntax, tags: Tags, msg: Msg, blanks: string, closed: bool)
    requires AllSpace(blanks)
    ensures Handle(syntax, tags, msg, "", blanks, closed) == msg
  {
    hide Strip;
    StripIs(blanks, blanks, "", "");
  }

  lemma TaggedIs(src: Source, tags: Tags, ws: nat)
    requires ws + |tags.start| <= |src.input| && |tags.start| + |tags.end| > 0
    ensures Tagged(src, tags, State(0, EMPTY_MSG), ws) ==
            Blocks(src, tags, ws + |tags.start|, Prefixed(src, tags, ws, ""), EMPTY_MSG.(content := src.input[..ws]))
  {
    hide Blocks, Prefixed;
    assert "" + src.input[0..ws] == src.input[..ws];
  }

  lemma RestOf(src: Source)
    ensures WithRest(src, State(0, EMPTY_MSG)) == EMPTY_MSG.(content := src.input)
    ensures WithRest(src, State(|src.input|, EMPTY_MSG)) == EMPTY_MSG
  {
    var s := src.input;
    assert "" + s[0..] == s && s[|s|..] == "";
  }

  lemma ParseTakesItsWay(src: Source, tags: Tags)
    requires |tags.start| + |tags.end| > 0
    ensures ParseWith(src, tags) == WayMsg(src, tags)
  {
    hide Blocks, Begins, Prefixed, Handle, Tagged, WithRest, SkipSpaces;
    var s, ws := src.input, SkipSpaces(src.input, 0);
    RestOf(src);
    if ws + |tags.start| <= |s| {
      TaggedIs(src, tags, ws);
    }
    if ws == |s| {
      BlanksHandled(src.syntax, tags, EMPTY_MSG, s[0..], !src.partial);
    }
  }

  lemma ParseAdds(src: Source, tags: Tags)
    requires |tags.start| + |tags.end| > 0
    ensures Keeps(EMPTY_MSG, ParseWith(src, tags))
  {
    hide Blocks, Begins, Prefixed, SkipSpaces, Reasoning;
    ParseTakesItsWay(src, tags);
    var ws := SkipSpaces(src.input, 0);
    match WayOf(src, tags)
    case AfterTag =>
      BlocksKeep(src, tags, ws + |tags.start|, Prefixed(src, tags, ws, ""), EMPTY_MSG.(content := src.input[..ws]));
    case Forced => BlocksKeep(src, tags, ws, "", EMPTY_MSG);
    case _ =>
  }

  /** Streaming never retracts text, except in that one way: the parse of a prefix is kept by the
      parse of every extension, partial or final, if and only if the pair is not of that kind. */
  lemma KeepsUnlessTakenBack(src: Source, ext: Source, tags: Tags)
    requires Later(src, ext) && |tags.start| + |tags.end| > 0
    ensures Keeps(ParseWith(src, tags), ParseWith(ext, tags)) <==> !TakesBack(src.syntax, tags, src.input, ext.input)
  {
    hide Blocks, Begins, Prefixed, ParseWith, BlockTurn;
    var s, t := src.input, ext.input;
    ParseTakesItsWay(src, tags);
    ParseTakesItsWay(ext, tags);
    ParseAdds(ext, tags);
    if AllSpace(s) {
      assert SkipSpaces(s, 0) == |s|;
      if WayOf(src, tags) == Verbatim {
        BlanksKept(src, ext, tags);
      }
    } else {
      TextKept(src, ext, tags);
    }
  }

  /** A blank is shown, and half an opening tag after it takes the blank back. */
  lemma TakesBackHappens()
    ensures ParseContentOnly(Source(" ", true, Syntax(FormatAuto, false, false))).content == " "
    ensures ParseContentOnly(Source(" <", true, Syntax(FormatAuto, false, false))).content == ""
  {
    hide Blocks, ParseWith;
    var syntax := Syntax(FormatAuto, false, false);
    SkipSpacesIs(" ", 0, 1);
    SkipSpacesIs(" <", 0, 1);
    assert " <"[1..1 + Room(" <", 1, "<think>")] == "<think>"[..Room(" <", 1, "<think>")] by {
      assert " <"[1..2] == ['<'] == "<think>"[..1];
    }
    ParseTakesItsWay(Source(" ", true, syntax), THINK);
    ParseTakesItsWay(Source(" <", true, syntax), THINK);
  }

  lemma BlanksKept(src: Source, ext: Source, tags: Tags)
    requires Later(src, ext) && |tags.start| + |tags.end| > 0
    requires AllSpace(src.input) && WayOf(src, tags) == Verbatim
    ensures Keeps(EMPTY_MSG.(content := src.input), WayMsg(ext, tags))
      <==> !TakesBack(src.syntax, tags, src.input, ext.input)
  {
    hide Blocks, Begins, Prefixed;
    var s, t := src.input, ext.input;
    SkipSpacesExtends(s, t, 0);
    var ws := SkipSpaces(t, 0);
    if WayOf(ext, tags) == AfterTag {
      assert s <= t[..ws];
      BlocksKeep(ext, tags, ws + |tags.start|, Prefixed(ext, tags, ws, ""), EMPTY_MSG.(content := t[..ws]));
    }
  }

  /** A text that is more than blanks has decided on its way, unless it shows nothing. */
  lemma WayStays(src: Source, ext: Source, tags: Tags)
    requires Later(src, ext) && !AllSpace(src.input)
    ensures SkipSpaces(src.input, 0) == SkipSpaces(ext.input, 0) < |src.input|
    ensures WayOf(src, tags) != Nothing ==> WayOf(ext, tags) == WayOf(src, tags)
    ensures WayOf(src, tags) == AfterTag ==> SkipSpaces(src.input, 0) + |tags.start| <= |src.input|
  {
    hide Begins, SkipSpaces;
    var s, t, ws := src.input, ext.input, SkipSpaces(src.input, 0);
    SkipSpacesExtends(s, t, 0);
    assert ws < |s|;
    BeginsIsStable(s, t, ws, tags.start);
  }

  /** Blanks and a whole opening tag are the same in a longer text. */
  lemma TagStays(src: Source, ext: Source, tags: Tags, ws: nat)
    requires Later(src, ext) && ws + |tags.start| <= |src.input|
    ensures src.input[..ws] == ext.input[..ws] && Prefixed(src, tags, ws, "") == Prefixed(ext, tags, ws, "")
  {
    var at := ws + |tags.start|;
    assert src.input[ws..at] == ext.input[ws..at];
  }

  lemma TextKept(src: Source, ext: Source, tags: Tags)
    requires Later(src, ext) && |tags.start| + |tags.end| > 0 && !AllSpace(src.input)
    requires Keeps(EMPTY_MSG, WayMsg(ext, tags))
    ensures Keeps(WayMsg(src, tags), WayMsg(ext, tags))
  {
    hide Blocks, WayOf, Prefixed, SkipSpaces, WithRest;
    var s, ws := src.input, SkipSpaces(src.input, 0);
    WayStays(src, ext, tags);
    match WayOf(src, tags)
    case Verbatim =>
    case Nothing =>
    case AfterTag =>
      TagStays(src, ext, tags, ws);
      BlocksGrow(src, ext, tags, ws + |tags.start|, Prefixed(src, tags, ws, ""), EMPTY_MSG.(content := s[..ws]));
    case Forced =>
      BlocksGrow(src, ext, tags, ws, "", EMPTY_MSG);
  }
}
