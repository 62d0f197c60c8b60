/** The server's update step for a streamed answer (tools/server/server-task.cpp), with the
    content-only format, and whole runs of it together with a client. */
module ServerStream {
  import opened Text
  import opened ChatDiff
  import opened ChatParser
  import opened Streaming

  /** The generated text so far and the message last shown. */
  datatype Stream = Stream(text: string, shown: Msg)

  const START := Stream("", EMPTY_MSG)

  /** update_chat_msg: parse everything again, ignore an empty message, else send the difference. */
  function Update(syntax: Syntax, st: Stream, added: string, partial: bool): (Stream, Result<seq<Diff>>) {
    var text := st.text + added;
    var msg := ParseContentOnly(Source(text, partial, syntax));
    if msg.IsEmpty() then (Stream(text, st.shown), Ok([]))
    else (Stream(text, msg), ComputeDiffs(st.shown, msg))
  }

  class TaskResultState {
    const syntax: Syntax
    var generatedText: string
    var chatMsg: Msg

    function Current(): Stream
      reads this
    {
      Stream(generatedText, chatMsg)
    }

    constructor (syntax: Syntax)
      ensures this.syntax == syntax && Current() == START
    {
      this.syntax := syntax;
      generatedText := "";
      chatMsg := EMPTY_MSG;
    }

    method UpdateChatMsg(textAdded: string, isPartial: bool) returns (diffs: Result<seq<Diff>>)
      modifies this
      ensures (Current(), diffs) == Update(syntax, old(Current()), textAdded, isPartial)
    {
      hide ParseContentOnly, ComputeDiffs;
      generatedText := generatedText + textAdded;
      var prv := chatMsg;
      var builder := new ChatMsgParser(generatedText, isPartial, syntax);
      builder.RunContentOnly();
      var newMsg := builder.result;
      diffs := Ok([]);
      if !newMsg.IsEmpty() {
        chatMsg := newMsg;
        diffs := ComputeDiffsImpl(prv, newMsg);
      }
    }
  }

  // ---------- whole runs ----------

  /** The chunks of an unfinished answer; the client applies every difference. `None`: a difference failed. */
  function Run(syntax: Syntax, st: Stream, client: Msg, chunks: seq<string>): Option<(Stream, Msg)>
    decreases |chunks|
  {
    if chunks == [] then Some((st, client))
    else
      var (st', diffs) := Update(syntax, st, chunks[0], true);
      if diffs.RuntimeError? then None else Run(syntax, st', ApplyAll(client, diffs.value), chunks[1..])
  }

  function Joined(chunks: seq<string>): string {
    if chunks == [] then "" else chunks[0] + Joined(chunks[1..])
  }

  /** What was last shown is the parse of some prefix of the text, or nothing. */
  ghost predicate Consistent(syntax: Syntax, st: Stream) {
    st.shown == EMPTY_MSG ||
    exists s :: s <= st.text && st.shown == ParseContentOnly(Source(s, true, syntax))
  }

  /** The step that streaming rests on: a new parse either is empty, and then skipped, or
      continues what is shown. Text that the parser would take back is always of the first kind. */
  lemma ShownContinues(syntax: Syntax, st: Stream, text: string, partial: bool)
    requires Consistent(syntax, st) && st.text <= text
    ensures var msg := ParseContentOnly(Source(text, partial, syntax));
            msg.IsEmpty() || Extends(st.shown, msg)
    ensures ParseContentOnly(Source(text, partial, syntax)).IsEmpty() ==>
              AllSpace(st.shown.content) && st.shown.reasoning == "" && st.shown.toolCalls == []
  {
    hide ParseWith, TakesBack;
    var ext := Source(text, partial, syntax);
    ParseAdds(ext, THINK);
    if st.shown != EMPTY_MSG {
      var s :| s <= st.text && st.shown == ParseContentOnly(Source(s, true, syntax));
      ShownKept(Source(s, true, syntax), ext);
    }
  }

  lemma ShownKept(src: Source, ext: Source)
    requires Later(src, ext)
    ensures ParseWith(ext, THINK) == EMPTY_MSG || Keeps(ParseWith(src, THINK), ParseWith(ext, THINK))
    ensures ParseWith(src, THINK).toolCalls == []
    ensures ParseWith(ext, THINK) == EMPTY_MSG ==>
              AllSpace(ParseWith(src, THINK).content) && ParseWith(src, THINK).reasoning == ""
  {
    hide ParseWith, Begins, Room, SkipSpaces;
    KeepsUnlessTakenBack(src, ext, THINK);
    ParseAdds(src, THINK);
    if TakesBack(src.syntax, THINK, src.input, ext.input) {
      BlanksAreContent(src, THINK);
      HalfTagShowsNothing(ext, THINK);
    }
  }

  lemma BlanksAreContent(src: Source, tags: Tags)
    requires AllSpace(src.input) && |tags.start| + |tags.end| > 0
    requires src.syntax.format == FormatNone || !src.syntax.thinkingForcedOpen
    ensures ParseWith(src, tags) == EMPTY_MSG.(content := src.input)
  {
    hide ParseWith, Blocks, Begins;
    ParseTakesItsWay(src, tags);
    assert SkipSpaces(src.input, 0) == |src.input|;
  }

  lemma HalfTagShowsNothing(src: Source, tags: Tags)
    requires src.syntax.format != FormatNone && |tags.start| + |tags.end| > 0
    requires var ws := SkipSpaces(src.input, 0);
             ws < |src.input| && Room(src.input, ws, tags.start) < |tags.start| && Begins(src.input, ws, tags.start)
    ensures ParseWith(src, tags) == EMPTY_MSG
  {
    hide ParseWith, Blocks, Begins, SkipSpaces, Room;
    ParseTakesItsWay(src, tags);
  }

  /** One update: no difference fails, and a client in step stays in step. */
  lemma UpdateConserves(syntax: Syntax, st: Stream, added: string, partial: bool)
    requires Consistent(syntax, st)
    ensures var (st', diffs) := Update(syntax, st, added, partial);
            diffs.Ok? && ApplyAll(st.shown, diffs.value) == st'.shown
    ensures partial ==> Consistent(syntax, Update(syntax, st, added, partial).0)
  {
    hide ParseContentOnly, ComputeDiffs, Extends;
    var text := st.text + added;
    ShownContinues(syntax, st, text, partial);
    var msg := ParseContentOnly(Source(text, partial, syntax));
    DiffsConserve(st.shown, msg);
    if msg.IsEmpty() && st.shown != EMPTY_MSG {
      var s :| s <= st.text && st.shown == ParseContentOnly(Source(s, true, syntax));
      assert s <= text;
    }
  }

  lemma {:induction false} RunConserves(syntax: Syntax, st: Stream, chunks: seq<string>)
    requires Consistent(syntax, st)
    ensures var r := Run(syntax, st, st.shown, chunks);
            r.Some? && r.value.1 == r.value.0.shown && Consistent(syntax, r.value.0)
            && r.value.0.text == st.text + Joined(chunks)
    decreases |chunks|
  {
    hide Consistent, ParseContentOnly, ComputeDiffs;
    if chunks == [] {
      assert st.text + "" == st.text;
    } else {
      UpdateConserves(syntax, st, chunks[0], true);
      RunConserves(syntax, Update(syntax, st, chunks[0], true).0, chunks[1..]);
      assert st.text + chunks[0] + Joined(chunks[1..]) == st.text + Joined(chunks);
    }
  }

  /** A whole answer, for every way of cutting it into chunks, every input and every setting:
      no difference ever fails; after each chunk the client holds what the server shows; and at
      the end it holds the final parse of the whole text, except that blanks already sent stay
      when the final message is empty. */
  lemma StreamConserves(syntax: Syntax, chunks: seq<string>, last: string)
    ensures var r := Run(syntax, START, EMPTY_MSG, chunks);
            && r.Some? && r.value.1 == r.value.0.shown
            && var (st, diffs) := Update(syntax, r.value.0, last, false);
               diffs.Ok? && st.text == Joined(chunks) + last
               && var client, final := ApplyAll(r.value.1, diffs.value),
                                       ParseContentOnly(Source(st.text, false, syntax));
                  if !final.IsEmpty() then client == final
                  else AllSpace(client.content) && client.reasoning == "" && client.toolCalls == []
  {
    hide Run, ComputeDiffs, ParseContentOnly;
    RunConserves(syntax, START, chunks);
    var st := Run(syntax, START, EMPTY_MSG, chunks).value.0;
    UpdateConserves(syntax, st, last, false);
    ShownContinues(syntax, st, st.text + last, false);
  }
}
