/** What a model writes and what the parser makes of it: think blocks followed by an answer come
    back as exactly that reasoning and that content. */
module ThinkRoundTrip {
  import opened Text
  import opened ChatDiff
  import opened ChatParser
  import opened Streaming

  /** Think blocks, each between its tags, and then the answer. */
  function Written(tags: Tags, blocks: seq<string>, answer: string): string {
    if blocks == [] then answer
    else tags.start + blocks[0] + tags.end + Written(tags, blocks[1..], answer)
  }

  /** What each block adds to the message. */
  function Told(syntax: Syntax, tags: Tags, block: string): string {
    if syntax.reasoningInContent then OpenTag(syntax, tags) + block + CloseTag(syntax, tags)
    else if syntax.thinkingForcedOpen then tags.start + block
    else block
  }

  function AllTold(syntax: Syntax, tags: Tags, blocks: seq<string>): string {
    if blocks == [] then "" else Told(syntax, tags, blocks[0]) + AllTold(syntax, tags, blocks[1..])
  }

  predicate UsableTags(tags: Tags) {
    tags.start != "" && !IsSpace(tags.start[0]) && tags.end != ""
  }

  /** A non-empty block without blank margins that does not hide its own closing tag. */
  predicate CleanBlock(tags: Tags, block: string) {
    block != "" && Stripped(block) && Find(block + tags.end, tags.end, 0) == Some(|block|)
  }

  /** An answer that cannot be taken for another block. */
  predicate CleanAnswer(tags: Tags, answer: string) {
    answer == "" || (!IsSpace(answer[0]) && !Begins(answer, 0, tags.start))
  }

  /** The loop's turn at a block of the written text. */
  lemma TurnTells(src: Source, tags: Tags, cursor: nat, block: string, rest: string, msg: Msg)
    requires UsableTags(tags) && CleanBlock(tags, block) && cursor <= |src.input|
    requires src.input[cursor..] == block + tags.end + rest
    ensures var closed, p := cursor + |block| + |tags.end|, Opened(src.syntax, tags);
            closed <= |src.input| && src.input[closed..] == rest &&
            BlockTurn(src, tags, cursor, p, msg)
            == AfterBlock(src, tags, closed, "", Handle(src.syntax, tags, msg, p, block, true))
  {
    hide Handle, AfterBlock, OpenBlock, Find, Strip, BlockTurn, Pending;
    var s, p, e := src.input, Opened(src.syntax, tags), cursor + |block|;
    DelimiterFound(s, cursor, block, tags.end, rest);
    assert block + tags.end + rest == block + (tags.end + rest);
    Piece(s, cursor, block, tags.end + rest);
    Piece(s, e, tags.end, rest);
    ClosedTurn(src, tags, cursor, e, p, msg);
    assert Pending(src.syntax, p, block) == "" by {
      NothingPending(src.syntax, tags, block);
    }
  }

  lemma ClosedTurn(src: Source, tags: Tags, cursor: nat, e: nat, pending: string, msg: Msg)
    requires cursor < |src.input| && Find(src.input, tags.end, cursor) == Some(e)
    ensures BlockTurn(src, tags, cursor, pending, msg)
            == AfterBlock(src, tags, e + |tags.end|, Pending(src.syntax, pending, src.input[cursor..e]),
                          Handle(src.syntax, tags, msg, pending, src.input[cursor..e], true))
  {
    hide Handle, AfterBlock, OpenBlock, Find, Pending;
  }

  lemma NothingPending(syntax: Syntax, tags: Tags, block: string)
    requires block != "" && Stripped(block)
    ensures Pending(syntax, Opened(syntax, tags), block) == ""
  {
    hide Strip;
    StripIs(block, "", block, "");
  }

  /** The loop at a block of the written text: it tells the blocks that are left. */
  lemma {:induction false} BlocksTell(src: Source, tags: Tags, cursor: nat, blocks: seq<string>, answer: string,
                                      msg: Msg)
    requires UsableTags(tags) && CleanAnswer(tags, answer) && blocks != []
    requires forall b :: b in blocks ==> CleanBlock(tags, b)
    requires cursor <= |src.input|
    requires src.input[cursor..] == blocks[0] + tags.end + Written(tags, blocks[1..], answer)
    ensures WithRest(src, Blocks(src, tags, cursor, Opened(src.syntax, tags), msg))
            == ToldOnto(src.syntax, tags, msg, blocks, answer)
    decreases |blocks|
  {
    hide Blocks, BlockTurn, Handle, AfterBlock, ToldOnto, CleanBlock, CleanAnswer, Opened;
    var p := Opened(src.syntax, tags);
    BlocksUnfold(src, tags, cursor, p, msg);
    TurnTells(src, tags, cursor, blocks[0], Written(tags, blocks[1..], answer), msg);
    var closed := cursor + |blocks[0]| + |tags.end|;
    var msg' := Handle(src.syntax, tags, msg, p, blocks[0], true);
    AfterWritten(src, tags, closed, msg', blocks[1..], answer);
    ToldOntoStep(src.syntax, tags, msg, blocks, answer);
    if |blocks| > 1 {
      BlocksTell(src, tags, closed + |tags.start|, blocks[1..], answer, msg');
    } else {
      assert blocks[1..] == [];
      ToldOntoNone(src.syntax, tags, msg', answer);
    }
  }

  lemma ToldOntoNone(syntax: Syntax, tags: Tags, msg: Msg, answer: string)
    ensures ToldOnto(syntax, tags, msg, [], answer) == msg.(content := msg.content + answer)
  {
    assert msg.content + "" + answer == msg.content + answer;
    assert msg.reasoning + "" == msg.reasoning;
  }

  /** The pending prefix right after an opening tag. */
  function Opened(syntax: Syntax, tags: Tags): string {
    if syntax.thinkingForcedOpen && !syntax.reasoningInContent then tags.start else ""
  }

  function ToldOnto(syntax: Syntax, tags: Tags, msg: Msg, blocks: seq<string>, answer: string): Msg {
    if syntax.reasoningInContent then msg.(content := msg.content + AllTold(syntax, tags, blocks) + answer)
    else Msg(msg.reasoning + AllTold(syntax, tags, blocks), msg.content + answer, msg.toolCalls)
  }

  /** The message with one more piece told. */
  function Tell(syntax: Syntax, msg: Msg, told: string): Msg {
    if syntax.reasoningInContent then msg.(content := msg.content + told)
    else msg.(reasoning := msg.reasoning + told)
  }

  lemma HandleTells(syntax: Syntax, tags: Tags, msg: Msg, block: string)
    requires CleanBlock(tags, block)
    ensures Handle(syntax, tags, msg, Opened(syntax, tags), block, true) == Tell(syntax, msg, Told(syntax, tags, block))
  {
    hide Strip, Find;
    StripIs(block, "", block, "");
    if syntax.reasoningInContent {
      assert msg.content + OpenTag(syntax, tags) + block + CloseTag(syntax, tags)
          == msg.content + (OpenTag(syntax, tags) + block + CloseTag(syntax, tags));
    } else {
      assert msg.reasoning + Opened(syntax, tags) + block == msg.reasoning + (Opened(syntax, tags) + block);
    }
  }

  lemma ToldOntoStep(syntax: Syntax, tags: Tags, msg: Msg, blocks: seq<string>, answer: string)
    requires blocks != [] && CleanBlock(tags, blocks[0])
    ensures ToldOnto(syntax, tags, msg, blocks, answer)
            == ToldOnto(syntax, tags, Handle(syntax, tags, msg, Opened(syntax, tags), blocks[0], true), blocks[1..],
                        answer)
  {
    hide Handle, Told, CleanBlock;
    HandleTells(syntax, tags, msg, blocks[0]);
    var one, more := Told(syntax, tags, blocks[0]), AllTold(syntax, tags, blocks[1..]);
    assert msg.content + (one + more) == (msg.content + one) + more;
    assert msg.reasoning + (one + more) == (msg.reasoning + one) + more;
  }

  /** After a closing tag of the written text: the next block is opened, or the answer is left. */
  lemma AfterWritten(src: Source, tags: Tags, closed: nat, msg: Msg, blocks: seq<string>, answer: string)
    requires UsableTags(tags) && CleanAnswer(tags, answer) && closed <= |src.input|
    requires src.input[closed..] == Written(tags, blocks, answer)
    ensures var t := AfterBlock(src, tags, closed, "", msg);
            if blocks == [] then t == Done(State(closed, msg))
            else closed + |tags.start| <= |src.input| &&
                 t == More(closed + |tags.start|, Opened(src.syntax, tags), msg) &&
                 src.input[closed + |tags.start|..] == blocks[0] + tags.end + Written(tags, blocks[1..], answer)
  {
    hide Prefixed;
    var s := src.input;
    if blocks == [] {
      assert s[closed..] == answer;
      if answer != "" {
        assert s[closed] == answer[0];
        SkipSpacesIs(s, closed, closed);
        BeginsInside(s, closed, tags.start);
      }
    } else {
      var rest := blocks[0] + tags.end + Written(tags, blocks[1..], answer);
      assert s[closed..] == tags.start + rest by {
        assert tags.start + blocks[0] + tags.end + Written(tags, blocks[1..], answer) == tags.start + rest;
      }
      OpeningFound(s, closed, tags, rest);
      PrefixedIsOpened(src, tags, closed);
    }
  }

  lemma PrefixedIsOpened(src: Source, tags: Tags, at: nat)
    requires at + |tags.start| <= |src.input| && src.input[at..at + |tags.start|] == tags.start
    ensures Prefixed(src, tags, at, "") == Opened(src.syntax, tags)
  {
  }

  lemma BeginsInside(s: string, at: nat, lit: string)
    requires at <= |s|
    ensures Begins(s, at, lit) == Begins(s[at..], 0, lit)
  {
    var n := Room(s, at, lit);
    assert s[at..at + n] == s[at..][0..n];
  }

  lemma OpeningFound(s: string, at: nat, tags: Tags, rest: string)
    requires UsableTags(tags) && at <= |s| && s[at..] == tags.start + rest
    ensures SkipSpaces(s, at) == at < |s| && Begins(s, at, tags.start) && Room(s, at, tags.start) == |tags.start|
    ensures s[at..at + |tags.start|] == tags.start && s[at + |tags.start|..] == rest
  {
    Piece(s, at, tags.start, rest);
    assert s[at] == s[at..][0];
    SkipSpacesIs(s, at, at);
  }

  /** Round trip: for every list of clean blocks and every clean answer, in every mode that parses
      reasoning, partial or final, the message is the blocks told in order and the answer. */
  lemma WrittenIsTold(tags: Tags, blocks: seq<string>, answer: string, partial: bool, syntax: Syntax)
    requires UsableTags(tags) && CleanAnswer(tags, answer) && blocks != []
    requires forall b :: b in blocks ==> CleanBlock(tags, b)
    requires syntax.format != FormatNone
    ensures ParseWith(Source(Written(tags, blocks, answer), partial, syntax), tags)
            == if syntax.reasoningInContent then Msg("", AllTold(syntax, tags, blocks) + answer, [])
               else Msg(AllTold(syntax, tags, blocks), answer, [])
  {
    hide ParseWith, Blocks, Begins, Room, SkipSpaces, Find;
    var s := Written(tags, blocks, answer);
    var src := Source(s, partial, syntax);
    var rest := blocks[0] + tags.end + Written(tags, blocks[1..], answer);
    assert s[0..] == s == tags.start + rest;
    OpeningFound(s, 0, tags, rest);
    ParseTakesItsWay(src, tags);
    assert s[..0] == "";
    BlocksTell(src, tags, |tags.start|, blocks, answer, EMPTY_MSG);
    assert "" + AllTold(syntax, tags, blocks) == AllTold(syntax, tags, blocks);
    assert "" + answer == answer;
  }
}
