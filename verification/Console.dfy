/** The terminal line editor of console.cpp: UTF-8 bytes with a byte cursor, a character cursor, a
    width for every character, and a history of byte strings. Every handler updates all of them;
    each is proved to do to the text what the simple editor of `LineSession` does.

    The widths a terminal reports and the space test are parameters of the object; the column of
    the terminal's cursor is kept, all other output is not. */
module Console {
  import opened Text
  import opened Utf8
  import opened LineSession

  function Sum(ws: seq<int>): int {
    if ws == [] then 0 else Sum(ws[..|ws| - 1]) + ws[|ws| - 1]
  }

  function Encodings(entries: seq<Cps>): (r: seq<string>)
    ensures |r| == |entries| && forall i :: 0 <= i < |r| ==> r[i] == Encode(entries[i])
  {
    seq(|entries|, i requires 0 <= i < |entries| => Encode(entries[i]))
  }

  lemma WidthInserted(ws: seq<int>, k: nat, w: int)
    requires k <= |ws|
    ensures Sum((ws[..k] + [w] + ws[k..])[..k + 1]) == Sum(ws[..k]) + w
    ensures k == |ws| ==> Sum((ws + [w])[..k + 1]) == Sum(ws[..k]) + w
  {
    var a := ws[..k] + [w];
    assert (ws[..k] + [w] + ws[k..])[..k + 1] == a && a[..k] == ws[..k];
    assert k == |ws| ==> (ws + [w])[..k + 1] == a;
  }

  lemma AllRead(text: Cps, k: nat)
    requires k <= |text| && Offset(text, k) >= |Encode(text)|
    ensures k == |text|
  {
    hide Encode, Offset;
    if k < |text| {
      BytesAt(text, k);
    }
  }

  lemma EncodeEmpty(t: Cps)
    ensures Encode(t) == "" <==> t == []
  {
    hide Encode;
    EncodeNothing();
    if Encode(t) == "" { EncodeInjective(t, []); }
  }

  lemma SameEncoding(a: Cps, b: Cps)
    ensures Encode(a) == Encode(b) <==> a == b
  {
    hide Encode;
    if Encode(a) == Encode(b) { EncodeInjective(a, b); }
  }

  lemma LastOfChar(c: CodePoint, a: CodePoint)
    requires a < 0x80
    ensures var e := EncodeChar(c);
            e != "" && (e[|e| - 1] == a as char <==> c == a) && (c == a ==> |e| == 1)
  {
    EncodedShape(c);
  }

  /** The last byte of an encoded text is a one-byte code point exactly when the last code point is. */
  lemma LastByte(text: Cps, a: CodePoint)
    requires text != [] && a < 0x80
    ensures var s, n := Encode(text), |text|;
            && s != "" && (s[|s| - 1] == a as char <==> text[n - 1] == a)
            && (text[n - 1] == a ==> Encode(text[..n - 1]) == s[..|s| - 1])
  {
    hide Encode, DecodeAt;
    var s, n := Encode(text), |text|;
    var e := EncodeChar(text[n - 1]);
    EncodedAround(text, n - 1);
    EncodeNothing();
    assert text[n..] == [];
    assert s == Encode(text[..n - 1]) + e;
    LastOfChar(text[n - 1], a);
    assert s[|s| - 1] == e[|e| - 1];
  }

  lemma SpecialBytes(text: Cps)
    ensures var s := Encode(text);
            (s != "" && (s[|s| - 1] == '\\' || s[|s| - 1] == '/')) <==> Special(text)
    ensures Special(text) ==> Encode(text[..|text| - 1]) == Encode(text)[..|Encode(text)| - 1]
    ensures Special(text) ==> (Encode(text)[|Encode(text)| - 1] == '\\' <==> text[|text| - 1] == BACKSLASH)
  {
    hide Encode;
    EncodeEmpty(text);
    if text != [] {
      LastByte(text, BACKSLASH);
      LastByte(text, SLASH);
    }
  }

  lemma AppendAscii(text: Cps, a: CodePoint)
    requires a < 0x80
    ensures Encode(text + [a]) == Encode(text) + [a as char]
  {
    hide Encode;
    EncodeConcat(text, [a]);
    EncodeOne(a);
  }

  lemma SingleSpace(text: Cps)
    ensures Encode(text) == " " <==> text == [SPACE]
  {
    hide Encode;
    EncodeOne(SPACE);
    assert EncodeChar(SPACE) == " ";
    SameEncoding(text, [SPACE]);
  }

  /** A backward loop of move_word_left: over the characters on which the space test says `wanted`. */
  method BackOver(line: string, widths: seq<int>, isSpace: CodePoint -> bool, ghost cps: Cps,
                  fromChar: nat, fromByte: nat, wanted: bool)
    returns (newChar: nat, newByte: nat, moved: int)
    requires line == Encode(cps) && |widths| == |cps| && fromChar <= |cps| && fromByte == Offset(cps, fromChar)
    ensures newChar == RunStart(cps, fromChar, isSpace, wanted) && newByte == Offset(cps, newChar)
    ensures Sum(widths[..newChar]) + moved == Sum(widths[..fromChar])
  {
    hide Encode, Offset, DecodeAt, PrevPos, NextPos;
    newChar, newByte, moved := fromChar, fromByte, 0;
    while newChar > 0
      invariant newChar <= fromChar && newByte == Offset(cps, newChar)
      invariant Sum(widths[..newChar]) + moved == Sum(widths[..fromChar])
      invariant RunStart(cps, newChar, isSpace, wanted) == RunStart(cps, fromChar, isSpace, wanted)
    {
      BoundaryOrEnd(cps, newChar);
      var prevByte := PrevUtf8CharPos(line, newByte);
      StepsAreCodePoints(cps, newChar - 1);
      BytesAt(cps, newChar - 1);
      var (cp, _) := DecodeAt(line, prevByte);
      if isSpace(cp) != wanted { break; }
      assert widths[..newChar][..newChar - 1] == widths[..newChar - 1];
      moved := moved + widths[newChar - 1];
      newChar := newChar - 1;
      newByte := prevByte;
    }
  }

  /** A forward loop of move_word_right. */
  method ForwardOver(line: string, widths: seq<int>, isSpace: CodePoint -> bool, ghost cps: Cps,
                     fromChar: nat, fromByte: nat, wanted: bool)
    returns (newChar: nat, newByte: nat, moved: int)
    requires line == Encode(cps) && |widths| == |cps| && fromChar <= |cps| && fromByte == Offset(cps, fromChar)
    ensures newChar == RunEnd(cps, fromChar, isSpace, wanted) && newByte == Offset(cps, newChar)
    ensures Sum(widths[..newChar]) == Sum(widths[..fromChar]) + moved
  {
    hide Encode, Offset, DecodeAt, PrevPos, NextPos;
    newChar, newByte, moved := fromChar, fromByte, 0;
    while newChar < |widths|
      invariant fromChar <= newChar <= |widths| && newByte == Offset(cps, newChar)
      invariant Sum(widths[..newChar]) == Sum(widths[..fromChar]) + moved
      invariant RunEnd(cps, newChar, isSpace, wanted) == RunEnd(cps, fromChar, isSpace, wanted)
    {
      BytesAt(cps, newChar);
      var (cp, advance) := DecodeAt(line, newByte);
      if isSpace(cp) != wanted { break; }
      assert widths[..newChar + 1][..newChar] == widths[..newChar];
      moved := moved + widths[newChar];
      newChar := newChar + 1;
      newByte := newByte + advance;
    }
  }

  function RealWidth(width: nat -> int, c: nat): (w: int)
    ensures w >= 0
  {
    if width(c) < 0 then 0 else width(c)
  }

  class LineEditor {
    /** iswspace. */
    const isSpace: CodePoint -> bool
    /** What put_codepoint reports for a code point; negative when the terminal gives no answer. */
    const width: nat -> int

    var line: string
    var widths: seq<int>
    var charPos: nat
    var bytePos: nat
    /** The terminal's cursor column, relative to the start of the line. */
    var column: int

    var entries: seq<string>
    var viewing: Option<nat>
    var backupLine: string

    /** The text being edited and the history, as code points. */
    ghost var cps: Cps
    ghost var past: History

    ghost predicate LineValid()
      reads `line, `widths, `charPos, `bytePos, `column, `cps
    {
      && line == Encode(cps)
      && |widths| == |cps|
      && charPos <= |cps|
      && bytePos == Offset(cps, charPos)
      && column == Sum(widths[..charPos])
    }

    ghost predicate HistoryValid()
      reads `entries, `viewing, `backupLine, `past
    {
      HistoryOk(past) && entries == Encodings(past.entries) && viewing == past.viewing
        && backupLine == Encode(past.backup)
    }

    ghost predicate Valid()
      reads this
    {
      LineValid() && HistoryValid()
    }

    ghost function Current(): Session
      reads this
    {
      Session(Line(cps, charPos), past)
    }

    constructor (isSpace: CodePoint -> bool, width: nat -> int)
      ensures Valid() && Current() == Session(Line([], 0), History([], None, []))
      ensures this.isSpace == isSpace
    {
      this.isSpace := isSpace;
      this.width := width;
      line, widths, charPos, bytePos, column := "", [], 0, 0, 0;
      entries, viewing, backupLine := [], None, "";
      cps, past := [], History([], None, []);
    }

    // ---------- output ----------

    method MoveCursor(delta: int)
      modifies this`column
      ensures column == old(column) + delta
    {
      column := column + delta;
    }

    /** The loops that print the characters whose widths start at `from`, walking the bytes from
        `start`, where code point number `k` stands. */
    method PrintTail(from: nat, ghost k: nat, start: nat) returns (tailWidth: int)
      requires line == Encode(cps) && from <= |widths| && k <= |cps| && |widths| - from == |cps| - k
      requires start == Offset(cps, k)
      modifies this`column
      ensures tailWidth == Sum(widths[from..]) && column == old(column) + tailWidth
    {
      hide Encode, Offset, NextPos;
      var p := start;
      tailWidth := 0;
      var i := from;
      while i < |widths|
        invariant from <= i <= |widths| && p == Offset(cps, i - from + k)
        invariant tailWidth == Sum(widths[from..i]) && column == old(column) + tailWidth
      {
        StepsAreCodePoints(cps, i - from + k);
        var following := NextUtf8CharPos(line, p);
        assert widths[from..i + 1][..i - from] == widths[from..i];
        column := column + widths[i];
        tailWidth := tailWidth + widths[i];
        p := following;
        i := i + 1;
      }
      assert widths[from..|widths|] == widths[from..];
    }

    // ---------- moving ----------

    method MoveLeft()
      requires LineValid()
      modifies this`charPos, this`bytePos, this`column
      ensures LineValid()
      ensures Line(cps, charPos) == if old(charPos) > 0 then Line(cps, old(charPos) - 1) else Line(cps, old(charPos))
    {
      hide Encode, Offset, PrevPos, NextPos;
      if charPos > 0 {
        BoundaryOrEnd(cps, charPos);
        StepsAreCodePoints(cps, charPos - 1);
        assert widths[..charPos][..charPos - 1] == widths[..charPos - 1];
        MoveCursor(-widths[charPos - 1]);
        charPos := charPos - 1;
        bytePos := PrevUtf8CharPos(line, bytePos);
      }
    }

    method MoveRight()
      requires LineValid()
      modifies this`charPos, this`bytePos, this`column
      ensures LineValid()
      ensures charPos == if old(charPos) < |cps| then old(charPos) + 1 else old(charPos)
    {
      hide Encode, Offset, PrevPos, NextPos;
      if charPos < |widths| {
        StepsAreCodePoints(cps, charPos);
        assert widths[..charPos + 1][..charPos] == widths[..charPos];
        MoveCursor(widths[charPos]);
        charPos := charPos + 1;
        bytePos := NextUtf8CharPos(line, bytePos);
      }
    }

    method MoveToLineStart()
      requires LineValid()
      modifies this`charPos, this`bytePos, this`column
      ensures LineValid() && charPos == 0
    {
      var backWidth := 0;
      var i := 0;
      while i < charPos
        invariant 0 <= i <= charPos && backWidth == Sum(widths[..i])
      {
        assert widths[..i + 1][..i] == widths[..i];
        backWidth := backWidth + widths[i];
        i := i + 1;
      }
      MoveCursor(-backWidth);
      charPos := 0;
      bytePos := 0;
      OffsetEnds(cps);
    }

    method MoveToLineEnd()
      requires LineValid()
      modifies this`charPos, this`bytePos, this`column
      ensures LineValid() && charPos == |cps|
    {
      var forwardWidth := 0;
      var i := charPos;
      while i < |widths|
        invariant charPos <= i <= |widths| && column + forwardWidth == Sum(widths[..i])
      {
        assert widths[..i + 1][..i] == widths[..i];
        forwardWidth := forwardWidth + widths[i];
        i := i + 1;
      }
      MoveCursor(forwardWidth);
      charPos := |widths|;
      bytePos := |line|;
      OffsetEnds(cps);
    }

    method MoveWordLeft()
      requires LineValid()
      modifies this`charPos, this`bytePos, this`column
      ensures LineValid()
      ensures Line(cps, charPos) == WordLeftOf(Line(cps, old(charPos)), isSpace)
    {
      hide Encode, Offset;
      if charPos == 0 { return; }
      var c, b, w1 := BackOver(line, widths, isSpace, cps, charPos, bytePos, true);
      var w2;
      c, b, w2 := BackOver(line, widths, isSpace, cps, c, b, false);
      MoveCursor(-(w1 + w2));
      charPos := c;
      bytePos := b;
    }

    method MoveWordRight()
      requires LineValid()
      modifies this`charPos, this`bytePos, this`column
      ensures LineValid()
      ensures Line(cps, charPos) == WordRightOf(Line(cps, old(charPos)), isSpace)
    {
      hide Encode, Offset;
      if charPos >= |widths| { return; }
      var c, b, w1 := ForwardOver(line, widths, isSpace, cps, charPos, bytePos, true);
      var w2, w3;
      c, b, w2 := ForwardOver(line, widths, isSpace, cps, c, b, false);
      c, b, w3 := ForwardOver(line, widths, isSpace, cps, c, b, true);
      MoveCursor(w1 + w2 + w3);
      charPos := c;
      bytePos := b;
    }

    // ---------- editing ----------

    method DeleteAtCursor()
      requires LineValid()
      modifies this`line, this`widths, this`cps, this`column
      ensures LineValid() && charPos == old(charPos)
      ensures Line(cps, charPos) == Deleted(Line(old(cps), old(charPos)))
    {
      hide Encode, Offset, NextPos, Sum;
      if charPos >= |widths| { return; }
      var nextPos := NextUtf8CharPos(line, bytePos);
      StepsAreCodePoints(cps, charPos);
      EraseEncoded(cps, charPos);
      var w := widths[charPos];
      var charLen := nextPos - bytePos;
      line := line[..bytePos] + line[bytePos + charLen..];
      assert (widths[..charPos] + widths[charPos + 1..])[..charPos] == widths[..charPos];
      widths := widths[..charPos] + widths[charPos + 1..];
      cps := cps[..charPos] + cps[charPos + 1..];
      var tailWidth := PrintTail(charPos, charPos, bytePos);
      column := column + w;
      MoveCursor(-(tailWidth + w));
    }

    method Backspace()
      requires LineValid()
      modifies this`line, this`widths, this`cps, this`column, this`charPos, this`bytePos
      ensures LineValid()
      ensures Line(cps, charPos) == Backspaced(Line(old(cps), old(charPos)))
    {
      hide Encode, Offset, NextPos, PrevPos;
      if charPos == 0 { return; }
      var w := widths[charPos - 1];
      assert widths[..charPos][..charPos - 1] == widths[..charPos - 1];
      MoveCursor(-w);
      charPos := charPos - 1;
      BoundaryOrEnd(cps, charPos + 1);
      var prevPos := PrevUtf8CharPos(line, bytePos);
      StepsAreCodePoints(cps, charPos);
      EraseEncoded(cps, charPos);
      var charLen := bytePos - prevPos;
      bytePos := prevPos;
      line := line[..bytePos] + line[bytePos + charLen..];
      assert (widths[..charPos] + widths[charPos + 1..])[..charPos] == widths[..charPos];
      widths := widths[..charPos] + widths[charPos + 1..];
      cps := cps[..charPos] + cps[charPos + 1..];
      var tailWidth := PrintTail(charPos, charPos, bytePos);
      column := column + w;
      MoveCursor(-(tailWidth + w));
    }

    /** Typing a character. Beyond 0x10FFFF nothing is encoded but a width is still recorded, so
        the line stays valid exactly for code points. */
    method InsertChar(c: nat)
      requires LineValid()
      modifies this`line, this`widths, this`cps, this`column, this`charPos, this`bytePos
      ensures LineValid() <==> c <= MAX_CODE_POINT
      ensures c <= MAX_CODE_POINT ==> Line(cps, charPos) == Inserted(Line(old(cps), old(charPos)), c)
      ensures c > MAX_CODE_POINT ==> line == old(line) && |widths| == |old(widths)| + 1
    {
      hide Encode, Offset, EncodeChar, Sum;
      var newChar := EncodeChar(c);
      var w := RealWidth(width, c);
      ghost var k := charPos;
      SplitEncoded(cps, k);
      OffsetEnds(cps);
      WidthInserted(widths, k, w);
      ghost var new_ := if c <= MAX_CODE_POINT then cps[..k] + [c] + cps[k..] else cps;
      if c <= MAX_CODE_POINT { InsertEncoded(cps, k, c); }
      if charPos == |widths| {
        line := line + newChar;
        column := column + w;
        widths := widths + [w];
        cps := new_;
      } else {
        line := line[..bytePos] + newChar + line[bytePos..];
        column := column + w;
        widths := widths[..charPos] + [w] + widths[charPos..];
        cps := new_;
        var tailWidth := PrintTail(charPos + 1, if c <= MAX_CODE_POINT then k + 1 else k, bytePos + |newChar|);
        MoveCursor(-tailWidth);
      }
      bytePos := bytePos + |newChar|;
      charPos := charPos + 1;
    }

    method ClearCurrentLine()
      modifies this`column
      ensures column == old(column)
    {
      var totalWidth := 0;
      for i := 0 to |widths| {
        totalWidth := totalWidth + (if widths[i] > 0 then widths[i] else 1);
      }
      if totalWidth > 0 {
        column := column + totalWidth;
        MoveCursor(-totalWidth);
      }
    }

    method SetLineContents(newLine: string, ghost newCps: Cps)
      requires LineValid() && newLine == Encode(newCps)
      modifies this`line, this`widths, this`cps, this`column, this`charPos, this`bytePos
      ensures LineValid() && cps == newCps && charPos == |newCps|
    {
      hide Encode, Offset, DecodeAt;
      MoveToLineStart();
      ClearCurrentLine();
      line := newLine;
      cps := newCps;
      widths := [];
      bytePos := 0;
      charPos := 0;
      OffsetEnds(cps);
      assert widths[..0] == [];
      var idx := 0;
      while idx < |line|
        invariant line == newLine && cps == newCps && charPos <= |cps| && |widths| == charPos
        invariant idx == bytePos == Offset(cps, charPos) && column == Sum(widths[..charPos])
        decreases |line| - idx
      {
        BoundaryOrEnd(cps, charPos);
        BytesAt(cps, charPos);
        var (cp, advance) := DecodeAt(line, idx);
        var w := RealWidth(width, cp);
        column := column + w;
        assert (widths + [w])[..charPos + 1][..charPos] == widths[..charPos];
        widths := widths + [w];
        idx := idx + advance;
        charPos := charPos + 1;
        bytePos := idx;
      }
      AllRead(cps, charPos);
    }

    // ---------- history ----------

    method HistoryAdd(text: string, ghost t: Cps)
      requires HistoryValid() && text == Encode(t)
      modifies this`entries, this`viewing, this`backupLine, this`past
      ensures HistoryValid() && past == Remembered(old(past), t)
    {
      hide Encode;
      EncodeEmpty(t);
      RememberedOk(past, t);
      if text == "" { return; }
      if |entries| > 0 { SameEncoding(past.entries[|past.entries| - 1], t); }
      if entries == [] || entries[|entries| - 1] != text {
        entries := entries + [text];
      }
      past := Remembered(past, t);
      EncodeNothing();
      assert entries == Encodings(past.entries);
      EndViewing();
    }

    method EndViewing()
      modifies this`viewing, this`backupLine
      ensures viewing == None && backupLine == ""
    {
      viewing := None;
      backupLine := "";
    }

    /** The closure history_prev. */
    method HistoryPrev()
      requires Valid()
      modifies this
      ensures Valid() && Current() == Step(old(Current()), Up, isSpace)
    {
      hide Encode, Offset, LineValid;
      past := Viewed(past, cps);
      if viewing.None? {
        assert line == Encode(cps) by { LineIsEncoded(this); }
        backupLine := line;
        viewing := Some(|entries|);
      }
      assert HistoryValid();
      if entries == [] { return; }
      var i := if viewing.value > 0 then viewing.value - 1 else 0;
      viewing := Some(i);
      ghost var (h, t) := Older(past);
      past := h;
      SetLineContents(entries[i], t.value);
    }

    /** The closure history_next. */
    method HistoryNext()
      requires Valid()
      modifies this
      ensures Valid() && Current() == Step(old(Current()), Down, isSpace)
    {
      hide Encode, Offset, LineValid;
      if viewing.None? || entries == [] { return; }
      ghost var (h, t) := Newer(past);
      var i := viewing.value + 1;
      var text;
      viewing := Some(i);
      if i >= |entries| {
        text := backupLine;
        EndViewing();
      } else {
        text := entries[i];
      }
      past := h;
      EncodeNothing();
      SetLineContents(text, t.value);
    }

    // ---------- the loop ----------

    /** What one key does, once it has been read. */
    method HandleKey(k: Key)
      requires Valid()
      modifies this
      ensures Valid() && Current() == Step(old(Current()), k, isSpace)
    {
      hide Encode, Offset, LineValid, HistoryValid;
      match k {
        case Char(c) => InsertChar(c);
        case Backspace => Backspace();
        case Delete => DeleteAtCursor();
        case Left => MoveLeft();
        case Right => MoveRight();
        case WordLeft => MoveWordLeft();
        case WordRight => MoveWordRight();
        case Home => MoveToLineStart();
        case End => MoveToLineEnd();
        case Up => HistoryPrev();
        case Down => HistoryNext();
        case Ignored =>
      }
    }

    /** The last byte of the line is one of the two special ones. */
    predicate EndsSpecially()
      reads `line
    {
      line != "" && (line[|line| - 1] == '\\' || line[|line| - 1] == '/')
    }

    /** readline_advanced on the keys up to the one that ends the line. */
    method Readline(keys: seq<Key>, endOfStream: bool, multilineInput: bool) returns (hasMore: bool)
      requires HistoryValid()
      modifies this
      ensures HistoryValid()
      ensures var s := Steps(Session(Line([], 0), old(past)), keys, isSpace);
              var (t, more) := Finished(s, endOfStream, multilineInput);
              line == Encode(t.line.cps) && past == t.history && hasMore == more
    {
      hide Encode, Offset, LineValid, HistoryValid, Step, EndsSpecially;
      ClearLine();
      SessionIsOk(this);
      ghost var start := Current();
      var isSpecialChar := false;
      var n := 0;
      while n < |keys|
        invariant 0 <= n <= |keys| && Valid() && SessionOk(Current())
        invariant Steps(Current(), keys[n..], isSpace) == Steps(start, keys, isSpace)
        invariant isSpecialChar == EndsSpecially()
      {
        HandleKey(keys[n]);
        SessionIsOk(this);
        assert keys[n..][1..] == keys[n + 1..];
        isSpecialChar := EndsSpecially();
        n := n + 1;
      }
      assert keys[n..] == [];
      hasMore := EndLine(isSpecialChar, endOfStream, multilineInput);
    }

    method ClearLine()
      modifies this`line, this`widths, this`cps, this`column, this`charPos, this`bytePos
      ensures LineValid() && cps == [] && charPos == 0 && !EndsSpecially()
    {
      line, widths, charPos, bytePos, column := "", [], 0, 0, 0;
      cps := [];
    }

    /** The tail of readline_advanced. With the flag true, the line is not empty: its last byte is read. */
    method EndLine(isSpecialChar: bool, endOfStream: bool, multilineInput: bool) returns (hasMore: bool)
      requires Valid() && isSpecialChar == EndsSpecially()
      modifies this
      ensures HistoryValid()
      ensures var (t, more) := Finished(old(Current()), endOfStream, multilineInput);
              line == Encode(t.line.cps) && past == t.history && hasMore == more
    {
      hide Encode, HistoryValid, Ended, EndsSpecially;
      ghost var text;
      hasMore, text := EndText(isSpecialChar, endOfStream, multilineInput);
      EncodeEmpty(text);
      if !endOfStream && line != "" {
        LastByte(text, NEWLINE);
        if line[|line| - 1] == '\n' {
          line := line[..|line| - 1];
          text := text[..|text| - 1];
        }
        HistoryAdd(line, text);
      }
    }

    /** What becomes of the last character. */
    method EndText(isSpecialChar: bool, endOfStream: bool, multilineInput: bool)
      returns (hasMore: bool, ghost text: Cps)
      requires LineValid() && isSpecialChar == EndsSpecially()
      modifies this`line
      ensures line == Encode(text) && (text, hasMore) == Ended(cps, endOfStream, multilineInput)
    {
      hide Encode;
      SpecialBytes(cps);
      text := cps;
      hasMore := multilineInput;
      if isSpecialChar {
        var last := line[|line| - 1];
        line := line[..|line| - 1];
        text := text[..|text| - 1];
        if last == '\\' {
          AppendAscii(text, NEWLINE);
          line := line + "\n";
          text := text + [NEWLINE];
          hasMore := !hasMore;
        } else {
          SingleSpace(text);
          if |line| == 1 && line[|line| - 1] == ' ' {
            line := "";
            text := [];
            EncodeNothing();
          }
          hasMore := false;
        }
      } else if endOfStream {
        hasMore := false;
      } else {
        AppendAscii(text, NEWLINE);
        line := line + "\n";
        text := text + [NEWLINE];
      }
    }
  }

  /** What the program asserts at every turn of its loop. */
  lemma AssertsHold(e: LineEditor)
    requires e.LineValid()
    ensures e.charPos <= e.bytePos && e.charPos <= |e.widths|
  {
    BoundaryOrEnd(e.cps, e.charPos);
  }

  lemma LineIsEncoded(e: LineEditor)
    requires e.LineValid()
    ensures e.line == Encode(e.cps)
  {
  }

  lemma SessionIsOk(e: LineEditor)
    requires e.Valid()
    ensures SessionOk(e.Current())
  {
  }
}
