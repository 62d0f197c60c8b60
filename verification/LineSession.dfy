/** The line editor as a user thinks of it: a sequence of code points with a cursor, and a history
    of lines. The console's byte-level editor is proved to refine this one. */
module LineSession {
  import opened Text
  import opened Utf8

  type Cps = seq<CodePoint>

  datatype Line = Line(cps: Cps, cur: nat)

  predicate LineOk(l: Line) {
    l.cur <= |l.cps|
  }

  /** Every way the edit loop can go on after a key. */
  datatype Key =
    | Char(c: CodePoint) | Backspace | Delete
    | Left | Right | WordLeft | WordRight | Home | End
    | Up | Down | Ignored

  // ---------- editing ----------

  function Inserted(l: Line, c: CodePoint): Line
    requires LineOk(l)
  {
    Line(l.cps[..l.cur] + [c] + l.cps[l.cur..], l.cur + 1)
  }

  function Backspaced(l: Line): Line
    requires LineOk(l)
  {
    if l.cur == 0 then l else Line(l.cps[..l.cur - 1] + l.cps[l.cur..], l.cur - 1)
  }

  function Deleted(l: Line): Line
    requires LineOk(l)
  {
    if l.cur == |l.cps| then l else Line(l.cps[..l.cur] + l.cps[l.cur + 1..], l.cur)
  }

  /** The start of the run of code points before `k` on which `isSpace` answers `wanted`. */
  function RunStart(cps: Cps, k: nat, isSpace: CodePoint -> bool, wanted: bool): (r: nat)
    requires k <= |cps|
    ensures r <= k && (forall i :: r <= i < k ==> isSpace(cps[i]) == wanted)
    ensures r > 0 ==> isSpace(cps[r - 1]) != wanted
  {
    if k > 0 && isSpace(cps[k - 1]) == wanted then RunStart(cps, k - 1, isSpace, wanted) else k
  }

  /** The end of such a run from `k` on. */
  function RunEnd(cps: Cps, k: nat, isSpace: CodePoint -> bool, wanted: bool): (r: nat)
    requires k <= |cps|
    ensures k <= r <= |cps| && (forall i :: k <= i < r ==> isSpace(cps[i]) == wanted)
    ensures r < |cps| ==> isSpace(cps[r]) != wanted
    decreases |cps| - k
  {
    if k < |cps| && isSpace(cps[k]) == wanted then RunEnd(cps, k + 1, isSpace, wanted) else k
  }

  /** To the start of the word before the cursor. */
  function WordLeftOf(l: Line, isSpace: CodePoint -> bool): Line
    requires LineOk(l)
  {
    l.(cur := RunStart(l.cps, RunStart(l.cps, l.cur, isSpace, true), isSpace, false))
  }

  /** To the start of the word after the one at the cursor. */
  function WordRightOf(l: Line, isSpace: CodePoint -> bool): Line
    requires LineOk(l)
  {
    l.(cur := RunEnd(l.cps, RunEnd(l.cps, RunEnd(l.cps, l.cur, isSpace, true), isSpace, false), isSpace, true))
  }

  // ---------- history ----------

  /** `viewing` is None when not viewing, else an index; the entry count is the line being typed. */
  datatype History = History(entries: seq<Cps>, viewing: Option<nat>, backup: Cps)

  function Remembered(h: History, line: Cps): History {
    if line == [] then h
    else
      var again := h.entries != [] && h.entries[|h.entries| - 1] == line;
      History(if again then h.entries else h.entries + [line], None, [])
  }

  predicate HistoryOk(h: History) {
    && (forall i :: 0 <= i < |h.entries| ==> h.entries[i] != [])
    && (forall i :: 0 < i < |h.entries| ==> h.entries[i - 1] != h.entries[i])
    && (h.viewing.Some? ==> h.viewing.value <= |h.entries|)
  }

  /** begin_viewing, when not viewing yet. */
  function Viewed(h: History, line: Cps): History {
    if h.viewing.None? then h.(viewing := Some(|h.entries|), backup := line) else h
  }

  /** prev; `None`: nothing to show. */
  function Older(h: History): (History, Option<Cps>)
    requires HistoryOk(h)
  {
    if h.entries == [] || h.viewing.None? then (h, None)
    else
      var i := if h.viewing.value > 0 then h.viewing.value - 1 else 0;
      (h.(viewing := Some(i)), Some(h.entries[i]))
  }

  /** next. */
  function Newer(h: History): (History, Option<Cps>) {
    if h.entries == [] || h.viewing.None? then (h, None)
    else if h.viewing.value + 1 >= |h.entries| then (h.(viewing := None, backup := []), Some(h.backup))
    else (h.(viewing := Some(h.viewing.value + 1)), Some(h.entries[h.viewing.value + 1]))
  }

  // ---------- a session ----------

  datatype Session = Session(line: Line, history: History)

  predicate SessionOk(s: Session) {
    LineOk(s.line) && HistoryOk(s.history)
  }

  function Shown(s: Session, h: History, text: Option<Cps>): Session {
    match text
    case None => Session(s.line, h)
    case Some(t) => Session(Line(t, |t|), h)
  }

  function Step(s: Session, k: Key, isSpace: CodePoint -> bool): (r: Session)
    requires SessionOk(s)
    ensures SessionOk(r)
  {
    var l := s.line;
    match k
    case Char(c) => s.(line := Inserted(l, c))
    case Backspace => s.(line := Backspaced(l))
    case Delete => s.(line := Deleted(l))
    case Left => s.(line := if l.cur > 0 then l.(cur := l.cur - 1) else l)
    case Right => s.(line := if l.cur < |l.cps| then l.(cur := l.cur + 1) else l)
    case WordLeft => s.(line := WordLeftOf(l, isSpace))
    case WordRight => s.(line := WordRightOf(l, isSpace))
    case Home => s.(line := l.(cur := 0))
    case End => s.(line := l.(cur := |l.cps|))
    case Up =>
      var (h, t) := Older(Viewed(s.history, l.cps));
      Shown(s, h, t)
    case Down =>
      var (h, t) := Newer(s.history);
      Shown(s, h, t)
    case Ignored => s
  }

  function Steps(s: Session, keys: seq<Key>, isSpace: CodePoint -> bool): (r: Session)
    requires SessionOk(s)
    ensures SessionOk(r)
    decreases |keys|
  {
    if keys == [] then s else Steps(Step(s, keys[0], isSpace), keys[1..], isSpace)
  }

  // ---------- the end of a line ----------

  const BACKSLASH := '\\' as int
  const SLASH := '/' as int
  const NEWLINE := '\n' as int
  const SPACE := ' ' as int

  /** The line ends in one of the two special characters. */
  predicate Special(cps: Cps) {
    cps != [] && (cps[|cps| - 1] == BACKSLASH || cps[|cps| - 1] == SLASH)
  }

  /** The returned line and whether more input is wanted. */
  function Ended(cps: Cps, endOfStream: bool, multiline: bool): (Cps, bool) {
    if Special(cps) then
      var body := cps[..|cps| - 1];
      if cps[|cps| - 1] == BACKSLASH then (body + [NEWLINE], !multiline)
      else (if body == [SPACE] then [] else body, false)
    else if endOfStream then (cps, false)
    else (cps + [NEWLINE], multiline)
  }

  function WithoutNewline(cps: Cps): Cps {
    if cps != [] && cps[|cps| - 1] == NEWLINE then cps[..|cps| - 1] else cps
  }

  /** What readline leaves behind: the session and whether more input is wanted. */
  function Finished(s: Session, endOfStream: bool, multiline: bool): (Session, bool) {
    var (line, more) := Ended(s.line.cps, endOfStream, multiline);
    if endOfStream || line == [] then (Session(Line(line, 0), s.history), more)
    else
      var stored := WithoutNewline(line);
      (Session(Line(stored, 0), Remembered(s.history, stored)), more)
  }

  // ---------- properties of the simple editor ----------

  lemma RememberedOk(h: History, line: Cps)
    requires HistoryOk(h)
    ensures HistoryOk(Remembered(h, line))
  {
  }

  /** Typing and deleting undo each other; so do the two deletions at one place. */
  lemma EditsUndo(l: Line, c: CodePoint)
    requires LineOk(l)
    ensures Backspaced(Inserted(l, c)) == l
    ensures l.cur < |l.cps| ==> Deleted(l) == Backspaced(l.(cur := l.cur + 1))
  {
    var i := Inserted(l, c);
    assert i.cps[..l.cur] == l.cps[..l.cur] && i.cps[l.cur + 1..] == l.cps[l.cur..];
  }

  function Repeat(k: Key, n: nat): seq<Key> {
    if n == 0 then [] else [k] + Repeat(k, n - 1)
  }

  lemma {:induction false} StepsConcat(s: Session, a: seq<Key>, b: seq<Key>, isSpace: CodePoint -> bool)
    requires SessionOk(s)
    ensures Steps(s, a + b, isSpace) == Steps(Steps(s, a, isSpace), b, isSpace)
    decreases |a|
  {
    hide Step;
    if a == [] {
      assert a + b == b;
    } else {
      assert (a + b)[1..] == a[1..] + b;
      StepsConcat(Step(s, a[0], isSpace), a[1..], b, isSpace);
    }
  }

  function Minus(a: nat, b: nat): nat {
    if a > b then a - b else 0
  }

  /** `k` times up while viewing entry `v`. */
  lemma {:induction false} UpsWalkBack(s: Session, k: nat, isSpace: CodePoint -> bool)
    requires SessionOk(s) && s.history.entries != [] && s.history.viewing.Some?
    ensures Steps(s, Repeat(Up, k), isSpace).history
            == s.history.(viewing := Some(Minus(s.history.viewing.value, k)))
    decreases k
  {
    if k > 0 {
      var t := Step(s, Up, isSpace);
      assert Repeat(Up, k)[1..] == Repeat(Up, k - 1);
      UpsWalkBack(t, k - 1, isSpace);
    }
  }

  /** As many times down as there are entries from the one viewed. */
  lemma {:induction false} DownsReturn(s: Session, k: nat, isSpace: CodePoint -> bool)
    requires SessionOk(s) && s.history.entries != [] && s.history.viewing.Some?
    requires k > 0 && s.history.viewing.value + k == |s.history.entries|
    ensures var t := Steps(s, Repeat(Down, k), isSpace);
            t.line.cps == s.history.backup && t.history == s.history.(viewing := None, backup := [])
    decreases k
  {
    var t := Step(s, Down, isSpace);
    assert Repeat(Down, k)[1..] == Repeat(Down, k - 1);
    if k > 1 {
      DownsReturn(t, k - 1, isSpace);
    }
  }

  /** History navigation: from not viewing with entries, any number of ups and then as many downs,
      capped by the number of entries, restore the typed line and leave viewing. */
  lemma UpsThenDowns(s: Session, k: nat, isSpace: CodePoint -> bool)
    requires SessionOk(s) && s.history.entries != [] && s.history.viewing.None?
    ensures var n := |s.history.entries|;
            var t := Steps(s, Repeat(Up, k) + Repeat(Down, if k < n then k else n), isSpace);
            t.line.cps == s.line.cps && t.history.viewing.None? && t.history.entries == s.history.entries
  {
    hide Step, Steps;
    var n := |s.history.entries|;
    var d := if k < n then k else n;
    if k == 0 {
      assert Repeat(Up, k) + Repeat(Down, d) == [];
      NoSteps(s, isSpace);
    } else {
      FirstUp(s, k, isSpace);
      StepsConcat(s, Repeat(Up, k), Repeat(Down, d), isSpace);
      DownsReturn(Steps(s, Repeat(Up, k), isSpace), d, isSpace);
    }
  }

  lemma NoSteps(s: Session, isSpace: CodePoint -> bool)
    requires SessionOk(s)
    ensures Steps(s, [], isSpace) == s
  {
  }

  lemma FirstUp(s: Session, k: nat, isSpace: CodePoint -> bool)
    requires SessionOk(s) && s.history.entries != [] && s.history.viewing.None? && k > 0
    ensures Steps(s, Repeat(Up, k), isSpace).history
            == History(s.history.entries, Some(Minus(|s.history.entries|, k)), s.line.cps)
  {
    hide Steps, Step, HistoryOk;
    var t := Step(s, Up, isSpace);
    OneUp(s, isSpace);
    assert Repeat(Up, k) == [Up] + Repeat(Up, k - 1);
    StepsConcat(s, [Up], Repeat(Up, k - 1), isSpace);
    OneStep(s, Up, isSpace);
    UpsWalkBack(t, k - 1, isSpace);
  }

  lemma OneStep(s: Session, k: Key, isSpace: CodePoint -> bool)
    requires SessionOk(s)
    ensures Steps(s, [k], isSpace) == Step(s, k, isSpace)
  {
    hide Step;
    assert [k][1..] == [];
  }

  lemma OneUp(s: Session, isSpace: CodePoint -> bool)
    requires SessionOk(s) && s.history.entries != [] && s.history.viewing.None?
    ensures Step(s, Up, isSpace).history
            == History(s.history.entries, Some(|s.history.entries| - 1), s.line.cps)
  {
  }

  /** Finishing a line keeps the history in order. It also leaves viewing, except when nothing is
      stored: an empty line entered while viewing leaves the old view for the next line. */
  lemma FinishedHistory(s: Session, endOfStream: bool, multiline: bool)
    requires SessionOk(s)
    ensures HistoryOk(Finished(s, endOfStream, multiline).0.history)
    ensures Finished(s, endOfStream, multiline).0.history.viewing.Some? <==>
              s.history.viewing.Some? &&
              (endOfStream || WithoutNewline(Ended(s.line.cps, endOfStream, multiline).0) == [])
  {
    var stored := WithoutNewline(Ended(s.line.cps, endOfStream, multiline).0);
    RememberedOk(s.history, stored);
  }
}
