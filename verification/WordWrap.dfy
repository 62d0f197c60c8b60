/** Breaking help text into lines: lines that fit are kept as they are, longer ones have their words
    laid out again, as many to a line as fit. */
module WordWrap {
  import opened Text

  // ---------- words ----------

  function WordLength(s: string): (n: nat)
    ensures n <= |s| && (n < |s| ==> IsSpace(s[n])) && (n == 0 <==> s == "" || IsSpace(s[0]))
    ensures forall k :: 0 <= k < n ==> !IsSpace(s[k])
  {
    if s == "" || IsSpace(s[0]) then 0 else 1 + WordLength(s[1..])
  }

  /** What reading word after word from a stream yields. */
  function Words(s: string): seq<string>
    decreases |s|
  {
    if s == "" then []
    else if IsSpace(s[0]) then Words(s[1..])
    else [s[..WordLength(s)]] + Words(s[WordLength(s)..])
  }

  predicate IsWord(w: string) {
    w != "" && forall k :: 0 <= k < |w| ==> !IsSpace(w[k])
  }

  predicate AreWords(ws: seq<string>) {
    forall k :: 0 <= k < |ws| ==> IsWord(ws[k])
  }

  lemma {:induction false} WordsAreWords(s: string)
    ensures AreWords(Words(s))
    decreases |s|
  {
    if s != "" {
      if IsSpace(s[0]) {
        WordsAreWords(s[1..]);
      } else {
        WordsAreWords(s[WordLength(s)..]);
      }
    }
  }

  // ---------- lines of words ----------

  /** The words of a line with a blank between each two. */
  function Joined(ws: seq<string>): string {
    if ws == [] then "" else if |ws| == 1 then ws[0]
    else Joined(ws[..|ws| - 1]) + " " + ws[|ws| - 1]
  }

  function Width(ws: seq<string>): nat {
    if ws == [] then 0 else if |ws| == 1 then |ws[0]|
    else Width(ws[..|ws| - 1]) + 1 + |ws[|ws| - 1]|
  }

  lemma {:induction false} JoinedWidth(ws: seq<string>)
    ensures |Joined(ws)| == Width(ws)
  {
    if |ws| > 1 {
      JoinedWidth(ws[..|ws| - 1]);
    }
  }

  lemma WidthMore(ws: seq<string>, w: string)
    ensures Width(ws + [w]) == if ws == [] then |w| else Width(ws) + 1 + |w|
    ensures Joined(ws + [w]) == if ws == [] then w else Joined(ws) + " " + w
  {
    assert (ws + [w])[..|ws|] == ws;
  }

  lemma {:induction false} WidthFront(w: string, ws: seq<string>)
    ensures Width([w] + ws) == |w| + if ws == [] then 0 else 1 + Width(ws)
    decreases |ws|
  {
    if |ws| == 0 {
      assert [w] + ws == [w];
    } else {
      var m := |ws| - 1;
      assert ([w] + ws)[..|ws|] == [w] + ws[..m];
      WidthFront(w, ws[..m]);
    }
  }

  lemma {:induction false} WidthGrows(x: seq<string>, y: seq<string>)
    ensures Width(y) <= Width(x + y) && Width(x) <= Width(x + y)
    decreases |y|
  {
    if y == [] {
      assert x + y == x;
    } else {
      var m := |y| - 1;
      assert x + y == (x + y[..m]) + [y[m]] && y == y[..m] + [y[m]];
      WidthGrows(x, y[..m]);
      WidthMore(x + y[..m], y[m]);
      WidthMore(y[..m], y[m]);
    }
  }

  // ---------- the greedy layout ----------

  /** How many more words fit on a line that has some. */
  function Take(line: seq<string>, rest: seq<string>, limit: nat): (n: nat)
    ensures n <= |rest|
    decreases |rest|
  {
    if rest == [] || Width(line) + 1 + |rest[0]| > limit then 0
    else 1 + Take(line + [rest[0]], rest[1..], limit)
  }

  function FirstLine(ws: seq<string>, limit: nat): (n: nat)
    requires ws != []
    ensures 1 <= n <= |ws|
  {
    1 + Take([ws[0]], ws[1..], limit)
  }

  function Wrap(ws: seq<string>, limit: nat): seq<seq<string>>
    decreases |ws|
  {
    if ws == [] then []
    else var n := FirstLine(ws, limit); [ws[..n]] + Wrap(ws[n..], limit)
  }

  /** The layout of a line begun and the words still to come. */
  function WrapFrom(line: seq<string>, rest: seq<string>, limit: nat): seq<seq<string>> {
    if line == [] then Wrap(rest, limit)
    else var n := Take(line, rest, limit); [line + rest[..n]] + Wrap(rest[n..], limit)
  }

  lemma WrapFromNext(line: seq<string>, rest: seq<string>, limit: nat)
    requires rest != []
    ensures var w, more := rest[0], rest[1..];
      WrapFrom(line, rest, limit) ==
      if line == [] then WrapFrom([w], more, limit)
      else if Width(line) + 1 + |w| > limit then [line] + WrapFrom([w], more, limit)
      else WrapFrom(line + [w], more, limit)
  {
    if line == [] {
      FromFirst(rest, limit);
    } else if Width(line) + 1 + |rest[0]| > limit {
      FromFirst(rest, limit);
      assert line + rest[..0] == line && rest[0..] == rest;
    } else {
      FromSame(line, rest, limit);
    }
  }

  lemma FromFirst(rest: seq<string>, limit: nat)
    requires rest != []
    ensures Wrap(rest, limit) == WrapFrom([rest[0]], rest[1..], limit)
  {
    var t := Take([rest[0]], rest[1..], limit);
    assert [rest[0]] + rest[1..][..t] == rest[..t + 1] && rest[1..][t..] == rest[t + 1..];
  }

  lemma FromSame(line: seq<string>, rest: seq<string>, limit: nat)
    requires line != [] && rest != [] && Width(line) + 1 + |rest[0]| <= limit
    ensures WrapFrom(line, rest, limit) == WrapFrom(line + [rest[0]], rest[1..], limit)
  {
    hide Wrap, Width;
    var n := Take(line + [rest[0]], rest[1..], limit);
    TakeMore(line, rest, limit);
    hide Take;
    Shifted(line, rest, n);
  }

  lemma TakeMore(line: seq<string>, rest: seq<string>, limit: nat)
    requires rest != [] && Width(line) + 1 + |rest[0]| <= limit
    ensures Take(line, rest, limit) == 1 + Take(line + [rest[0]], rest[1..], limit)
  {
  }

  lemma Shifted(line: seq<string>, rest: seq<string>, n: nat)
    requires n < |rest|
    ensures (line + [rest[0]]) + rest[1..][..n] == line + rest[..n + 1]
    ensures rest[1..][n..] == rest[n + 1..]
  {
  }

  /** Words on a line fit, unless there is only one. */
  predicate Fits(ws: seq<string>, limit: nat) {
    |ws| <= 1 || Width(ws) <= limit
  }

  predicate AllFit(lines: seq<seq<string>>, limit: nat) {
    forall k :: 0 <= k < |lines| ==> Fits(lines[k], limit)
  }

  function Flat(lines: seq<seq<string>>): seq<string> {
    if lines == [] then [] else lines[0] + Flat(lines[1..])
  }

  /** What is taken fits. */
  lemma {:induction false} TakeFits(line: seq<string>, rest: seq<string>, limit: nat, n: nat)
    requires line != [] && n == Take(line, rest, limit)
    ensures n > 0 ==> Width(line + rest[..n]) <= limit
    decreases |rest|
  {
    if n > 0 {
      TakeMore(line, rest, limit);
      OneMore(line, rest);
      TakeFits(line + [rest[0]], rest[1..], limit, n - 1);
      hide *;
      Shifted(line, rest, n - 1);
    }
  }

  /** One word more would not fit. */
  lemma {:induction false} TakeStops(line: seq<string>, rest: seq<string>, limit: nat, n: nat)
    requires line != [] && n == Take(line, rest, limit)
    ensures n < |rest| ==> Width(line + rest[..n + 1]) > limit
    decreases |rest|
  {
    if n == 0 {
      if rest != [] {
        OneMore(line, rest);
      }
    } else {
      TakeMore(line, rest, limit);
      TakeStops(line + [rest[0]], rest[1..], limit, n - 1);
      hide *;
      if n < |rest| {
        Shifted(line, rest, n);
      }
    }
  }

  lemma OneMore(line: seq<string>, rest: seq<string>)
    requires line != [] && rest != []
    ensures line + rest[..1] == line + [rest[0]] && Width(line + rest[..1]) == Width(line) + 1 + |rest[0]|
  {
    WidthMore(line, rest[0]);
    assert rest[..1] == [rest[0]];
  }

  lemma FirstLineFits(ws: seq<string>, limit: nat)
    requires ws != []
    ensures var n := FirstLine(ws, limit);
      Fits(ws[..n], limit) && (n < |ws| ==> Width(ws[..n + 1]) > limit)
  {
    var n := Take([ws[0]], ws[1..], limit);
    TakeFits([ws[0]], ws[1..], limit, n);
    TakeStops([ws[0]], ws[1..], limit, n);
    assert [ws[0]] + ws[1..][..n] == ws[..n + 1];
    assert n + 1 < |ws| ==> [ws[0]] + ws[1..][..n + 1] == ws[..n + 2];
  }

  /** The layout keeps all words in order, and every line fits or is a single word. */
  lemma {:induction false} WrapKeeps(ws: seq<string>, limit: nat)
    ensures Flat(Wrap(ws, limit)) == ws && AllFit(Wrap(ws, limit), limit)
    decreases |ws|
  {
    if ws != [] {
      var n := FirstLine(ws, limit);
      FirstLineFits(ws, limit);
      WrapKeeps(ws[n..], limit);
      var lines := Wrap(ws, limit);
      assert lines[1..] == Wrap(ws[n..], limit);
      assert forall k :: 0 < k < |lines| ==> lines[k] == lines[1..][k - 1];
      assert ws[..n] + ws[n..] == ws;
    }
  }

  /** Laying out only the last part of the words takes no more lines than any fitting layout of all. */
  lemma {:induction false} GreedyStaysAhead(before: seq<string>, ws: seq<string>, other: seq<seq<string>>, limit: nat)
    requires Flat(other) == before + ws && AllFit(other, limit)
    ensures |Wrap(ws, limit)| <= |other|
    decreases |other|
  {
    if ws != [] {
      if other != [] {
        var line, more := other[0], other[1..];
        assert forall k :: 0 <= k < |more| ==> more[k] == other[k + 1];
        assert before + ws == line + Flat(more);
        if |line| <= |before| {
          assert before == line + before[|line|..] by {
            assert (before + ws)[..|line|] == line;
          }
          assert Flat(more) == (before + ws)[|line|..] == before[|line|..] + ws;
          GreedyStaysAhead(before[|line|..], ws, more, limit);
        } else {
          var m, n := |line| - |before|, FirstLine(ws, limit);
          assert line == before + ws[..m] by {
            assert (before + ws)[..|line|] == line;
          }
          assert Flat(more) == (before + ws)[|line|..] == ws[m..];
          FirstLineReaches(before, ws, m, limit);
          assert ws[m..] == ws[m..n] + ws[n..];
          GreedyStaysAhead(ws[m..n], ws[n..], more, limit);
        }
      }
    }
  }

  /** The first line holds every beginning of the words that fits on a line, whatever stands before it. */
  lemma FirstLineReaches(before: seq<string>, ws: seq<string>, m: nat, limit: nat)
    requires 0 < m <= |ws| && Fits(before + ws[..m], limit)
    ensures m <= FirstLine(ws, limit)
  {
    var n := FirstLine(ws, limit);
    FirstLineFits(ws, limit);
    if n < m {
      assert ws[..n + 1] + ws[n + 1..m] == ws[..m];
      WidthGrows(ws[..n + 1], ws[n + 1..m]);
      WidthGrows(before, ws[..m]);
    }
  }

  // ---------- strings and their words ----------

  lemma {:induction false} JoinedFront(w: string, ws: seq<string>)
    ensures Joined([w] + ws) == if ws == [] then w else w + (" " + Joined(ws))
    decreases |ws|
  {
    if ws == [] {
      assert [w] + ws == [w];
    } else {
      var front, last := ws[..|ws| - 1], ws[|ws| - 1];
      JoinedFront(w, front);
      WidthMore([w] + front, last);
      WidthMore(front, last);
      hide *;
      FrontLast(w, ws);
      if front != [] {
        Blanks(w, Joined(front), last);
      } else {
        Blank(w, last);
      }
    }
  }

  lemma FrontLast(w: string, ws: seq<string>)
    requires ws != []
    ensures var front, last := ws[..|ws| - 1], ws[|ws| - 1];
      [w] + ws == ([w] + front) + [last] && ws == front + [last] && (front == [] ==> [w] + front == [w])
  {
  }

  lemma Blank(a: string, b: string)
    ensures a + " " + b == a + (" " + b)
  {
  }

  lemma Blanks(a: string, b: string, c: string)
    ensures a + (" " + b) + " " + c == a + (" " + (b + " " + c))
  {
  }

  lemma {:induction false} WordLengthOf(w: string, t: string)
    requires IsWord(w) && (t == "" || IsSpace(t[0]))
    ensures WordLength(w + t) == |w|
  {
    assert (w + t)[1..] == w[1..] + t;
    if |w| == 1 {
      assert w[1..] + t == t;
    } else {
      WordLengthOf(w[1..], t);
    }
  }

  lemma WordsFront(w: string, t: string)
    requires IsWord(w) && (t == "" || IsSpace(t[0]))
    ensures Words(w + t) == [w] + Words(t)
  {
    WordLengthOf(w, t);
    assert (w + t)[..|w|] == w && (w + t)[|w|..] == t;
  }

  lemma WordsBlank(c: char, t: string)
    requires IsSpace(c)
    ensures Words([c] + t) == Words(t)
  {
    assert ([c] + t)[1..] == t;
  }

  /** Reading a joined line word by word gives its words. */
  lemma {:induction false} WordsJoined(ws: seq<string>)
    requires AreWords(ws)
    ensures Words(Joined(ws)) == ws
  {
    if ws != [] {
      var w, rest := ws[0], ws[1..];
      assert ws == [w] + rest && IsWord(w);
      JoinedFront(w, rest);
      if rest == [] {
        WordsFront(w, "");
        assert w + "" == w;
      } else {
        WordsJoined(rest);
        WordsFront(w, " " + Joined(rest));
        WordsBlank(' ', Joined(rest));
      }
    }
  }

  /** No line is shorter than its words with single blanks. */
  lemma {:induction false} WordsFit(s: string)
    ensures Width(Words(s)) <= |s|
    ensures s != "" && IsSpace(s[0]) ==> Words(s) == Words(s[1..])
    decreases |s|
  {
    if s != "" {
      if IsSpace(s[0]) {
        WordsFit(s[1..]);
      } else {
        var n := WordLength(s);
        var t := s[n..];
        WordsFit(t);
        WidthFront(s[..n], Words(t));
        if t != "" {
          WordsFit(t[1..]);
        }
      }
    }
  }

  /** The words of two texts set apart by a space. */
  lemma {:induction false} WordsApart(a: string, c: char, b: string)
    requires IsSpace(c)
    ensures Words(a + [c] + b) == Words(a) + Words(b)
    decreases |a|
  {
    var s := a + [c] + b;
    if a == "" {
      assert s == [c] + b;
      WordsBlank(c, b);
    } else if IsSpace(a[0]) {
      assert s == [a[0]] + (a[1..] + [c] + b);
      WordsBlank(a[0], a[1..] + [c] + b);
      WordsApart(a[1..], c, b);
    } else {
      var n := WordLength(a);
      var t := a[n..];
      assert a == a[..n] + t && s == a[..n] + (t + [c] + b);
      hide Words, WordLength;
      WordsFront(a[..n], t + [c] + b);
      WordsFront(a[..n], t);
      WordsApart(t, c, b);
      assert [a[..n]] + (Words(t) + Words(b)) == [a[..n]] + Words(t) + Words(b);
    }
  }

  function JoinAll(lines: seq<seq<string>>): (r: seq<string>)
    ensures |r| == |lines|
  {
    seq(|lines|, k requires 0 <= k < |lines| => Joined(lines[k]))
  }

  function Split(lines: seq<string>): (r: seq<seq<string>>)
    ensures |r| == |lines|
  {
    seq(|lines|, k requires 0 <= k < |lines| => Words(lines[k]))
  }

  /** All words of the lines, in order. */
  function AllWords(lines: seq<string>): seq<string> {
    Flat(Split(lines))
  }

  /** A line fits, or is a single word. */
  predicate LineFits(line: string, limit: nat) {
    |line| <= limit || |Words(line)| <= 1
  }

  predicate AllLinesFit(lines: seq<string>, limit: nat) {
    forall k :: 0 <= k < |lines| ==> LineFits(lines[k], limit)
  }

  /** An over-long line laid out again. */
  function LayOut(l: string, limit: nat): seq<string> {
    JoinAll(Wrap(Words(l), limit))
  }

  lemma {:induction false} FlatWords(lines: seq<seq<string>>)
    requires AreWords(Flat(lines))
    ensures forall k :: 0 <= k < |lines| ==> AreWords(lines[k])
  {
    if lines != [] {
      var rest := Flat(lines[1..]);
      assert forall k :: 0 <= k < |lines[0]| ==> lines[0][k] == Flat(lines)[k];
      assert forall k :: 0 <= k < |rest| ==> rest[k] == Flat(lines)[|lines[0]| + k];
      FlatWords(lines[1..]);
      assert forall k :: 0 < k < |lines| ==> lines[k] == lines[1..][k - 1];
    }
  }

  /** The new lines hold the words of the old one in order, and each fits or is a single word. */
  lemma LayOutKeeps(l: string, limit: nat)
    ensures AllWords(LayOut(l, limit)) == Words(l)
    ensures AllLinesFit(LayOut(l, limit), limit)
  {
    var lines := Wrap(Words(l), limit);
    WrapKeeps(Words(l), limit);
    WordsAreWords(l);
    FlatWords(lines);
    forall k | 0 <= k < |lines|
      ensures Words(Joined(lines[k])) == lines[k] && LineFits(Joined(lines[k]), limit)
    {
      WordsJoined(lines[k]);
      JoinedWidth(lines[k]);
      assert Fits(lines[k], limit);
    }
    hide Words, Joined, Wrap;
    assert Split(JoinAll(lines)) == lines;
  }

  /** No other lines with the same words, each of them fitting or a single word, are fewer. */
  lemma LayOutIsShortest(l: string, limit: nat, other: seq<string>)
    requires AllWords(other) == Words(l)
    requires AllLinesFit(other, limit)
    ensures |LayOut(l, limit)| <= |other|
  {
    var lines := Split(other);
    forall k | 0 <= k < |other|
      ensures Fits(lines[k], limit)
    {
      WordsFit(other[k]);
      assert LineFits(other[k], limit);
    }
    assert [] + Words(l) == Words(l);
    GreedyStaysAhead([], Words(l), lines, limit);
  }

  // ---------- the whole text ----------

  function LineLength(s: string): (n: nat)
    ensures n <= |s| && (n < |s| ==> s[n] == '\n') && forall k :: 0 <= k < n ==> s[k] != '\n'
  {
    if s == "" || s[0] == '\n' then 0 else 1 + LineLength(s[1..])
  }

  function AddLine(l: string, limit: nat): seq<string> {
    if |l| <= limit then [l] else LayOut(l, limit)
  }

  function Break(s: string, limit: nat): seq<string>
    decreases |s|
  {
    if s == "" then []
    else
      var n := LineLength(s);
      AddLine(s[..n], limit) + if n < |s| then Break(s[n + 1..], limit) else []
  }

  lemma {:induction false} FlatConcat(a: seq<seq<string>>, b: seq<seq<string>>)
    ensures Flat(a + b) == Flat(a) + Flat(b)
    decreases |a|
  {
    if a == [] {
      assert a + b == b;
    } else {
      assert (a + b)[1..] == a[1..] + b;
      FlatConcat(a[1..], b);
      assert a[0] + (Flat(a[1..]) + Flat(b)) == a[0] + Flat(a[1..]) + Flat(b);
    }
  }

  lemma AllWordsConcat(a: seq<string>, b: seq<string>)
    ensures AllWords(a + b) == AllWords(a) + AllWords(b)
  {
    assert Split(a + b) == Split(a) + Split(b);
    FlatConcat(Split(a), Split(b));
  }

  /** A line added gives its words back, on lines that fit or are a single word. */
  lemma AddLineKeeps(l: string, limit: nat)
    ensures AllWords(AddLine(l, limit)) == Words(l)
    ensures AllLinesFit(AddLine(l, limit), limit)
  {
    if |l| <= limit {
      assert Split([l]) == [Words(l)];
      assert Flat([Words(l)]) == Words(l) + Flat([Words(l)][1..]);
    } else {
      LayOutKeeps(l, limit);
    }
  }

  lemma LinesFitConcat(a: seq<string>, b: seq<string>, limit: nat)
    requires AllLinesFit(a, limit) && AllLinesFit(b, limit)
    ensures AllLinesFit(a + b, limit)
  {
  }

  lemma BreakStep(s: string, limit: nat)
    ensures s == "" ==> Break(s, limit) == []
    ensures s != "" && LineLength(s) == |s| ==> Break(s, limit) == AddLine(s, limit)
    ensures LineLength(s) < |s| ==>
              Break(s, limit) == AddLine(s[..LineLength(s)], limit) + Break(s[LineLength(s) + 1..], limit)
  {
    hide AddLine, LineLength;
    Whole(s, AddLine(s, limit));
  }

  lemma Whole(s: string, lines: seq<string>)
    ensures s[..|s|] == s && lines + [] == lines
  {
  }

  /** The whole text keeps its words in order, on lines that fit or are a single word. */
  lemma {:induction false} BreakKeeps(s: string, limit: nat)
    ensures AllWords(Break(s, limit)) == Words(s)
    ensures AllLinesFit(Break(s, limit), limit)
    decreases |s|
  {
    hide *;
    BreakStep(s, limit);
    if s == "" {
      NoWords([], limit);
    } else {
      var n := LineLength(s);
      AddLineKeeps(s[..n], limit);
      if n < |s| {
        BreakKeeps(s[n + 1..], limit);
        assert s == s[..n] + ['\n'] + s[n + 1..];
        Newline();
        WordsApart(s[..n], '\n', s[n + 1..]);
        AllWordsConcat(AddLine(s[..n], limit), Break(s[n + 1..], limit));
        LinesFitConcat(AddLine(s[..n], limit), Break(s[n + 1..], limit), limit);
      } else {
        assert s[..n] == s;
      }
    }
  }

  lemma NoWords(none: seq<string>, limit: nat)
    requires none == []
    ensures AllWords(none) == none && Words("") == none && AllLinesFit(none, limit)
  {
  }

  lemma Newline()
    ensures IsSpace('\n')
  {
  }

  /** Reads the next word from `pos`, or none at the end: the extraction operator of a stream. */
  method NextWord(l: string, pos: nat) returns (word: string, next: nat)
    requires pos <= |l|
    ensures pos <= next <= |l|
    ensures word == "" ==> Words(l[pos..]) == []
    ensures word != "" ==> pos < next && Words(l[pos..]) == [word] + Words(l[next..])
  {
    hide Words, WordLength;
    NoWords([], 0);
    var start := pos;
    while start < |l| && IsSpace(l[start])
      invariant pos <= start <= |l| && Words(l[pos..]) == Words(l[start..])
    {
      assert l[start..] == [l[start]] + l[start + 1..];
      WordsBlank(l[start], l[start + 1..]);
      start := start + 1;
    }
    next := start;
    while next < |l| && !IsSpace(l[next])
      invariant start <= next <= |l|
      invariant forall k :: start <= k < next ==> !IsSpace(l[k])
    {
      next := next + 1;
    }
    word := l[start..next];
    assert start == |l| ==> l[start..] == "";
    if word != "" {
      assert l[start..] == word + l[next..];
      WordsFront(word, l[next..]);
    }
  }

  method AddLineTo(result: seq<string>, l: string, limit: nat) returns (r: seq<string>)
    ensures r == result + AddLine(l, limit)
  {
    if |l| <= limit {
      return result + [l];
    }
    r := result;
    var currentLine := "";
    ghost var line: seq<string> := [];
    WordsAreWords(l);
    var word, pos := NextWord(l, 0);
    assert l[0..] == l;
    ghost var rest := Words(l);
    assert JoinAll([]) == [] && result + LayOut(l, limit) == r + JoinAll(WrapFrom(line, rest, limit));
    while word != ""
      invariant pos <= |l| && AreWords(line) && AreWords(rest)
      invariant rest == if word == "" then [] else [word] + Words(l[pos..])
      invariant currentLine == Joined(line)
      invariant r + JoinAll(WrapFrom(line, rest, limit)) == result + LayOut(l, limit)
      decreases |rest|
    {
      WordAdded(r, line, rest, limit);
      if |currentLine| + (if currentLine != "" then 1 else 0) + |word| > limit {
        if currentLine != "" {
          r := r + [currentLine];
        }
        currentLine := word;
        line := [word];
      } else {
        currentLine := currentLine + (if currentLine != "" then " " else "") + word;
        line := line + [word];
      }
      rest := rest[1..];
      word, pos := NextWord(l, pos);
    }
    LineEnded(r, line, limit);
    if currentLine != "" {
      r := r + [currentLine];
    }
  }

  method BreakStrIntoLines(input: string, limit: nat) returns (result: seq<string>)
    ensures result == Break(input, limit)
    ensures AllWords(result) == Words(input) && AllLinesFit(result, limit)
  {
    BreakKeeps(input, limit);
    hide *;
    result := [];
    var pos := 0;
    assert input[0..] == input;
    while pos < |input|
      invariant 0 <= pos <= |input|
      invariant result + Break(input[pos..], limit) == Break(input, limit)
    {
      ghost var rest := input[pos..];
      BreakStep(rest, limit);
      var end := pos;
      while end < |input| && input[end] != '\n'
        invariant pos <= end <= |input|
        invariant forall k :: pos <= k < end ==> input[k] != '\n'
      {
        end := end + 1;
      }
      LineLengthIs(rest, end - pos);
      assert rest[..end - pos] == input[pos..end];
      ghost var before := result;
      result := AddLineTo(result, input[pos..end], limit);
      if end < |input| {
        assert rest[end - pos + 1..] == input[end + 1..];
        assert before + (AddLine(input[pos..end], limit) + Break(input[end + 1..], limit)) ==
               result + Break(input[end + 1..], limit);
        pos := end + 1;
      } else {
        assert rest == input[pos..end];
        pos := end;
        assert input[pos..] == "";
        BreakStep("", limit);
      }
    }
    BreakStep(input[pos..], limit);
  }

  lemma {:induction false} LineLengthIs(s: string, n: nat)
    requires n <= |s| && (n < |s| ==> s[n] == '\n') && forall k :: 0 <= k < n ==> s[k] != '\n'
    ensures LineLength(s) == n
  {
    if n > 0 {
      LineLengthIs(s[1..], n - 1);
    }
  }

  /** What one word does to the lines done, the line begun and the words to come. */
  lemma WordAdded(r: seq<string>, line: seq<string>, rest: seq<string>, limit: nat)
    requires rest != [] && AreWords(line) && AreWords(rest)
    ensures var w, more, current := rest[0], rest[1..], Joined(line);
      && AreWords(more) && AreWords([w]) && AreWords(line + [w]) && w != ""
      && (current == "" <==> line == []) && Joined([w]) == w
      && Joined(line + [w]) == current + (if current != "" then " " else "") + w
      && var over := |current| + (if current != "" then 1 else 0) + |w| > limit;
         r + JoinAll(WrapFrom(line, rest, limit)) ==
         if over then (if line == [] then r else r + [current]) + JoinAll(WrapFrom([w], more, limit))
         else r + JoinAll(WrapFrom(line + [w], more, limit))
  {
    var w, more, current := rest[0], rest[1..], Joined(line);
    assert IsWord(w);
    JoinedWidth(line);
    JoinedNotEmpty(line);
    WidthMore(line, w);
    WrapFromNext(line, rest, limit);
    hide *;
    if line == [] {
      assert line + [w] == [w];
    } else {
      var lines := WrapFrom([w], more, limit);
      JoinAllCons(line, lines);
      assert r + ([current] + JoinAll(lines)) == r + [current] + JoinAll(lines);
    }
  }

  lemma JoinAllCons(line: seq<string>, lines: seq<seq<string>>)
    ensures JoinAll([line] + lines) == [Joined(line)] + JoinAll(lines)
  {
  }

  lemma JoinedNotEmpty(line: seq<string>)
    requires AreWords(line)
    ensures Joined(line) == "" <==> line == []
  {
  }

  lemma LineEnded(r: seq<string>, line: seq<string>, limit: nat)
    requires AreWords(line)
    ensures r + JoinAll(WrapFrom(line, [], limit)) == if Joined(line) == "" then r else r + [Joined(line)]
  {
    JoinedNotEmpty(line);
    var none: seq<string> := [];
    if line != [] {
      assert line + none[..0] == line && WrapFrom(line, none, limit) == [line];
    }
    assert JoinAll([line]) == [Joined(line)];
  }
}
