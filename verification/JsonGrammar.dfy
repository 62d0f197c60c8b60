/** The grammar of JSON documents (sections 2 to 5 of RFC 8259), and the proof that the parser accepts
    exactly its texts. Strings and numbers are what their automata accept. */
module JsonGrammar {
  import opened Text
  import opened JsonText

  predicate Blanks(s: string) {
    forall k :: 0 <= k < |s| ==> Blank(s[k])
  }

  function NumRun(n: NumState, s: string): Option<NumState>
    decreases |s|
  {
    if s == "" then Some(n)
    else if NumStep(n, s[0]).None? then None
    else NumRun(NumStep(n, s[0]).value, s[1..])
  }

  predicate IsString(s: string) {
    |s| >= 2 && s[0] == '"' && s[|s| - 1] == '"' && StrRun(Plain, s[1..|s| - 1]) == Some(Plain)
  }

  predicate IsNumber(s: string) {
    && s != "" && NumStart(s[0]).Some?
    && var r := NumRun(NumStart(s[0]).value, s[1..]);
       r.Some? && NumDone(r.value)
  }

  predicate IsWord(s: string) {
    s == "true" || s == "false" || s == "null"
  }

  // ---------- the grammar ----------

  ghost predicate IsValue(s: string)
    decreases |s|, 0
  {
    || IsString(s) || IsNumber(s) || IsWord(s)
    || (|s| >= 2 && s[0] == '[' && s[|s| - 1] == ']' && var b := s[1..|s| - 1]; Blanks(b) || Items(b))
    || (|s| >= 2 && s[0] == '{' && s[|s| - 1] == '}' && var b := s[1..|s| - 1]; Blanks(b) || Members(b))
  }

  /** A value between blanks. */
  ghost predicate Padded(s: string)
    decreases |s|, 1
  {
    exists i: nat, j: nat :: i <= j <= |s| && Blanks(s[..i]) && IsValue(s[i..j]) && Blanks(s[j..])
  }

  ghost predicate Items(s: string)
    decreases |s|, 2
  {
    Padded(s) || exists k: nat :: k < |s| && s[k] == ',' && Padded(s[..k]) && Items(s[k + 1..])
  }

  /** A key between blanks. */
  predicate Keyed(s: string) {
    exists i: nat, j: nat :: i <= j <= |s| && Blanks(s[..i]) && IsString(s[i..j]) && Blanks(s[j..])
  }

  ghost predicate Member(s: string)
    decreases |s|, 2
  {
    exists k: nat :: k < |s| && s[k] == ':' && Keyed(s[..k]) && Padded(s[k + 1..])
  }

  ghost predicate Members(s: string)
    decreases |s|, 3
  {
    Member(s) || exists k: nat :: k < |s| && s[k] == ',' && Member(s[..k]) && Members(s[k + 1..])
  }

  ghost predicate Document(s: string) {
    Padded(s)
  }

  // ---------- every document is accepted ----------

  lemma {:induction false} BlanksRun(open: seq<Kind>, e: Expect, s: string)
    requires Blanks(s)
    ensures Run(State(open, e, Idle), s) == State(open, e, Idle)
    decreases |s|
  {
    if s != "" {
      assert Blanks(s[1..]);
      BlanksRun(open, e, s[1..]);
    }
  }

  lemma {:induction false} NumRuns(open: seq<Kind>, e: Expect, n: NumState, s: string)
    requires NumRun(n, s).Some?
    ensures Run(State(open, e, InNum(n)), s) == State(open, e, InNum(NumRun(n, s).value))
    decreases |s|
  {
    if s != "" {
      NumRuns(open, e, NumStep(n, s[0]).value, s[1..]);
    }
  }

  lemma {:induction false} WordRuns(open: seq<Kind>, e: Expect, rest: string)
    requires rest != ""
    ensures Run(State(open, e, InWord(rest)), rest) == Done(open)
    decreases |rest|
  {
    if |rest| == 1 {
      assert rest[1..] == "";
    } else {
      WordRuns(open, e, rest[1..]);
    }
  }

  /** Behind a value: at once, or when the next character shows that a number has ended. */
  predicate Ended(s: State, open: seq<Kind>) {
    s == Done(open) || (s.State? && s.open == open && s.lex.InNum? && NumDone(s.lex.num))
  }

  lemma EndedStep(s: State, open: seq<Kind>, c: char)
    requires Ended(s, open) && (Blank(c) || c == ',' || c == ']' || c == '}')
    ensures Step(s, c) == StepBetween(open, AfterValue, c)
  {
  }

  lemma Last(s: State, text: string, c: char)
    requires text != "" && text[|text| - 1] == c
    ensures Run(s, text) == Step(Run(s, text[..|text| - 1]), c)
  {
    assert text == text[..|text| - 1] + [c];
    RunLast(s, text[..|text| - 1], c);
  }

  lemma First(s: State, text: string)
    requires text != ""
    ensures Run(s, text) == Run(Step(s, text[0]), text[1..])
  {
  }

  lemma Split(s: State, text: string, i: nat)
    requires i <= |text|
    ensures Run(s, text) == Run(Run(s, text[..i]), text[i..])
  {
    assert text == text[..i] + text[i..];
    RunConcat(s, text[..i], text[i..]);
  }

  lemma EndedBlanks(s: State, open: seq<Kind>, b: string)
    requires Ended(s, open) && Blanks(b)
    ensures Ended(Run(s, b), open)
  {
    if b != "" {
      First(s, b);
      EndedStep(s, open, b[0]);
      assert Blanks(b[1..]);
      BlanksRun(open, AfterValue, b[1..]);
    }
  }

  lemma StringRuns(s: string, open: seq<Kind>, e: Expect)
    requires IsString(s) && (ExpectsValue(e) || ExpectsKey(e))
    ensures Run(State(open, e, Idle), s) == EndString(open, e)
  {
    var b := s[1..|s| - 1];
    hide StrRun, Run;
    First(State(open, e, Idle), s);
    Last(State(open, e, InStr(Plain)), s[1..], '"');
    assert s[1..][..|s[1..]| - 1] == b;
    StrRuns(open, e, Plain, b);
  }

  lemma ScalarRuns(s: string, open: seq<Kind>, e: Expect)
    requires (IsString(s) || IsNumber(s) || IsWord(s)) && ExpectsValue(e)
    ensures Ended(Run(State(open, e, Idle), s), open)
  {
    hide Run, StrRun, NumRun;
    if IsString(s) {
      StringRuns(s, open, e);
    } else {
      First(State(open, e, Idle), s);
      if IsNumber(s) {
        NumRuns(open, e, NumStart(s[0]).value, s[1..]);
      } else {
        assert "true"[1..] == "rue" && "false"[1..] == "alse" && "null"[1..] == "ull";
        WordRuns(open, e, s[1..]);
      }
    }
  }

  lemma {:induction false} ValueRuns(s: string, open: seq<Kind>, e: Expect)
    requires IsValue(s) && ExpectsValue(e)
    ensures Ended(Run(State(open, e, Idle), s), open)
    decreases |s|, 0
  {
    if IsString(s) || IsNumber(s) || IsWord(s) {
      ScalarRuns(s, open, e);
    } else {
      var k := if s[0] == '[' then Arr else Obj;
      var inner, first := open + [k], if k == Arr then FirstItem else FirstKey;
      var b := s[1..|s| - 1];
      assert Pop(inner) == open && Top(inner) == k;
      if !Blanks(b) {
        if k == Arr {
          ItemsRun(b, inner, FirstItem);
        } else {
          MembersRun(b, inner, FirstKey);
        }
      } else {
        BlanksRun(inner, first, b);
      }
      hide Run;
      First(State(open, e, Idle), s);
      Last(State(inner, first, Idle), s[1..], s[|s| - 1]);
      assert s[1..][..|s[1..]| - 1] == b;
      CloseRuns(Run(State(inner, first, Idle), b), inner, first, k);
    }
  }

  lemma CloseRuns(t: State, inner: seq<Kind>, first: Expect, k: Kind)
    requires inner != [] && Top(inner) == k && first == (if k == Arr then FirstItem else FirstKey)
    requires t == State(inner, first, Idle) || Ended(t, inner)
    ensures Step(t, if k == Arr then ']' else '}') == Done(Pop(inner))
  {
  }

  lemma {:induction false} PaddedRuns(s: string, open: seq<Kind>, e: Expect)
    requires Padded(s) && ExpectsValue(e)
    ensures Ended(Run(State(open, e, Idle), s), open)
    decreases |s|, 1
  {
    var i: nat, j: nat :| i <= j <= |s| && Blanks(s[..i]) && IsValue(s[i..j]) && Blanks(s[j..]);
    BlanksRun(open, e, s[..i]);
    ValueRuns(s[i..j], open, e);
    hide *;
    SplitTwice(State(open, e, Idle), s, i, j);
    EndedBlanks(Run(State(open, e, Idle), s[i..j]), open, s[j..]);
  }

  lemma {:induction false} ItemsRun(s: string, open: seq<Kind>, e: Expect)
    requires Items(s) && ExpectsValue(e) && open != [] && Top(open) == Arr
    ensures Ended(Run(State(open, e, Idle), s), open)
    decreases |s|, 2
  {
    if Padded(s) {
      PaddedRuns(s, open, e);
    } else {
      var k: nat :| k < |s| && s[k] == ',' && Padded(s[..k]) && Items(s[k + 1..]);
      PaddedRuns(s[..k], open, e);
      ItemsRun(s[k + 1..], open, Value);
      CommaRuns(Run(State(open, e, Idle), s[..k]), open);
      hide Run, Ended;
      Split(State(open, e, Idle), s, k);
      First(Run(State(open, e, Idle), s[..k]), s[k..]);
      assert s[k..][1..] == s[k + 1..];
    }
  }

  lemma CommaRuns(t: State, open: seq<Kind>)
    requires Ended(t, open) && open != []
    ensures Step(t, ',') == State(open, if Top(open) == Arr then Value else NextKey, Idle)
  {
  }

  lemma KeyedRuns(s: string, open: seq<Kind>, e: Expect)
    requires Keyed(s) && ExpectsKey(e)
    ensures Run(State(open, e, Idle), s) == State(open, Colon, Idle)
  {
    var i: nat, j: nat :| i <= j <= |s| && Blanks(s[..i]) && IsString(s[i..j]) && Blanks(s[j..]);
    BlanksRun(open, e, s[..i]);
    StringRuns(s[i..j], open, e);
    BlanksRun(open, Colon, s[j..]);
    hide *;
    SplitTwice(State(open, e, Idle), s, i, j);
    KeyEnds(open, e);
  }

  lemma SplitTwice(s: State, text: string, i: nat, j: nat)
    requires i <= j <= |text|
    ensures Run(s, text) == Run(Run(Run(s, text[..i]), text[i..j]), text[j..])
  {
    hide Run;
    Split(s, text, i);
    Split(Run(s, text[..i]), text[i..], j - i);
    assert text[i..][..j - i] == text[i..j] && text[i..][j - i..] == text[j..];
  }

  lemma {:induction false} MemberRuns(s: string, open: seq<Kind>, e: Expect)
    requires Member(s) && ExpectsKey(e)
    ensures Ended(Run(State(open, e, Idle), s), open)
    decreases |s|, 2
  {
    var k: nat :| k < |s| && s[k] == ':' && Keyed(s[..k]) && Padded(s[k + 1..]);
    KeyedRuns(s[..k], open, e);
    PaddedRuns(s[k + 1..], open, Value);
    hide Run, Ended;
    Split(State(open, e, Idle), s, k);
    First(State(open, Colon, Idle), s[k..]);
    assert s[k..][1..] == s[k + 1..];
  }

  lemma {:induction false} MembersRun(s: string, open: seq<Kind>, e: Expect)
    requires Members(s) && ExpectsKey(e) && open != [] && Top(open) == Obj
    ensures Ended(Run(State(open, e, Idle), s), open)
    decreases |s|, 3
  {
    if Member(s) {
      MemberRuns(s, open, e);
    } else {
      var k: nat :| k < |s| && s[k] == ',' && Member(s[..k]) && Members(s[k + 1..]);
      MemberRuns(s[..k], open, e);
      MembersRun(s[k + 1..], open, NextKey);
      CommaRuns(Run(State(open, e, Idle), s[..k]), open);
      hide Run, Ended;
      Split(State(open, e, Idle), s, k);
      First(Run(State(open, e, Idle), s[..k]), s[k..]);
      assert s[k..][1..] == s[k + 1..];
    }
  }

  // ---------- only documents are accepted ----------

  /** The parser succeeds on the rest of the input from this state. */
  predicate Accepts(s: State, t: string) {
    AtEnd(Run(s, t)) == Done([])
  }

  lemma AcceptsFirst(s: State, t: string)
    requires t != ""
    ensures Accepts(s, t) <==> Accepts(Step(s, t[0]), t[1..])
  {
  }

  lemma FailAccepts(t: string)
    ensures !Accepts(Fail, t)
  {
    RunFails(t);
  }

  /** From behind a number the parser goes on as from behind any value. */
  lemma NumberEnds(open: seq<Kind>, e: Expect, n: NumState, t: string)
    requires Accepts(State(open, e, InNum(n)), t) && (t == "" || NumStep(n, t[0]).None?)
    ensures NumDone(n) && Accepts(Done(open), t)
  {
    if t != "" {
      AcceptsFirst(State(open, e, InNum(n)), t);
      AcceptsFirst(Done(open), t);
      FailAccepts(t[1..]);
    }
  }

  lemma {:induction false} NumInverse(open: seq<Kind>, e: Expect, n: NumState, t: string) returns (j: nat)
    requires Accepts(State(open, e, InNum(n)), t)
    ensures j <= |t| && NumRun(n, t[..j]).Some? && NumDone(NumRun(n, t[..j]).value)
    ensures Accepts(Done(open), t[j..])
    decreases |t|
  {
    if t == "" || NumStep(n, t[0]).None? {
      j := 0;
      NumberEnds(open, e, n, t);
      assert t[0..] == t;
    } else {
      AcceptsFirst(State(open, e, InNum(n)), t);
      hide Accepts;
      var i := NumInverse(open, e, NumStep(n, t[0]).value, t[1..]);
      j := i + 1;
      assert t[..j][1..] == t[1..][..i] && t[j..] == t[1..][i..];
    }
  }

  lemma {:induction false} WordInverse(open: seq<Kind>, e: Expect, rest: string, t: string)
    requires rest != "" && Accepts(State(open, e, InWord(rest)), t)
    ensures rest <= t && Accepts(Done(open), t[|rest|..])
    decreases |rest|
  {
    assert t != "";
    AcceptsFirst(State(open, e, InWord(rest)), t);
    FailAccepts(t[1..]);
    assert t[0] == rest[0];
    if |rest| > 1 {
      hide Accepts;
      WordInverse(open, e, rest[1..], t[1..]);
      assert t[|rest|..] == t[1..][|rest[1..]|..];
      assert rest == [rest[0]] + rest[1..];
    }
  }

  lemma {:induction false} StringInverse(open: seq<Kind>, e: Expect, st: StrState, t: string) returns (j: nat)
    requires Accepts(State(open, e, InStr(st)), t)
    ensures j < |t| && t[j] == '"' && StrRun(st, t[..j]) == Some(Plain)
    ensures Accepts(EndString(open, e), t[j + 1..])
    decreases |t|
  {
    assert t != "";
    AcceptsFirst(State(open, e, InStr(st)), t);
    if st == Plain && t[0] == '"' {
      j := 0;
    } else {
      FailAccepts(t[1..]);
      assert StrStep(st, t[0]).Some?;
      hide Accepts, StrStep;
      var i := StringInverse(open, e, StrStep(st, t[0]).value, t[1..]);
      j := i + 1;
      assert t[..j][1..] == t[1..][..i] && t[j + 1..] == t[1..][i + 1..];
    }
  }

  /** How many blanks the text begins with. */
  function Lead(t: string): (i: nat)
    ensures i <= |t| && Blanks(t[..i]) && (i < |t| ==> !Blank(t[i]))
  {
    if t == "" || !Blank(t[0]) then 0
    else
      var i := 1 + Lead(t[1..]);
      assert t[..i] == [t[0]] + t[1..][..i - 1];
      i
  }

  lemma LeadRuns(open: seq<Kind>, e: Expect, t: string)
    ensures Accepts(State(open, e, Idle), t) <==> Accepts(State(open, e, Idle), t[Lead(t)..])
  {
    BlanksRun(open, e, t[..Lead(t)]);
    Split(State(open, e, Idle), t, Lead(t));
  }

  /** Behind a value in a container: blanks, and a comma or the closing bracket. */
  lemma AfterInverse(open: seq<Kind>, t: string)
    requires open != [] && Accepts(Done(open), t)
    ensures var m := Lead(t);
      && m < |t|
      && (t[m] == ',' || t[m] == if Top(open) == Arr then ']' else '}')
      && var next := if Top(open) == Arr then Value else NextKey;
      Accepts(if t[m] == ',' then State(open, next, Idle) else Done(Pop(open)), t[m + 1..])
  {
    var m := Lead(t);
    LeadRuns(open, AfterValue, t);
    NotAtEnd(open, t[m..]);
    AcceptsFirst(Done(open), t[m..]);
    assert t[m..][1..] == t[m + 1..];
    FailAccepts(t[m + 1..]);
    hide Run, Accepts, Lead;
    AfterSteps(open, t[m]);
  }

  lemma NotAtEnd(open: seq<Kind>, t: string)
    requires open != [] && Accepts(Done(open), t)
    ensures t != ""
  {
  }

  lemma AfterSteps(open: seq<Kind>, c: char)
    requires open != [] && !Blank(c)
    ensures Step(Done(open), c) ==
            if c == ',' then State(open, if Top(open) == Arr then Value else NextKey, Idle)
            else if c == (if Top(open) == Arr then ']' else '}') then Done(Pop(open))
            else Fail
  {
  }

  lemma AfterAt(open: seq<Kind>, t: string, k: nat) returns (at: nat)
    requires open != [] && k <= |t| && Accepts(Done(open), t[k..])
    ensures k <= at < |t| && Blanks(t[k..][..at - k])
    ensures t[at] == ',' ==>
              Accepts(State(open, if Top(open) == Arr then Value else NextKey, Idle), t[at + 1..])
    ensures t[at] != ',' ==>
              t[at] == (if Top(open) == Arr then ']' else '}') && Accepts(Done(Pop(open)), t[at + 1..])
  {
    AfterInverse(open, t[k..]);
    at := k + Lead(t[k..]);
    assert t[k..][at - k + 1..] == t[at + 1..] && t[at] == t[k..][at - k];
  }

  /** A value is read first, unless the array is closed at once. */
  lemma {:induction false} ValueInverse(open: seq<Kind>, e: Expect, t: string) returns (i: nat, j: nat)
    requires ExpectsValue(e) && Accepts(State(open, e, Idle), t)
    requires e == FirstItem ==> Lead(t) < |t| && t[Lead(t)] != ']'
    ensures i <= j <= |t| && Blanks(t[..i]) && IsValue(t[i..j]) && Accepts(Done(open), t[j..])
    decreases |t|, 0
  {
    i := Lead(t);
    LeadRuns(open, e, t);
    assert i < |t|;
    var c, more := t[i], t[i + 1..];
    AcceptsFirst(State(open, e, Idle), t[i..]);
    assert t[i..][1..] == more;
    FailAccepts(more);
    var k := ValueStarts(open, e, c, more);
    j := i + 1 + k;
    assert t[i..j] == [c] + more[..k] && t[j..] == more[k..];
  }

  /** The value that begins with `c`, up to its last character. */
  lemma {:induction false} ValueStarts(open: seq<Kind>, e: Expect, c: char, more: string) returns (k: nat)
    requires ExpectsValue(e) && !Blank(c) && Accepts(Step(State(open, e, Idle), c), more)
    requires e == FirstItem ==> c != ']'
    ensures k <= |more| && IsValue([c] + more[..k]) && Accepts(Done(open), more[k..])
    decreases |more|, 5
  {
    FailAccepts(more);
    if c == '[' || c == '{' {
      k := ContainerStarts(open, e, c, more);
    } else {
      k := ScalarStarts(open, e, c, more);
    }
  }

  lemma ScalarStarts(open: seq<Kind>, e: Expect, c: char, more: string) returns (k: nat)
    requires ExpectsValue(e) && !Blank(c) && Accepts(Step(State(open, e, Idle), c), more)
    requires c != '[' && c != '{' && (e == FirstItem ==> c != ']')
    ensures k <= |more| && IsValue([c] + more[..k]) && Accepts(Done(open), more[k..])
  {
    FailAccepts(more);
    if c == '"' {
      var j := StringInverse(open, e, Plain, more);
      k := j + 1;
      var v := [c] + more[..k];
      assert v[1..|v| - 1] == more[..j] && v[|v| - 1] == more[j];
    } else if NumStart(c).Some? {
      k := NumInverse(open, e, NumStart(c).value, more);
      assert ([c] + more[..k])[1..] == more[..k];
    } else {
      assert WordStart(c).Some?;
      var rest := WordStart(c).value;
      WordInverse(open, e, rest, more);
      k := |rest|;
      assert more[..k] == rest;
      assert IsWord([c] + rest);
    }
  }

  lemma {:induction false} ContainerStarts(open: seq<Kind>, e: Expect, c: char, more: string) returns (k: nat)
    requires ExpectsValue(e) && (c == '[' || c == '{') && Accepts(Step(State(open, e, Idle), c), more)
    ensures k <= |more| && IsValue([c] + more[..k]) && Accepts(Done(open), more[k..])
    decreases |more|, 4
  {
    var kind := if c == '[' then Arr else Obj;
    var inner, first := open + [kind], if c == '[' then FirstItem else FirstKey;
    assert Pop(inner) == open && Top(inner) == kind && Step(State(open, e, Idle), c) == State(inner, first, Idle);
    ValueExpected();
    hide *;
    var closed, m := ClosedAtOnce(inner, first, kind, more);
    var j: nat;
    if closed {
      j := m;
    } else if c == '[' {
      j := ItemsInverse(inner, FirstItem, more);
    } else {
      j := MembersInverse(inner, FirstKey, more);
    }
    k := j + 1;
    ContainerIs(c, more, j);
  }

  lemma ClosedAtOnce(inner: seq<Kind>, first: Expect, kind: Kind, more: string) returns (closed: bool, m: nat)
    requires inner != [] && Top(inner) == kind && first == (if kind == Arr then FirstItem else FirstKey)
    requires Accepts(State(inner, first, Idle), more)
    ensures m == Lead(more) < |more| && Blanks(more[..m])
    ensures closed <==> more[m] == if kind == Arr then ']' else '}'
    ensures closed ==> Accepts(Done(Pop(inner)), more[m + 1..])
    ensures ExpectsValue(FirstItem) && ExpectsKey(FirstKey)
  {
    m := Lead(more);
    LeadRuns(inner, first, more);
    assert m < |more|;
    closed := more[m] == if kind == Arr then ']' else '}';
    AcceptsFirst(State(inner, first, Idle), more[m..]);
    assert more[m..][1..] == more[m + 1..];
  }

  lemma ContainerIs(c: char, more: string, j: nat)
    requires j < |more| && (c == '[' || c == '{') && more[j] == (if c == '[' then ']' else '}')
    requires Blanks(more[..j]) || (if c == '[' then Items(more[..j]) else Members(more[..j]))
    ensures IsValue([c] + more[..j + 1])
  {
    var v := [c] + more[..j + 1];
    assert v[1..|v| - 1] == more[..j] && v[|v| - 1] == more[j];
  }

  lemma {:induction false} ItemsInverse(open: seq<Kind>, e: Expect, t: string) returns (j: nat)
    requires open != [] && Top(open) == Arr && ExpectsValue(e) && Accepts(State(open, e, Idle), t)
    requires e == FirstItem ==> Lead(t) < |t| && t[Lead(t)] != ']'
    ensures j < |t| && t[j] == ']' && Items(t[..j]) && Accepts(Done(Pop(open)), t[j + 1..])
    decreases |t|, 1
  {
    hide *;
    var i, k := ValueInverse(open, e, t);
    var at := AfterAt(open, t, k);
    PaddedIs(t, i, k, at);
    if t[at] == ',' {
      ValueExpected();
      var n := ItemsInverse(open, Value, t[at + 1..]);
      j := at + 1 + n;
      ItemsJoin(t, at, n);
      assert t[j] == t[at + 1..][n] && t[j + 1..] == t[at + 1..][n + 1..];
    } else {
      j := at;
      ItemsOne(t[..at]);
    }
  }

  lemma ValueExpected()
    ensures ExpectsValue(Value) && ExpectsKey(NextKey)
  {
  }

  lemma ItemsOne(b: string)
    requires Padded(b)
    ensures Items(b)
  {
  }

  lemma ItemsJoin(t: string, at: nat, n: nat)
    requires at < |t| && n <= |t[at + 1..]| && t[at] == ',' && Padded(t[..at]) && Items(t[at + 1..][..n])
    ensures Items(t[..at + 1 + n])
  {
    var b := t[..at + 1 + n];
    assert b[..at] == t[..at] && b[at + 1..] == t[at + 1..][..n] && b[at] == ',';
  }

  lemma PaddedIs(t: string, i: nat, k: nat, at: nat)
    requires i <= k <= at <= |t| && Blanks(t[..i]) && IsValue(t[i..k]) && Blanks(t[k..][..at - k])
    ensures Padded(t[..at])
  {
    var b := t[..at];
    assert b[..i] == t[..i] && b[i..k] == t[i..k] && b[k..] == t[k..][..at - k];
  }

  /** A key and its colon. */
  lemma KeyInverse(open: seq<Kind>, e: Expect, t: string) returns (k: nat)
    requires ExpectsKey(e) && Accepts(State(open, e, Idle), t)
    requires e == FirstKey ==> Lead(t) < |t| && t[Lead(t)] != '}'
    ensures k < |t| && t[k] == ':' && Keyed(t[..k]) && Accepts(State(open, Value, Idle), t[k + 1..])
  {
    hide *;
    var i := Lead(t);
    QuoteFirst(open, e, t);
    var n := StringInverse(open, e, Plain, t[i + 1..]);
    var j := i + n + 2;
    KeyEnds(open, e);
    assert t[i + 1..][n + 1..] == t[j..] && t[j - 1] == t[i + 1..][n];
    ColonFirst(open, t[j..]);
    k := j + Lead(t[j..]);
    assert t[j..][k - j + 1..] == t[k + 1..] && t[k] == t[j..][k - j];
    KeyedIs(t, i, j, k);
  }

  lemma KeyEnds(open: seq<Kind>, e: Expect)
    requires ExpectsKey(e)
    ensures EndString(open, e) == State(open, Colon, Idle)
  {
  }

  lemma QuoteFirst(open: seq<Kind>, e: Expect, t: string)
    requires ExpectsKey(e) && Accepts(State(open, e, Idle), t)
    requires e == FirstKey ==> Lead(t) < |t| && t[Lead(t)] != '}'
    ensures var i := Lead(t);
      i < |t| && t[i] == '"' && Accepts(State(open, e, InStr(Plain)), t[i + 1..])
  {
    var i := Lead(t);
    LeadRuns(open, e, t);
    assert i < |t|;
    AcceptsFirst(State(open, e, Idle), t[i..]);
    assert t[i..][1..] == t[i + 1..];
    FailAccepts(t[i + 1..]);
  }

  lemma ColonFirst(open: seq<Kind>, t: string)
    requires Accepts(State(open, Colon, Idle), t)
    ensures var i := Lead(t);
      i < |t| && t[i] == ':' && Accepts(State(open, Value, Idle), t[i + 1..])
  {
    var i, s := Lead(t), State(open, Colon, Idle);
    LeadRuns(open, Colon, t);
    ColonSteps(open, t);
    hide *;
    if i < |t| {
      AcceptsFirst(s, t[i..]);
      assert t[i..][1..] == t[i + 1..];
      FailAccepts(t[i + 1..]);
    }
  }

  lemma ColonSteps(open: seq<Kind>, t: string)
    ensures var i, s := Lead(t), State(open, Colon, Idle);
      && !Accepts(s, "") && i <= |t| && (i == |t| ==> t[i..] == "")
      && (i < |t| ==> Step(s, t[i]) == if t[i] == ':' then State(open, Value, Idle) else Fail)
  {
  }

  lemma KeyedIs(t: string, i: nat, j: nat, k: nat)
    requires i + 2 <= j <= k <= |t| && Blanks(t[..i]) && t[i] == '"' && t[j - 1] == '"'
    requires StrRun(Plain, t[i + 1..][..j - i - 2]) == Some(Plain) && Blanks(t[j..][..k - j])
    ensures Keyed(t[..k])
  {
    var b, q := t[..k], t[i..j];
    assert b[..i] == t[..i] && b[j..] == t[j..][..k - j] && b[i..j] == q;
    Inside(t, i, j);
    assert q[0] == '"' && q[|q| - 1] == '"';
  }

  lemma Inside(t: string, i: nat, j: nat)
    requires i + 2 <= j <= |t|
    ensures t[i..j][1..j - i - 1] == t[i + 1..][..j - i - 2]
  {
    var a, b := t[i..j][1..j - i - 1], t[i + 1..][..j - i - 2];
    assert |a| == |b| && forall k :: 0 <= k < |a| ==> a[k] == t[i + 1 + k] == b[k];
  }

  lemma {:induction false} MembersInverse(open: seq<Kind>, e: Expect, t: string) returns (j: nat)
    requires open != [] && Top(open) == Obj && ExpectsKey(e) && Accepts(State(open, e, Idle), t)
    requires e == FirstKey ==> Lead(t) < |t| && t[Lead(t)] != '}'
    ensures j < |t| && t[j] == '}' && Members(t[..j]) && Accepts(Done(Pop(open)), t[j + 1..])
    decreases |t|, 2
  {
    hide *;
    ValueExpected();
    var k := KeyInverse(open, e, t);
    var u := t[k + 1..];
    var i, l := ValueInverse(open, Value, u);
    var p := AfterAt(open, u, l);
    var at := k + 1 + p;
    PaddedIs(u, i, l, p);
    DroppedTwice(t, k + 1, p);
    MemberIs(t, k, at);
    if t[at] == ',' {
      var n := MembersInverse(open, NextKey, t[at + 1..]);
      j := at + 1 + n;
      MembersJoin(t, at, n);
      assert t[j] == t[at + 1..][n] && t[j + 1..] == t[at + 1..][n + 1..];
    } else {
      j := at;
      MembersOne(t[..at]);
    }
  }

  lemma DroppedTwice(t: string, k: nat, p: nat)
    requires k <= |t| && p < |t[k..]|
    ensures t[k..][p + 1..] == t[k + p + 1..] && t[k..][p] == t[k + p]
  {
  }

  lemma MembersOne(b: string)
    requires Member(b)
    ensures Members(b)
  {
  }

  lemma MembersJoin(t: string, at: nat, n: nat)
    requires at < |t| && n <= |t[at + 1..]| && t[at] == ',' && Member(t[..at]) && Members(t[at + 1..][..n])
    ensures Members(t[..at + 1 + n])
  {
    var b := t[..at + 1 + n];
    assert b[..at] == t[..at] && b[at + 1..] == t[at + 1..][..n] && b[at] == ',';
  }

  lemma MemberIs(t: string, k: nat, at: nat)
    requires k < at <= |t| && t[k] == ':' && Keyed(t[..k]) && Padded(t[k + 1..][..at - k - 1])
    ensures Member(t[..at])
  {
    var b := t[..at];
    assert b[..k] == t[..k] && b[k + 1..] == t[k + 1..][..at - k - 1] && b[k] == ':';
  }

  /** The parser accepts exactly the documents of the grammar. */
  lemma ParserIsGrammar(t: string)
    ensures CanParse(t) <==> Document(t)
  {
    if CanParse(t) {
      var i, j := ValueInverse([], Value, t);
      LeadRuns([], AfterValue, t[j..]);
      var m := Lead(t[j..]);
      if m < |t[j..]| {
        AcceptsFirst(Done([]), t[j..][m..]);
        FailAccepts(t[j..][m..][1..]);
      }
      PaddedIs(t, i, j, |t|);
      assert t[..|t|] == t;
    } else if Document(t) {
      PaddedRuns(t, [], Value);
    }
  }
}
