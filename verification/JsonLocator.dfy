/** The listener that follows the JSON parser and keeps the containers and keys that are open. */
module JsonLocator {
  import opened JsonText
  import opened JsonErrors

  // ---------- the listener ----------

  datatype Element = ObjectOpen | KeyOpen | ArrayOpen

  /** The open containers, with the key whose value is pending behind every object that waits for one. */
  function StackFor(open: seq<Kind>, pending: bool): seq<Element> {
    if open == [] then []
    else
      StackFor(Pop(open), true) +
      if Top(open) == Arr then [ArrayOpen] else if pending then [ObjectOpen, KeyOpen] else [ObjectOpen]
  }

  function StackOf(s: State): seq<Element>
    requires s.State?
  {
    StackFor(s.open, s.next == Value || s.next == Colon)
  }

  /** What remains once a value has been completed. */
  function Closed(stack: seq<Element>): seq<Element> {
    if stack != [] && stack[|stack| - 1] == KeyOpen then stack[..|stack| - 1] else stack
  }

  lemma ClosedStack(open: seq<Kind>, pending: bool)
    ensures Closed(StackFor(open, pending)) == StackFor(open, false)
  {
    if open != [] {
      var outer := StackFor(Pop(open), true);
      assert outer + [ObjectOpen, KeyOpen] == outer + [ObjectOpen] + [KeyOpen];
    }
  }

  lemma PoppedStack(open: seq<Kind>)
    requires open != []
    ensures var outer, all := StackFor(Pop(open), true), StackFor(open, false);
      && all == outer + [if Top(open) == Arr then ArrayOpen else ObjectOpen]
      && all[..|all| - 1] == outer && Closed(outer) == StackFor(Pop(open), false)
  {
    ClosedStack(Pop(open), true);
  }

  lemma PushedStack(open: seq<Kind>, k: Kind)
    ensures StackFor(open + [k], false) == StackFor(open, true) + [if k == Arr then ArrayOpen else ObjectOpen]
    ensures open != [] && Top(open) == Obj ==> StackFor(open, true) == StackFor(open, false) + [KeyOpen]
    ensures open == [] || Top(open) == Arr ==> StackFor(open, true) == StackFor(open, false)
  {
    assert Pop(open + [k]) == open;
    if open != [] {
      var outer := StackFor(Pop(open), true);
      assert outer + [ObjectOpen, KeyOpen] == outer + [ObjectOpen] + [KeyOpen];
    }
  }

  lemma Opens(open: seq<Kind>, e: Expect, c: char, k: Kind)
    requires ExpectsValue(e) && !Blank(c) && Good(State(open, e, Idle)) && c == if k == Arr then '[' else '{'
    ensures var t := StepBetween(open, e, c);
      t.State? && StackOf(t) == StackOf(State(open, e, Idle)) + [if k == Arr then ArrayOpen else ObjectOpen]
  {
    hide StackFor;
    PushedStack(open, k);
  }

  lemma Closes(open: seq<Kind>, e: Expect, c: char)
    requires Good(State(open, e, Idle)) && StepBetween(open, e, c).State? && !Blank(c)
    requires (c == '}' && (e == FirstKey || e == AfterValue)) || (c == ']' && (e == FirstItem || e == AfterValue))
    ensures var was := StackOf(State(open, e, Idle));
      && was != [] && was[|was| - 1] == (if c == ']' then ArrayOpen else ObjectOpen)
      && StackOf(StepBetween(open, e, c)) == Closed(was[..|was| - 1])
  {
    hide StackFor;
    assert open != [] && StepBetween(open, e, c) == Done(Pop(open)) && Top(open) == if c == ']' then Arr else Obj;
    PoppedStack(open);
  }

  /** All other characters between tokens leave the containers as they are. */
  lemma NoEvent(open: seq<Kind>, e: Expect, c: char)
    requires Good(State(open, e, Idle)) && StepBetween(open, e, c).State?
    requires Blank(c) || !(
      || (ExpectsValue(e) && (c == '{' || c == '['))
      || (c == '}' && (e == FirstKey || e == AfterValue))
      || (c == ']' && (e == FirstItem || e == AfterValue)))
    ensures StackOf(StepBetween(open, e, c)) == StackOf(State(open, e, Idle))
  {
    hide StackFor;
    PushedStack(open, Arr);
  }

  class JsonErrorLocator {
    var position: nat
    var foundError: bool
    var stack: seq<Element>

    constructor ()
      ensures stack == [] && position == 0 && !foundError
    {
      position, foundError, stack := 0, false, [];
    }

    /** The parser tells how many characters it has read, the offending one or the end of the input among them. */
    method ParseError(charsRead: nat)
      requires charsRead > 0
      modifies this
      ensures position == charsRead - 1 && foundError && stack == old(stack)
    {
      position := charsRead - 1;
      foundError := true;
    }

    method CloseValue()
      modifies this`stack
      ensures stack == Closed(old(stack))
    {
      if stack != [] && stack[|stack| - 1] == KeyOpen {
        stack := stack[..|stack| - 1];
      }
    }

    /** null, boolean, a number or a string as a value. */
    method Scalar()
      modifies this`stack
      ensures stack == Closed(old(stack))
    {
      CloseValue();
    }

    method StartObject()
      modifies this`stack
      ensures stack == old(stack) + [ObjectOpen]
    {
      stack := stack + [ObjectOpen];
    }

    method EndObject()
      requires stack != [] && stack[|stack| - 1] == ObjectOpen
      modifies this`stack
      ensures stack == Closed(old(stack)[..|old(stack)| - 1])
    {
      stack := stack[..|stack| - 1];
      CloseValue();
    }

    method Key()
      modifies this`stack
      ensures stack == old(stack) + [KeyOpen]
    {
      stack := stack + [KeyOpen];
    }

    method StartArray()
      modifies this`stack
      ensures stack == old(stack) + [ArrayOpen]
    {
      stack := stack + [ArrayOpen];
    }

    method EndArray()
      requires stack != [] && stack[|stack| - 1] == ArrayOpen
      modifies this`stack
      ensures stack == Closed(old(stack)[..|old(stack)| - 1])
    {
      stack := stack[..|stack| - 1];
      CloseValue();
    }

    /** A character between tokens: the brackets are events. */
    method FeedBetween(open: seq<Kind>, e: Expect, c: char) returns (t: State)
      requires Good(State(open, e, Idle)) && stack == StackOf(State(open, e, Idle))
      modifies this`stack
      ensures t == StepBetween(open, e, c)
      ensures stack == if t.State? then StackOf(t) else old(stack)
    {
      t := StepBetween(open, e, c);
      hide *;
      if t.Fail? {
        return;
      }
      if Blank(c) {
        NoEvent(open, e, c);
        return;
      }
      if ExpectsValue(e) && c == '{' {
        Opens(open, e, c, Obj);
        StartObject();
      } else if ExpectsValue(e) && c == '[' {
        Opens(open, e, c, Arr);
        StartArray();
      } else if (e == FirstKey || e == AfterValue) && c == '}' {
        Closes(open, e, c);
        EndObject();
      } else if (e == FirstItem || e == AfterValue) && c == ']' {
        Closes(open, e, c);
        EndArray();
      } else {
        NoEvent(open, e, c);
      }
    }

    /** The parser takes one character, and tells of each token that is thereby completed. */
    method Feed(s: State, c: char) returns (t: State)
      requires s.State? && Good(s) && stack == StackOf(s)
      modifies this`stack
      ensures t == Step(s, c)
      ensures stack == StackOf(if t.State? then t else AtEnd(s))
    {
      hide StackFor, StrStep;
      ClosedStack(s.open, s.next == Value || s.next == Colon);
      match s.lex
      case Idle =>
        t := FeedBetween(s.open, s.next, c);
      case InStr(st) =>
        t := Step(s, c);
        if st == Plain && c == '"' {
          if ExpectsKey(s.next) {
            PushedStack(s.open, Arr);
            Key();
          } else {
            Scalar();
          }
        }
      case InNum(n) =>
        t := Step(s, c);
        if NumStep(n, c).None? && NumDone(n) {
          Scalar();
          t := FeedBetween(s.open, AfterValue, c);
        }
      case InWord(rest) =>
        t := Step(s, c);
        if |rest| == 1 && c == rest[0] {
          Scalar();
        }
    }

    /** The event stack equals the open containers and the pending keys when the parser stops, whatever the
        text; and the error is told behind the token that is read last. */
    method SaxParse(input: string) returns (s: State)
      requires stack == [] && !foundError
      modifies this
      ensures s == Run(START, input[..Taken(START, input)]) && s.State? && stack == StackOf(AtEnd(s))
      ensures foundError <==> !CanParse(input)
      ensures foundError ==> position == ErrorAt(input)
    {
      hide *;
      s := START;
      var i := 0;
      StartStack();
      NothingTaken(input);
      while i < |input|
        invariant 0 <= i <= |input| && !foundError
        invariant s == Run(START, input[..i]) && s.State? && Good(s) && stack == StackOf(s)
        invariant Taken(START, input) == i + Taken(s, input[i..])
      {
        TakenStep(input, i, s);
        StepGood(s, input[i]);
        var t := Feed(s, input[i]);
        if t.Fail? {
          ParseError(ErrorAt(input) + 1);
          return;
        }
        s := t;
        i := i + 1;
      }
      AllTaken(input);
      NumberStack(s);
      if s.lex.InNum? && NumDone(s.lex.num) {
        Scalar();
      }
      if AtEnd(s) != Done([]) {
        ParseError(|input| + 1);
      }
    }
  }

  lemma StartStack()
    ensures START.State? && Good(START) && StackOf(START) == []
  {
  }

  /** At the end of the input a number is a value. */
  lemma NumberStack(s: State)
    requires s.State?
    ensures StackOf(AtEnd(s)) == if s.lex.InNum? && NumDone(s.lex.num) then Closed(StackOf(s)) else StackOf(s)
  {
    ClosedStack(s.open, s.next == Value || s.next == Colon);
  }
}
