/** Messages and message differences of chat.h and chat.cpp.

    A server sends a growing message as a list of differences; a client rebuilds the
    message from them. The two halves are connected by `ApplyAll`. */
module ChatDiff {
  import opened Text

  datatype ToolCall = ToolCall(name: string, arguments: string, id: string)

  /** The fields of common_chat_msg that a difference can carry. */
  datatype Msg = Msg(reasoning: string, content: string, toolCalls: seq<ToolCall>) {
    predicate IsEmpty() {
      reasoning == "" && content == "" && toolCalls == []
    }
  }

  const EMPTY_MSG := Msg("", "", [])
  const EMPTY_CALL := ToolCall("", "", "")

  /** `index == None` stands for std::string::npos. */
  datatype Diff = Diff(reasoningDelta: string, contentDelta: string, index: Option<nat>, call: ToolCall)

  const NO_DIFF := Diff("", "", None, EMPTY_CALL)

  datatype Result<+T> = Ok(value: T) | RuntimeError

  // ---------- the server's half ----------

  /** string_diff; the runtime_error is the `RuntimeError` case. */
  function StringDiff(last: string, current: string): (r: Result<string>)
    ensures r.Ok? <==> last <= current || current <= last
    ensures last <= current ==> r.value == current[|last|..]
  {
    if last == "" then Ok(current)
    else if !StartsWith(current, last) then
      if StartsWith(last, current) then Ok("") else RuntimeError
    else Ok(current[|last|..])
  }

  /** What the first two blocks of compute_diffs add for one text field. */
  function TextDiffs(prv: string, new_: string, wrap: string -> Diff): Result<seq<Diff>> {
    if prv == new_ then Ok([])
    else
      var d := StringDiff(prv, new_);
      if d.RuntimeError? then RuntimeError else Ok([wrap(d.value)])
  }

  /** What compute_diffs adds for the last tool call known so far. */
  function LastCallDiffs(prv: ToolCall, new_: ToolCall, idx: nat): Result<seq<Diff>> {
    if prv.name != new_.name then RuntimeError
    else
      var d := StringDiff(prv.arguments, new_.arguments);
      if d.RuntimeError? then RuntimeError
      else if d.value == "" && prv.id == new_.id then Ok([])
      else Ok([NO_DIFF.(index := Some(idx), call :=
        if prv.id != new_.id then ToolCall(new_.name, d.value, new_.id) else ToolCall("", d.value, ""))])
  }

  function NewCallDiffs(calls: seq<ToolCall>, from: nat): (r: seq<Diff>)
    requires from <= |calls|
    decreases |calls| - from
  {
    if from == |calls| then []
    else [NO_DIFF.(index := Some(from), call := calls[from])] + NewCallDiffs(calls, from + 1)
  }

  function ReasoningDiff(d: string): Diff { NO_DIFF.(reasoningDelta := d) }

  function ContentDiff(d: string): Diff { NO_DIFF.(contentDelta := d) }

  function ComputeDiffs(prv: Msg, new_: Msg): Result<seq<Diff>> {
    var r := TextDiffs(prv.reasoning, new_.reasoning, ReasoningDiff);
    var c := TextDiffs(prv.content, new_.content, ContentDiff);
    var n := |prv.toolCalls|;
    if r.RuntimeError? || c.RuntimeError? || |new_.toolCalls| < n then RuntimeError
    else
      var l := if n == 0 then Ok([]) else LastCallDiffs(prv.toolCalls[n - 1], new_.toolCalls[n - 1], n - 1);
      if l.RuntimeError? then RuntimeError
      else Ok(r.value + c.value + l.value + NewCallDiffs(new_.toolCalls, n))
  }

  /** compute_diffs, appending to `diffs` step by step and throwing part-way. */
  method ComputeDiffsImpl(prv: Msg, new_: Msg) returns (res: Result<seq<Diff>>)
    ensures res == ComputeDiffs(prv, new_)
  {
    var diffs: seq<Diff> := [];
    if prv.reasoning != new_.reasoning {
      var d := StringDiff(prv.reasoning, new_.reasoning);
      if d.RuntimeError? { return RuntimeError; }
      diffs := diffs + [NO_DIFF.(reasoningDelta := d.value)];
    }
    ghost var r := TextDiffs(prv.reasoning, new_.reasoning, ReasoningDiff).value;
    assert diffs == r;
    if prv.content != new_.content {
      var d := StringDiff(prv.content, new_.content);
      if d.RuntimeError? { return RuntimeError; }
      diffs := diffs + [NO_DIFF.(contentDelta := d.value)];
    }
    ghost var c := TextDiffs(prv.content, new_.content, ContentDiff).value;
    assert diffs == r + c;
    if |new_.toolCalls| < |prv.toolCalls| { return RuntimeError; }
    ghost var l: seq<Diff> := [];
    if prv.toolCalls != [] {
      var idx := |prv.toolCalls| - 1;
      var pref, newf := prv.toolCalls[idx], new_.toolCalls[idx];
      if pref.name != newf.name { return RuntimeError; }
      var argsDiff := StringDiff(pref.arguments, newf.arguments);
      if argsDiff.RuntimeError? { return RuntimeError; }
      if argsDiff.value != "" || pref.id != newf.id {
        var delta := EMPTY_CALL;
        if pref.id != newf.id {
          delta := delta.(id := newf.id, name := newf.name);
        }
        delta := delta.(arguments := argsDiff.value);
        diffs := diffs + [NO_DIFF.(index := Some(idx), call := delta)];
        l := [NO_DIFF.(index := Some(idx), call := delta)];
      }
      assert LastCallDiffs(pref, newf, idx) == Ok(l);
    }
    assert diffs == r + c + l;
    ghost var head, n := diffs, |prv.toolCalls|;
    var idx := |prv.toolCalls|;
    while idx < |new_.toolCalls|
      invariant n <= idx <= |new_.toolCalls|
      invariant head + NewCallDiffs(new_.toolCalls, n) == diffs + NewCallDiffs(new_.toolCalls, idx)
    {
      diffs := diffs + [NO_DIFF.(index := Some(idx), call := new_.toolCalls[idx])];
      idx := idx + 1;
    }
    assert head + NewCallDiffs(new_.toolCalls, n) == diffs;
    res := Ok(diffs);
  }

  // ---------- the client's half ----------

  /** A client of the streamed JSON: an index one past the end opens a call, an index already
      known appends to it, and an empty id or name is not sent at all. */
  function Apply(m: Msg, d: Diff): Msg {
    var m1 := m.(reasoning := m.reasoning + d.reasoningDelta, content := m.content + d.contentDelta);
    match d.index
    case None => m1
    case Some(i) =>
      if i == |m.toolCalls| then m1.(toolCalls := m.toolCalls + [d.call])
      else if i > |m.toolCalls| then m1
      else m1.(toolCalls := m.toolCalls[i := Merged(m.toolCalls[i], d.call)])
  }

  /** A call to which a difference is added. */
  function Merged(old_: ToolCall, d: ToolCall): ToolCall {
    ToolCall(if d.name != "" then d.name else old_.name,
             old_.arguments + d.arguments,
             if d.id != "" then d.id else old_.id)
  }

  function ApplyAll(m: Msg, ds: seq<Diff>): Msg
    decreases |ds|
  {
    if ds == [] then m else ApplyAll(Apply(m, ds[0]), ds[1..])
  }

  lemma {:induction false} ApplyAllConcat(m: Msg, a: seq<Diff>, b: seq<Diff>)
    ensures ApplyAll(m, a + b) == ApplyAll(ApplyAll(m, a), b)
    decreases |a|
  {
    if a == [] {
      assert a + b == b;
    } else {
      assert (a + b)[1..] == a[1..] + b;
      ApplyAllConcat(Apply(m, a[0]), a[1..], b);
    }
  }

  // ---------- the two halves fit ----------

  /** The last tool call known to the client may still grow and may still be given an id. */
  predicate CallExtends(prv: ToolCall, new_: ToolCall) {
    prv.name == new_.name && prv.arguments <= new_.arguments && (prv.id == new_.id || new_.id != "")
  }

  /** `new_` continues `prv`: texts grow, finished calls stay, the last call only grows. */
  predicate Extends(prv: Msg, new_: Msg) {
    var n := |prv.toolCalls|;
    && prv.reasoning <= new_.reasoning
    && prv.content <= new_.content
    && n <= |new_.toolCalls|
    && (n > 0 ==> prv.toolCalls[..n - 1] == new_.toolCalls[..n - 1]
                  && CallExtends(prv.toolCalls[n - 1], new_.toolCalls[n - 1]))
  }

  /** compute_diffs throws exactly when some text neither grew nor shrank, when calls
      disappeared, or when the last known call changed its name. */
  lemma ComputeDiffsSucceeds(prv: Msg, new_: Msg)
    ensures ComputeDiffs(prv, new_).Ok? <==>
            && (prv.reasoning <= new_.reasoning || new_.reasoning <= prv.reasoning)
            && (prv.content <= new_.content || new_.content <= prv.content)
            && |prv.toolCalls| <= |new_.toolCalls|
            && (prv.toolCalls != [] ==>
                  var p, q := prv.toolCalls[|prv.toolCalls| - 1], new_.toolCalls[|prv.toolCalls| - 1];
                  p.name == q.name && (p.arguments <= q.arguments || q.arguments <= p.arguments))
  {
  }

  lemma {:induction false} ApplyNewCalls(m: Msg, calls: seq<ToolCall>)
    requires m.toolCalls <= calls
    ensures ApplyAll(m, NewCallDiffs(calls, |m.toolCalls|)) == m.(toolCalls := calls)
    decreases |calls| - |m.toolCalls|
  {
    var from := |m.toolCalls|;
    if from < |calls| {
      var ds := NewCallDiffs(calls, from);
      var m' := Apply(m, ds[0]);
      assert m'.reasoning == m.reasoning && m'.content == m.content;
      assert m'.toolCalls == calls[..from + 1];
      ApplyNewCalls(m', calls);
      assert ds[1..] == NewCallDiffs(calls, from + 1);
    }
  }

  /** What a client holds after the differences, whatever the two messages are. */
  function Rebuilt(prv: Msg, new_: Msg): Msg
    requires ComputeDiffs(prv, new_).Ok?
  {
    ApplyAll(prv, ComputeDiffs(prv, new_).value)
  }

  /** The rebuilt text: the new one, or the old one when the text shrank. */
  function Longer(prv: string, new_: string): string {
    if prv <= new_ then new_ else prv
  }

  lemma ReasoningApplied(m: Msg, new_: string)
    requires TextDiffs(m.reasoning, new_, ReasoningDiff).Ok?
    ensures ApplyAll(m, TextDiffs(m.reasoning, new_, ReasoningDiff).value)
            == m.(reasoning := Longer(m.reasoning, new_))
  {
    var ds := TextDiffs(m.reasoning, new_, ReasoningDiff).value;
    if ds != [] {
      OneApplied(m, ds[0]);
    }
  }

  lemma ContentApplied(m: Msg, new_: string)
    requires TextDiffs(m.content, new_, ContentDiff).Ok?
    ensures ApplyAll(m, TextDiffs(m.content, new_, ContentDiff).value)
            == m.(content := Longer(m.content, new_))
  {
    var ds := TextDiffs(m.content, new_, ContentDiff).value;
    if ds != [] {
      OneApplied(m, ds[0]);
    }
  }

  /** The last call as the client sees it after the differences. */
  function GrownCall(p: ToolCall, q: ToolCall): ToolCall {
    ToolCall(p.name, Longer(p.arguments, q.arguments), if q.id != "" then q.id else p.id)
  }

  lemma LastCallApplied(m: Msg, q: ToolCall)
    requires m.toolCalls != []
    requires LastCallDiffs(m.toolCalls[|m.toolCalls| - 1], q, |m.toolCalls| - 1).Ok?
    ensures var n := |m.toolCalls|;
            ApplyAll(m, LastCallDiffs(m.toolCalls[n - 1], q, n - 1).value)
            == m.(toolCalls := m.toolCalls[n - 1 := GrownCall(m.toolCalls[n - 1], q)])
  {
    var n := |m.toolCalls|;
    var p := m.toolCalls[n - 1];
    var ds := LastCallDiffs(p, q, n - 1).value;
    var c := LastCallGrows(p, q, n - 1);
    hide *;
    if ds == [] {
      NoneApplied(m);
      assert m.toolCalls[n - 1 := p] == m.toolCalls;
    } else {
      OneApplied(m, CallDiff(n - 1, c));
      CallApplied(m, n - 1, c);
    }
  }

  /** A difference of one call. */
  function CallDiff(i: nat, c: ToolCall): Diff {
    NO_DIFF.(index := Some(i), call := c)
  }

  lemma LastCallGrows(p: ToolCall, q: ToolCall, i: nat) returns (c: ToolCall)
    requires LastCallDiffs(p, q, i).Ok?
    ensures var ds := LastCallDiffs(p, q, i).value;
            if ds == [] then GrownCall(p, q) == p else ds == [CallDiff(i, c)] && GrownCall(p, q) == Merged(p, c)
  {
    LongerIs(p.arguments, q.arguments);
    hide StringDiff, Longer;
    var ds := LastCallDiffs(p, q, i).value;
    c := if ds == [] then q else ds[0].call;
  }

  lemma CallApplied(m: Msg, i: nat, c: ToolCall)
    requires i < |m.toolCalls|
    ensures Apply(m, CallDiff(i, c))
            == m.(toolCalls := m.toolCalls[i := Merged(m.toolCalls[i], c)])
  {
    assert m.reasoning + "" == m.reasoning && m.content + "" == m.content;
  }

  lemma LongerIs(last: string, current: string)
    requires StringDiff(last, current).Ok?
    ensures last + StringDiff(last, current).value == Longer(last, current)
  {
  }

  lemma NoneApplied(m: Msg)
    ensures ApplyAll(m, []) == m
  {
  }

  lemma OneApplied(m: Msg, d: Diff)
    ensures ApplyAll(m, [d]) == Apply(m, d)
  {
    hide Apply;
    assert [d][1..] == [];
  }

  /** The tool calls a client holds after the differences. */
  function RebuiltCalls(old_: seq<ToolCall>, new_: seq<ToolCall>): seq<ToolCall>
    requires |old_| <= |new_|
  {
    var n := |old_|;
    if n == 0 then new_ else old_[n - 1 := GrownCall(old_[n - 1], new_[n - 1])] + new_[n..]
  }

  /** Whatever the two messages are, the client ends with the longer of each pair of texts. */
  lemma RebuiltIs(prv: Msg, new_: Msg)
    requires ComputeDiffs(prv, new_).Ok?
    ensures Rebuilt(prv, new_) == Msg(Longer(prv.reasoning, new_.reasoning), Longer(prv.content, new_.content),
                                      RebuiltCalls(prv.toolCalls, new_.toolCalls))
  {
    hide Apply, GrownCall, NewCallDiffs;
    var n := |prv.toolCalls|;
    var r := TextDiffs(prv.reasoning, new_.reasoning, ReasoningDiff).value;
    var c := TextDiffs(prv.content, new_.content, ContentDiff).value;
    var l := if n == 0 then [] else LastCallDiffs(prv.toolCalls[n - 1], new_.toolCalls[n - 1], n - 1).value;
    var calls := NewCallDiffs(new_.toolCalls, n);
    ApplyAllConcat(prv, r + c + l, calls);
    ApplyAllConcat(prv, r + c, l);
    ApplyAllConcat(prv, r, c);
    ReasoningApplied(prv, new_.reasoning);
    var m1 := ApplyAll(prv, r);
    ContentApplied(m1, new_.content);
    var m2 := ApplyAll(m1, c);
    if n > 0 {
      LastCallApplied(m2, new_.toolCalls[n - 1]);
    }
    var m3 := ApplyAll(m2, l);
    var all := RebuiltCalls(prv.toolCalls, new_.toolCalls);
    assert all[n..] == new_.toolCalls[n..];
    SameNewCalls(new_.toolCalls, all, n);
    ApplyNewCalls(m3, all);
  }

  lemma {:induction false} SameNewCalls(a: seq<ToolCall>, b: seq<ToolCall>, from: nat)
    requires from <= |a| == |b| && a[from..] == b[from..]
    ensures NewCallDiffs(a, from) == NewCallDiffs(b, from)
    decreases |a| - from
  {
    if from < |a| {
      assert a[from] == a[from..][0] == b[from];
      assert a[from + 1..] == a[from..][1..] == b[from + 1..];
      SameNewCalls(a, b, from + 1);
    }
  }

  /** Differences conserve the message: whenever they can be computed, the client ends with the
      new message if and only if it continues the old one. */
  lemma DiffsConserve(prv: Msg, new_: Msg)
    ensures ComputeDiffs(prv, new_).Ok? && Rebuilt(prv, new_) == new_ <==> Extends(prv, new_)
  {
    ComputeDiffsSucceeds(prv, new_);
    if ComputeDiffs(prv, new_).Ok? {
      RebuiltIs(prv, new_);
      var n := |prv.toolCalls|;
      if n > 0 {
        var p, q := prv.toolCalls, new_.toolCalls;
        var rebuilt := RebuiltCalls(p, q);
        assert rebuilt[..n - 1] == p[..n - 1];
        assert rebuilt[n - 1] == GrownCall(p[n - 1], q[n - 1]);
        assert q == q[..n - 1] + [q[n - 1]] + q[n..];
        assert rebuilt == rebuilt[..n - 1] + [rebuilt[n - 1]] + q[n..];
        assert rebuilt == q <==> rebuilt[..n - 1] == q[..n - 1] && rebuilt[n - 1] == q[n - 1];
      }
    }
  }

  // ---------- chains of messages ----------

  /** The differences sent along a chain of messages, oldest first. */
  function ChainDiffs(first: Msg, rest: seq<Msg>): Result<seq<Diff>>
    decreases |rest|
  {
    if rest == [] then Ok([])
    else
      var d := ComputeDiffs(first, rest[0]);
      var ds := ChainDiffs(rest[0], rest[1..]);
      if d.RuntimeError? || ds.RuntimeError? then RuntimeError else Ok(d.value + ds.value)
  }

  predicate Chain(first: Msg, rest: seq<Msg>)
    decreases |rest|
  {
    rest == [] || (Extends(first, rest[0]) && Chain(rest[0], rest[1..]))
  }

  /** Over a chain in which every message continues the one before, no difference fails and the
      client that appends them all holds the last message. */
  lemma {:induction false} ChainConserves(first: Msg, rest: seq<Msg>)
    requires Chain(first, rest)
    ensures ChainDiffs(first, rest).Ok?
    ensures ApplyAll(first, ChainDiffs(first, rest).value) == if rest == [] then first else rest[|rest| - 1]
    decreases |rest|
  {
    if rest != [] {
      DiffsConserve(first, rest[0]);
      ChainConserves(rest[0], rest[1..]);
      ApplyAllConcat(first, ComputeDiffs(first, rest[0]).value, ChainDiffs(rest[0], rest[1..]).value);
    }
  }
}
