/** A dumped argument object determines its members: nothing is lost when a tool call stores its
    arguments as text. */
module JsonDump {
  import opened ChatDiff
  import opened XmlToolCall
  import opened XmlRoundTrip

  lemma EscapeStart(c: char)
    ensures |Escape(c)| > 0 && Escape(c)[0] != '"'
    ensures Escape(c)[0] == '\\' ==> |Escape(c)| >= 2
    ensures Escape(c)[0] != '\\' ==> Escape(c) == [c]
  {
  }

  /** Escapes are told apart by their first characters, so what follows them is too. */
  lemma EscapeSplits(c: char, d: char, x: string, y: string)
    requires Escape(c) + x == Escape(d) + y
    ensures c == d && x == y
  {
    hide Hex;
    var e, f, u := Escape(c), Escape(d), Escape(c) + x;
    assert forall k :: 0 <= k < |e| ==> u[k] == e[k];
    assert forall k :: 0 <= k < |f| ==> u[k] == f[k];
    assert e[0] == f[0];
    if e[0] == '\\' {
      assert e[1] == f[1];
      if e[1] == 'u' {
        assert e[4] == f[4] && e[5] == f[5];
        HexSplits(c as int / 16, d as int / 16);
        HexSplits(c as int % 16, d as int % 16);
      }
    }
    assert c == d;
    assert x == u[|e|..] == y;
  }

  lemma HexSplits(a: int, b: int)
    requires 0 <= a < 16 && 0 <= b < 16 && Hex(a) == Hex(b)
    ensures a == b
  {
  }

  lemma {:induction false} EscapedSplits(a: string, b: string, x: string, y: string)
    requires Escaped(a) + ("\"" + x) == Escaped(b) + ("\"" + y)
    ensures a == b && x == y
    decreases |a| + |b|
  {
    hide Escape;
    var s, t := "\"" + x, "\"" + y;
    if a == "" || b == "" {
      EscapedStart(a, s);
      EscapedStart(b, t);
      assert Escaped("") + s == s && Escaped("") + t == t;
      assert a == "" && b == "";
      assert s[1..] == x && t[1..] == y;
    } else {
      EscapeStart(a[0]);
      EscapeStart(b[0]);
      assert Escaped(a) + s == Escape(a[0]) + (Escaped(a[1..]) + s);
      assert Escaped(b) + t == Escape(b[0]) + (Escaped(b[1..]) + t);
      EscapeSplits(a[0], b[0], Escaped(a[1..]) + s, Escaped(b[1..]) + t);
      EscapedSplits(a[1..], b[1..], x, y);
      assert a == [a[0]] + a[1..] && b == [b[0]] + b[1..];
    }
  }

  lemma EscapedStart(a: string, s: string)
    requires s != "" && s[0] == '"'
    ensures |Escaped(a) + s| > 0 && ((Escaped(a) + s)[0] == '"' <==> a == "")
  {
    if a != "" {
      EscapeStart(a[0]);
      assert (Escaped(a) + s)[0] == Escape(a[0])[0];
    }
  }

  lemma QuotedSplits(a: string, b: string, x: string, y: string)
    requires Quoted(a) + x == Quoted(b) + y
    ensures a == b && x == y
  {
    hide Escaped, Escape;
    var u := Quoted(a) + x;
    assert u[1..] == Escaped(a) + ("\"" + x);
    assert (Quoted(b) + y)[1..] == Escaped(b) + ("\"" + y);
    EscapedSplits(a, b, x, y);
  }

  /** The text of a member list up to and including the closing brace. */
  function Closed(args: Args): string {
    Members(args) + "}"
  }

  /** What follows the first member. */
  function AfterFirst(args: Args): string
    requires args != []
  {
    if |args| == 1 then "}" else "," + Closed(args[1..])
  }

  lemma ClosedUnfolds(args: Args)
    requires args != []
    ensures Closed(args) == Quoted(args[0].0) + (":" + (Quoted(args[0].1) + AfterFirst(args)))
    ensures Closed(args)[0] == '"'
  {
    hide Quoted;
    assert Quoted(args[0].0)[0] == '"' by { QuotedStart(args[0].0); }
    if |args| == 1 {
      assert Members(args) + "}" == Quoted(args[0].0) + (":" + (Quoted(args[0].1) + "}"));
    } else {
      assert Members(args) + "}"
        == Quoted(args[0].0) + (":" + (Quoted(args[0].1) + ("," + (Members(args[1..]) + "}"))));
    }
  }

  lemma QuotedStart(s: string)
    ensures |Quoted(s)| > 0 && Quoted(s)[0] == '"'
  {
  }

  lemma {:induction false} ClosedInjective(a: Args, b: Args)
    requires Closed(a) == Closed(b)
    ensures a == b
    decreases |a|
  {
    hide Quoted, AfterFirst, Members;
    assert Closed([]) == "}" by { EmptyClosed(); }
    if a != [] { ClosedUnfolds(a); }
    if b != [] { ClosedUnfolds(b); }
    if a != [] && b != [] {
      MemberSplits(a, b);
      if |a| > 1 {
        ClosedInjective(a[1..], b[1..]);
      }
      assert a == [a[0]] + a[1..] && b == [b[0]] + b[1..];
    }
  }

  lemma EmptyClosed()
    ensures Closed([]) == "}"
  {
  }

  lemma MemberSplits(a: Args, b: Args)
    requires a != [] && b != [] && Closed(a) == Closed(b)
    ensures a[0] == b[0] && (|a| == 1 <==> |b| == 1) && (|a| > 1 ==> Closed(a[1..]) == Closed(b[1..]))
  {
    hide Quoted, Members, Closed;
    ClosedUnfolds(a);
    ClosedUnfolds(b);
    var x, y := Quoted(a[0].1) + AfterFirst(a), Quoted(b[0].1) + AfterFirst(b);
    QuotedSplits(a[0].0, b[0].0, ":" + x, ":" + y);
    assert (":" + x)[1..] == x && (":" + y)[1..] == y;
    QuotedSplits(a[0].1, b[0].1, AfterFirst(a), AfterFirst(b));
    var p, q := AfterFirst(a), AfterFirst(b);
    assert |a| == 1 ==> p[0] == '}';
    assert |b| == 1 ==> q[0] == '}';
    assert |a| > 1 ==> p[0] == ',' && p[1..] == Closed(a[1..]);
    assert |b| > 1 ==> q[0] == ',' && q[1..] == Closed(b[1..]);
  }

  /** Two argument objects with the same dump are the same object. */
  lemma DumpInjective(a: Args, b: Args)
    requires Dump(a) == Dump(b)
    ensures a == b
  {
    hide Members;
    assert Dump(a)[1..] == Closed(a) && Dump(b)[1..] == Closed(b);
    ClosedInjective(a, b);
  }

  /** The message determines the calls: what the parser adds for one list of named calls it adds
      for no other. */
  lemma {:induction false} AddedInjective(msg: Msg, a: seq<Call>, b: seq<Call>)
    requires forall c :: c in a || c in b ==> c.name != ""
    requires Added(msg, a) == Added(msg, b)
    ensures a == b
    decreases |a|
  {
    hide Dump;
    AddedShape(msg, a);
    AddedShape(msg, b);
    if a != [] && b != [] {
      var n := |msg.toolCalls|;
      assert Added(msg, a).toolCalls[n] == ToolCall(a[0].name, Dump(a[0].args), "");
      assert Added(msg, b).toolCalls[n] == ToolCall(b[0].name, Dump(b[0].args), "");
      DumpInjective(a[0].args, b[0].args);
      assert a[0] == b[0];
      AddedInjective(AddCall(msg, a[0].name, Dump(a[0].args)), a[1..], b[1..]);
      assert a == [a[0]] + a[1..] && b == [b[0]] + b[1..];
    }
  }

  /** Each call is added at its place, with its dumped arguments. */
  lemma {:induction false} AddedShape(msg: Msg, calls: seq<Call>)
    requires forall c :: c in calls ==> c.name != ""
    ensures var m, n := Added(msg, calls), |msg.toolCalls|;
            && |m.toolCalls| == n + |calls| && m.toolCalls[..n] == msg.toolCalls
            && (forall i :: 0 <= i < |calls| ==>
                  m.toolCalls[n + i] == ToolCall(calls[i].name, Dump(calls[i].args), ""))
            && m.content == msg.content && m.reasoning == msg.reasoning
    decreases |calls|
  {
    hide Dump;
    if calls != [] {
      var msg' := AddCall(msg, calls[0].name, Dump(calls[0].args));
      AddedShape(msg', calls[1..]);
      var m, n := Added(msg, calls), |msg.toolCalls|;
      assert m.toolCalls[..n + 1] == msg'.toolCalls;
      assert m.toolCalls[..n] == m.toolCalls[..n + 1][..n];
      forall i | 0 <= i < |calls| ensures m.toolCalls[n + i] == ToolCall(calls[i].name, Dump(calls[i].args), "") {
        if i == 0 {
          assert m.toolCalls[n] == m.toolCalls[..n + 1][n];
        } else {
          assert m.toolCalls[n + 1 + (i - 1)] == ToolCall(calls[1..][i - 1].name, Dump(calls[1..][i - 1].args), "");
        }
      }
    }
  }
}
