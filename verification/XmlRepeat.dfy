/** A key that comes again in one call: its new value takes the place of the old one, which the client has
    been shown. Printed calls can be told as they arrive exactly when no call has such a key. */
module XmlRepeat {
  import opened Text
  import opened Utf8
  import opened ChatDiff
  import opened ChatParser
  import opened XmlToolCall
  import opened XmlRoundTrip
  import opened JsonDump
  import opened XmlShown
  import opened XmlStream
  import opened XmlRuns

  // ---------- calls whose keys may repeat ----------

  /** As StreamCall, but for the keys. */
  ghost predicate LooseCall(form: Form, c: Call)
    requires form.Usable()
  {
    && CleanName(form, c)
    && form.keyStart[0] !in c.name && form.toolEnd[0] !in c.name
    && (!AllSpace(form.toolSep) ==> form.toolSep[0] !in c.name)
    && forall i :: 0 <= i < |c.args| ==> StreamArg(form, c.args[i])
  }

  lemma LooseIs(form: Form, c: Call)
    requires form.Usable()
    ensures StreamCall(form, c) <==> LooseCall(form, c) && Distinct(c.args)
  {
    hide CleanName, ValidUtf8, CleanArg, EndsWith;
    if LooseCall(form, c) {
      forall i | 0 <= i < |c.args| ensures CleanArg(form, c.args[i].0, c.args[i].1) {
        assert StreamArg(form, c.args[i]);
      }
    }
  }

  ghost predicate LooseCalls(form: Form, calls: seq<Call>)
    requires form.Usable()
  {
    forall i :: 0 <= i < |calls| ==> LooseCall(form, calls[i])
  }

  predicate AllDistinct(calls: seq<Call>) {
    forall i :: 0 <= i < |calls| ==> Distinct(calls[i].args)
  }

  lemma LooseStreams(form: Form, calls: seq<Call>)
    requires form.Usable() && LooseCalls(form, calls)
    ensures StreamCalls(form, calls) <==> AllDistinct(calls)
  {
    hide LooseCall, StreamCall, Distinct;
    forall i | 0 <= i < |calls| ensures StreamCall(form, calls[i]) <==> Distinct(calls[i].args) {
      LooseIs(form, calls[i]);
    }
  }

  // ---------- the text ----------

  /** An argument up to somewhere in its value. */
  function OpenArg(form: Form, key: string, y: string): string {
    form.keyStart + ((key + form.keyValSep) + (GapText(form) + y))
  }

  /** A call up to somewhere behind some of its arguments. */
  function OpenBody(form: Form, name: string, done: Args, tail: string): string {
    (name + form.toolSep) + PrintArgs(form, done, tail)
  }

  /** Calls that have arrived whole, and one up to somewhere behind some of its arguments. */
  function OpenText(form: Form, calls: seq<Call>, name: string, done: Args, tail: string): string {
    form.scopeStart + (CallsText(form, calls) + (form.toolStart + OpenBody(form, name, done, tail)))
  }

  lemma PrefixFurther(a: string, b: string, c: string)
    ensures b <= c ==> a + b <= a + c
    ensures b < c ==> a + b < a + c
  {
    if b <= c {
      assert (a + c)[..|a + b|] == a + c[..|b|];
    }
  }

  lemma ArgTextGrows(form: Form, arg: (string, string), a: string, b: string)
    ensures a <= b ==> ArgText(form, arg, a) <= ArgText(form, arg, b)
    ensures a < b ==> ArgText(form, arg, a) < ArgText(form, arg, b)
  {
    hide GapText;
    var g, k, d := GapText(form), arg.0 + form.keyValSep, arg.1 + form.valEnd;
    PrefixFurther(d, a, b);
    PrefixFurther(g, d + a, d + b);
    PrefixFurther(k, g + (d + a), g + (d + b));
    PrefixFurther(form.keyStart, k + (g + (d + a)), k + (g + (d + b)));
  }

  lemma {:induction false} ArgsGrow(form: Form, args: Args, a: string, b: string)
    ensures a <= b ==> PrintArgs(form, args, a) <= PrintArgs(form, args, b)
    ensures a < b ==> PrintArgs(form, args, a) < PrintArgs(form, args, b)
    decreases |args|
  {
    hide PrintArgs, ArgText;
    if args == [] {
      PrintNoArgs(form, a);
      PrintNoArgs(form, b);
    } else {
      PrintArgsIs(form, args, a);
      PrintArgsIs(form, args, b);
      ArgsGrow(form, args[1..], a, b);
      ArgTextGrows(form, args[0], PrintArgs(form, args[1..], a), PrintArgs(form, args[1..], b));
    }
  }

  lemma {:induction false} ArgsSplit(form: Form, a: Args, b: Args, tail: string)
    ensures PrintArgs(form, a + b, tail) == PrintArgs(form, a, PrintArgs(form, b, tail))
    decreases |a|
  {
    hide PrintArgs, ArgText;
    if a == [] {
      assert a + b == b;
      PrintNoArgs(form, PrintArgs(form, b, tail));
    } else {
      assert (a + b)[0] == a[0] && (a + b)[1..] == a[1..] + b;
      PrintArgsIs(form, a + b, tail);
      PrintArgsIs(form, a, PrintArgs(form, b, tail));
      ArgsSplit(form, a[1..], b, tail);
    }
  }

  /** The open argument begins the printed one. */
  lemma OpenBegins(form: Form, arg: (string, string), y: string, rest: string)
    requires y < arg.1 + form.valEnd
    ensures "" < form.keyStart ==> "" < OpenArg(form, arg.0, y)
    ensures OpenArg(form, arg.0, y) < ArgText(form, arg, rest)
  {
    hide GapText;
    var g, k, d := GapText(form), arg.0 + form.keyValSep, arg.1 + form.valEnd;
    assert (d + rest)[..|d|] == d;
    PrefixFurther(g, y, d + rest);
    PrefixFurther(k, g + y, g + (d + rest));
    PrefixFurther(form.keyStart, k + (g + y), k + (g + (d + rest)));
  }

  // ---------- what the parser makes of it ----------

  predicate CleanArgs(form: Form, args: Args) {
    forall i :: 0 <= i < |args| ==> CleanArg(form, args[i].0, args[i].1)
  }

  /** Arguments that have arrived whole are read. */
  lemma {:induction false} ArgsPass(src: Source, form: Form, name: string, msg: Msg, done: Args, args: Args,
                                    rest: string, recovery: bool)
    requires CleanForm(form) && form.Usable() && CleanArgs(form, args) && Distinct(done + args)
    requires Ends(src, PrintArgs(form, args, rest))
    ensures Ends(src, rest)
    ensures var u := PrintArgs(form, args, rest);
      && 0 <= At(src, u) <= |src.input| && 0 <= At(src, rest) <= |src.input|
      && ArgsLoop(src, form, name, State(At(src, u), msg), done, recovery) ==
         ArgsLoop(src, form, name, State(At(src, rest), msg), done + args, recovery && args == [])
    decreases |args|
  {
    hide *;
    var u := PrintArgs(form, args, rest);
    EndsInside(src, u);
    if args == [] {
      PrintNoArgs(form, rest);
      NoArgsMore(done);
    } else {
      var after := PrintArgs(form, args[1..], rest);
      CleanArgsRest(form, args);
      PrintArgsIs(form, args, rest);
      DistinctSplits(done, args);
      LoopStep(src, form, name, State(At(src, u), msg), done, recovery);
      ArgPasses(src, form, name, msg, done, args[0], after);
      ArgsPass(src, form, name, msg, done + [args[0]], args[1..], rest, false);
      assert done + [args[0]] + args[1..] == done + args;
    }
  }

  lemma NoArgsMore(done: Args)
    ensures done + [] == done
  {
  }

  lemma CleanArgsRest(form: Form, args: Args)
    requires CleanArgs(form, args) && args != []
    ensures CleanArg(form, args[0].0, args[0].1) && CleanArgs(form, args[1..])
  {
    hide CleanArg;
  }

  /** What is shown of the call of which `args` have been read, with the marker in them. */
  function CutMsg(msg: Msg, name: string, args: Args): Msg {
    match CutAtNeedle(Dump(args))
    case Some(a) => AddCall(msg, name, a)
    case None => msg
  }

  lemma CutCallIs(src: Source, st: State, name: string, args: Args)
    ensures CutCall(src, st, name, args) == State(|src.input|, CutMsg(st.msg, name, args))
  {
    hide CutAtNeedle, Dump, AddCall;
  }

  /** The loop of arguments stops in the tail, and this shows. */
  predicate Shows(src: Source, form: Form, start: nat, name: string, msg: Msg, done: Args, tail: string,
                  recovery: bool, shown: Msg)
    requires form.Usable()
  {
    && 0 <= At(src, tail) <= |src.input|
    && var e := ArgsLoop(src, form, name, State(At(src, tail), msg), done, recovery);
    && e.st.pos <= |src.input| && Halts(Finish(src, form, start, name, e), shown)
  }

  ghost predicate TailShows(src: Source, form: Form, name: string, msg: Msg, done: Args, tail: string, shown: Msg)
    requires form.Usable()
  {
    forall start: nat, recovery :: Shows(src, form, start, name, msg, done, tail, recovery, shown)
  }

  /** Behind whole arguments nothing has arrived. */
  lemma NothingTold(src: Source, form: Form, name: string, msg: Msg, done: Args)
    requires src.partial && StreamForm(form) && form.Usable()
    ensures TailShows(src, form, name, msg, done, "", AddCall(msg, name, OpenDump(done)))
  {
    EmptyEnds(src);
    EmptyBegins(form.toolEnd);
    hide StreamForm, Ends, At, ArgsLoop, Halts, Finish;
    var shown := AddCall(msg, name, OpenDump(done));
    forall start: nat, recovery ensures Shows(src, form, start, name, msg, done, "", recovery, shown) {
      EndStops(src, form, start, name, msg, done, "", recovery);
    }
  }

  /** A value that has arrived in part is put where its key stands. */
  lemma ValueTold(src: Source, form: Form, start: nat, name: string, msg: Msg, done: Args, arg: (string, string),
                  y: string, recovery: bool)
    requires src.partial && StreamForm(form) && form.Usable() && StreamArg(form, arg)
    requires y < arg.1 + form.valEnd && Ends(src, OpenArg(form, arg.0, y))
    ensures var u := OpenArg(form, arg.0, y);
      0 <= At(src, u) <= |src.input|
      && var e := ArgsLoop(src, form, name, State(At(src, u), msg), done, recovery);
      && e.st.pos <= |src.input|
      && Halts(Finish(src, form, start, name, e),
               CutMsg(msg, name, Put(done, arg.0, Trimmed(form, Visible(y, form.valEnd)) + NEEDLE)))
  {
    hide *;
    var u, x := OpenArg(form, arg.0, y), Trimmed(form, Visible(y, form.valEnd));
    CleanParts(form, arg);
    EndsInside(src, u);
    LoopStep(src, form, name, State(At(src, u), msg), done, recovery);
    OpenArgIs(form, arg.0, y);
    StartReads(src, form, name, msg, done, (arg.0 + form.keyValSep) + (GapText(form) + y));
    KeyReads(src, form, name, msg, done, arg, GapText(form) + y);
    GapReads(src, form, name, msg, done, arg.0, y);
    EndsInside(src, y);
    ValueCuts(src, form, name, msg, done, arg, y);
    var args := Put(done, arg.0, x + NEEDLE);
    CutCallIs(src, State(At(src, y), msg), name, args);
    StoppedIs(src, form, start, CutMsg(msg, name, args), name);
  }

  lemma OpenArgIs(form: Form, key: string, y: string)
    ensures OpenArg(form, key, y) == form.keyStart + ((key + form.keyValSep) + (GapText(form) + y))
  {
  }

  lemma StoppedIs(src: Source, form: Form, start: nat, msg: Msg, name: string)
    ensures var s := State(|src.input|, msg); Halts(Finish(src, form, start, name, Halted(PartialException, s)), msg)
  {
  }

  lemma ValueShows(src: Source, form: Form, name: string, msg: Msg, done: Args, arg: (string, string), y: string)
    requires src.partial && StreamForm(form) && form.Usable() && StreamArg(form, arg)
    requires y < arg.1 + form.valEnd && Ends(src, OpenArg(form, arg.0, y))
    ensures TailShows(src, form, name, msg, done, OpenArg(form, arg.0, y),
                      CutMsg(msg, name, Put(done, arg.0, Trimmed(form, Visible(y, form.valEnd)) + NEEDLE)))
  {
    var u := OpenArg(form, arg.0, y);
    EndsInside(src, u);
    hide StreamForm, StreamArg, Ends, At, ArgsLoop, Halts, Finish, OpenArg, CutMsg, Put, Trimmed, Visible;
    var shown := CutMsg(msg, name, Put(done, arg.0, Trimmed(form, Visible(y, form.valEnd)) + NEEDLE));
    forall start: nat, recovery ensures Shows(src, form, start, name, msg, done, u, recovery, shown) {
      ValueTold(src, form, start, name, msg, done, arg, y, recovery);
    }
  }

  lemma TailHalts(src: Source, form: Form, start: nat, name: string, msg: Msg, done: Args, tail: string, shown: Msg,
                  recovery: bool)
    requires form.Usable() && TailShows(src, form, name, msg, done, tail, shown)
    ensures 0 <= At(src, tail) <= |src.input|
    ensures var e := ArgsLoop(src, form, name, State(At(src, tail), msg), done, recovery);
      e.st.pos <= |src.input| && Halts(Finish(src, form, start, name, e), shown)
  {
    hide ArgsLoop, Halts, Finish, At;
    assert Shows(src, form, start, name, msg, done, tail, recovery, shown);
  }

  /** The arguments of an open call, of which the tail shows, are those of a call with a clean name. */
  ghost predicate Opens(form: Form, c: Call, done: Args, tail: string) {
    && Named(form, c) && CleanName(form, c)
    && CleanArgs(form, done) && Distinct(done)
    && PrintArgs(form, done, tail) < PrintArgs(form, c.args, form.toolEnd)
    && PrintArgs(form, done, tail) != ""
  }

  /** The open call shows what its tail shows. */
  lemma BodyShows(src: Source, form: Form, start: nat, c: Call, msg: Msg, done: Args, tail: string, shown: Msg,
                  recovery: bool)
    requires src.partial && StreamForm(form) && form.Usable() && Opens(form, c, done, tail)
    requires Ends(src, OpenBody(form, c.name, done, tail)) && TailShows(src, form, c.name, msg, done, tail, shown)
    ensures var u := OpenBody(form, c.name, done, tail);
      0 <= At(src, u) <= |src.input| && Halts(NamedTool(src, form, start, State(At(src, u), msg), recovery), shown)
  {
    var u, v := OpenBody(form, c.name, done, tail), PrintArgs(form, done, tail);
    assert u == (c.name + form.toolSep) + v;
    assert [] + done == done;
    OpensMeans(form, c, done, tail);
    hide *;
    UsableForm(form);
    EndsInside(src, u);
    NamePasses(src, form, c, v);
    EndsLater(src, c.name + form.toolSep, v);
    EndsInside(src, v);
    NamedIs(src, form, start, c, State(At(src, u), msg), At(src, v), recovery);
    ArgsPass(src, form, c.name, msg, [], done, tail, recovery);
    TailHalts(src, form, start, c.name, msg, done, tail, shown, recovery && done == []);
  }

  lemma OpensMeans(form: Form, c: Call, done: Args, tail: string)
    requires Opens(form, c, done, tail)
    ensures Named(form, c) && CleanName(form, c) && CleanArgs(form, done) && Distinct(done)
    ensures PrintArgs(form, done, tail) < PrintArgs(form, c.args, form.toolEnd) && PrintArgs(form, done, tail) != ""
  {
  }

  /** From the call to the whole text. */
  lemma OpenSeen(form: Form, syntax: Syntax, before: string, msg: Msg, calls: seq<Call>, c: Call, done: Args,
                 tail: string, shown: Msg)
    requires StreamForm(form) && form.Usable() && CleanCalls(form, calls) && Opens(form, c, done, tail)
    requires var src := Source(before + OpenText(form, calls, c.name, done, tail), true, syntax);
      TailShows(src, form, c.name, Added(msg, calls), done, tail, shown)
    ensures Seen(form, syntax, before, msg, OpenText(form, calls, c.name, done, tail)) == shown
  {
    var u, body := OpenText(form, calls, c.name, done, tail), OpenBody(form, c.name, done, tail);
    assert u == form.scopeStart + (CallsText(form, calls) + (form.toolStart + body));
    var src, lead, m := Source(before + u, true, syntax), LeadOf(form, calls), Added(msg, calls);
    hide *;
    UsableForm(form);
    InputEnds(before, u, true, syntax);
    ParsePasses(src, form, msg, calls, form.toolStart + body);
    LeadIs(form, calls);
    EndsLater(src, lead, form.toolStart + body);
    EndsLater(src, form.toolStart, body);
    var v := lead + (form.toolStart + body);
    NamePlace(src, form, |before|, lead, m, body, calls == []);
    BodyShows(src, form, |before|, c, m, done, tail, shown, calls == []);
    ToolsStep(src, form, |before|, State(At(src, v), m), calls == []);
    HaltsMeans(NamedTool(src, form, |before|, State(At(src, body), m), calls == []), shown);
    SeenIs(form, syntax, before, msg, u);
  }

  lemma LeadIs(form: Form, calls: seq<Call>)
    requires StreamForm(form)
    ensures AllSpace(LeadOf(form, calls)) && Delimited(LeadOf(form, calls), form.toolStart)
  {
    EmptyLead(form, "");
    if AllSpace(form.scopeStart) {
      BlankLead(form);
    }
  }

  // ---------- the two messages ----------

  lemma {:induction false} PutOver(args: Args, key: string, value: string) returns (p: nat)
    requires !Fresh(args, key)
    ensures p < |args| && args[p].0 == key && Put(args, key, value) == args[..p] + [(key, value)] + args[p + 1..]
    decreases |args|
  {
    if args[0].0 == key {
      p := 0;
      assert args[..0] + [(key, value)] == [(key, value)];
    } else {
      var rest := args[1..];
      assert Fresh(rest, key) ==> Fresh(args, key) by {
        assert forall i :: 0 < i < |args| ==> args[i] == rest[i - 1];
      }
      var q := PutOver(rest, key, value);
      p := q + 1;
      assert args[..p] == [args[0]] + rest[..q];
      assert args[p + 1..] == rest[q + 1..];
    }
  }

  lemma PutBetween(args: Args, key: string, value: string) returns (a: Args, v: string, b: Args)
    requires !Fresh(args, key)
    ensures args == a + [(key, v)] + b && Put(args, key, value) == a + [(key, value)] + b
  {
    var p := PutOver(args, key, value);
    a, v, b := args[..p], args[p].1, args[p + 1..];
    assert args == a + [(key, v)] + b;
  }

  /** The members behind others. */
  function Behind(args: Args): string {
    if args == [] then "" else "," + Members(args)
  }

  lemma {:induction false} MembersBehind(a: Args, b: Args)
    requires a != []
    ensures Members(a + b) == Members(a) + Behind(b)
    decreases |a|
  {
    hide Quoted;
    var m := Quoted(a[0].0) + ":" + Quoted(a[0].1);
    assert (a + b)[0] == a[0] && (a + b)[1..] == a[1..] + b;
    if |a| == 1 {
      assert a[1..] + b == b;
      assert b == [] ==> Members(a + b) == m + "" == Members(a) + "";
      assert b != [] ==> Members(a + b) == m + ("," + Members(b)) && Members(a) == m + "";
    } else {
      MembersBehind(a[1..], b);
      assert m + ("," + (Members(a[1..]) + Behind(b))) == m + ("," + Members(a[1..])) + Behind(b);
    }
  }

  /** The open dump around one value. */
  lemma OpenSplits(a: Args, key: string, value: string, b: Args)
    ensures OpenDump(a + [(key, value)] + b) == Front(a) + (Quoted(key) + ":") + Quoted(value) + Behind(b)
  {
    hide Quoted, Members, Front, Behind;
    OpenMore(a, key, value);
    MembersBehind(a + [(key, value)], b);
    assert "{" + (Members(a + [(key, value)]) + Behind(b)) == "{" + Members(a + [(key, value)]) + Behind(b);
  }

  lemma {:induction false} FindLastMatches(s: string, lit: string, at: nat)
    ensures FindLast(s, lit, at).Some? ==> MatchAt(s, FindLast(s, lit, at).value, lit)
    decreases at
  {
    if at > 0 {
      FindLastMatches(s, lit, at - 1);
    }
  }

  /** At least the marker is cut off. */
  lemma CutShortens(json: string)
    ensures var cut := CutAtNeedle(json);
      cut.Some? ==> cut.value <= json && |cut.value| + |NEEDLE| <= |json|
  {
    hide FindLast, IsSpace;
    FindLastMatches(json, NEEDLE, |json|);
  }

  lemma OneBrace(base: string, v: string, w: string, tail: string, z: string)
    requires base + Quoted(v) + tail + z == base + Quoted(w) + tail + "}"
    ensures |z| == 1
  {
    hide Quoted;
    assert (base + Quoted(v) + tail + z)[|base|..] == Quoted(v) + (tail + z);
    assert (base + Quoted(w) + tail + "}")[|base|..] == Quoted(w) + (tail + "}");
    QuotedSplits(v, w, tail + z, tail + "}");
    assert |tail + z| == |tail + "}"|;
  }

  /** What has been shown does not begin what shows after another value has been put for a key. */
  lemma NotContinued(a: Args, key: string, v: string, w: string, b: Args, t: string)
    requires var d := Dump(a + [(key, w)] + b); t <= d && |t| + 1 < |d|
    ensures !(OpenDump(a + [(key, v)] + b) <= t)
  {
    OpenSplits(a, key, v, b);
    OpenSplits(a, key, w, b);
    var o, d := OpenDump(a + [(key, v)] + b), Dump(a + [(key, w)] + b);
    assert d == OpenDump(a + [(key, w)] + b) + "}";
    hide OpenDump, Dump, Quoted, Front, Behind;
    var z := if |o| <= |d| then d[|o|..] else "";
    assert o <= t ==> d == o + z;
    if d == o + z {
      OneBrace(Front(a) + (Quoted(key) + ":"), v, w, Behind(b), z);
    }
  }

  /** Another value for a key that has been shown never continues what has been shown. */
  lemma NeverContinued(msg: Msg, name: string, done: Args, key: string, value: string)
    requires name != "" && !Fresh(done, key)
    ensures !Extends(AddCall(msg, name, OpenDump(done)), CutMsg(msg, name, Put(done, key, value)))
  {
    hide *;
    var a, v, b := PutBetween(done, key, value);
    var args := Put(done, key, value);
    CutShortens(Dump(args));
    var cut := CutAtNeedle(Dump(args));
    if cut.Some? {
      MarkerLong();
      NotContinued(a, key, v, value, b, cut.value);
    }
    ExtendsCut(msg, name, OpenDump(done), args);
  }

  lemma MarkerLong()
    ensures |NEEDLE| > 1
  {
  }

  lemma ExtendsCut(msg: Msg, name: string, shown: string, args: Args)
    requires name != ""
    ensures Extends(AddCall(msg, name, shown), CutMsg(msg, name, args)) ==>
              CutAtNeedle(Dump(args)).Some? && shown <= CutAtNeedle(Dump(args)).value
  {
    hide CutAtNeedle, Dump;
  }

  // ---------- one key twice ----------

  /** A call in which the key of the argument `again` stands among those before it. */
  ghost predicate Repeats(form: Form, calls: seq<Call>, name: string, done: Args, again: (string, string)) {
    && StreamForm(form) && StreamCalls(form, calls) && LooseCall(form, Call(name, done + [again]))
    && Distinct(done) && !Fresh(done, again.0)
  }

  lemma RepeatsMeans(form: Form, calls: seq<Call>, name: string, done: Args, again: (string, string))
    requires Repeats(form, calls, name, done, again)
    ensures StreamForm(form) && form.Usable() && CleanCalls(form, calls) && StreamArg(form, again)
    ensures name != "" && Named(form, Call(name, done + [again])) && CleanName(form, Call(name, done + [again]))
    ensures CleanArgs(form, done) && Distinct(done) && !Fresh(done, again.0) && done != []
  {
    hide StreamForm, CleanArg, ValidUtf8, EndsWith;
    UsableForm(form);
    var c := Call(name, done + [again]);
    assert c.args[|done|] == again && forall i :: 0 <= i < |done| ==> c.args[i] == done[i];
    forall i | 0 <= i < |done| ensures CleanArg(form, done[i].0, done[i].1) {
      assert StreamArg(form, c.args[i]);
    }
    assert StreamArg(form, c.args[|done|]);
    forall i | 0 <= i < |calls| ensures CleanCall(form, calls[i]) {
      assert StreamCall(form, calls[i]);
    }
  }

  /** The tail behind the arguments before, nothing or a part of the argument, begins the printed one. */
  lemma RepeatOpens(form: Form, calls: seq<Call>, name: string, done: Args, again: (string, string), tail: string)
    requires Repeats(form, calls, name, done, again) && tail < ArgText(form, again, form.toolEnd)
    ensures Opens(form, Call(name, done + [again]), done, tail)
  {
    RepeatsMeans(form, calls, name, done, again);
    ArgsSplit(form, done, [again], form.toolEnd);
    assert [again][1..] == [];
    PrintArgsIs(form, [again], form.toolEnd);
    PrintNoArgs(form, form.toolEnd);
    PrintArgsIs(form, done, tail);
    hide PrintArgs, Named, CleanName, CleanArgs, Distinct, StreamForm, Repeats;
    ArgsGrow(form, done, tail, ArgText(form, again, form.toolEnd));
    NotNothing(form, done[0], PrintArgs(form, done[1..], tail));
  }

  lemma NotNothing(form: Form, arg: (string, string), rest: string)
    requires form.Usable()
    ensures ArgText(form, arg, rest) != ""
  {
  }

  /** What shows when the arguments before have arrived, and when the key has come again. */
  lemma RepeatSeen(form: Form, syntax: Syntax, before: string, msg: Msg, calls: seq<Call>, name: string, done: Args,
                   again: (string, string), y: string)
    requires Repeats(form, calls, name, done, again) && y < again.1 + form.valEnd
    ensures form.Usable()
    ensures Seen(form, syntax, before, msg, OpenText(form, calls, name, done, ""))
            == AddCall(Added(msg, calls), name, OpenDump(done))
    ensures Seen(form, syntax, before, msg, OpenText(form, calls, name, done, OpenArg(form, again.0, y)))
            == CutMsg(Added(msg, calls), name, Put(done, again.0, Trimmed(form, Visible(y, form.valEnd)) + NEEDLE))
  {
    hide *;
    RepeatsMeans(form, calls, name, done, again);
    var c, m := Call(name, done + [again]), Added(msg, calls);
    var u, tail := OpenText(form, calls, name, done, ""), OpenArg(form, again.0, y);
    var t := OpenText(form, calls, name, done, tail);
    OpenBegins(form, again, y, form.toolEnd);
    ArgBegins(form, again, form.toolEnd);
    RepeatOpens(form, calls, name, done, again, "");
    RepeatOpens(form, calls, name, done, again, tail);
    InputEnds(before, u, true, syntax);
    NothingTold(Source(before + u, true, syntax), form, name, m, done);
    OpenSeen(form, syntax, before, msg, calls, c, done, "", AddCall(m, name, OpenDump(done)));
    InputEnds(before, t, true, syntax);
    TailEnds(Source(before + t, true, syntax), form, calls, name, done, tail);
    ValueShows(Source(before + t, true, syntax), form, name, m, done, again, y);
    OpenSeen(form, syntax, before, msg, calls, c, done, tail,
             CutMsg(m, name, Put(done, again.0, Trimmed(form, Visible(y, form.valEnd)) + NEEDLE)));
  }

  lemma ArgBegins(form: Form, arg: (string, string), rest: string)
    requires form.Usable()
    ensures "" < ArgText(form, arg, rest)
  {
  }

  /** A text that ends with the open call ends with its tail. */
  lemma TailEnds(src: Source, form: Form, calls: seq<Call>, name: string, done: Args, tail: string)
    requires Ends(src, OpenText(form, calls, name, done, tail))
    ensures Ends(src, tail)
  {
    var args := PrintArgs(form, done, tail);
    hide PrintArgs, CallsText;
    EndsLater(src, form.scopeStart, CallsText(form, calls) + (form.toolStart + OpenBody(form, name, done, tail)));
    EndsLater(src, CallsText(form, calls), form.toolStart + OpenBody(form, name, done, tail));
    EndsLater(src, form.toolStart, OpenBody(form, name, done, tail));
    EndsLater(src, name + form.toolSep, args);
    ArgsEnd(src, form, done, tail);
  }

  lemma {:induction false} ArgsEnd(src: Source, form: Form, args: Args, tail: string)
    requires Ends(src, PrintArgs(form, args, tail))
    ensures Ends(src, tail)
    decreases |args|
  {
    hide Ends, PrintArgs, GapText;
    if args == [] {
      PrintNoArgs(form, tail);
    } else {
      var k, g, d := args[0].0 + form.keyValSep, GapText(form), args[0].1 + form.valEnd;
      var rest := PrintArgs(form, args[1..], tail);
      PrintArgsIs(form, args, tail);
      EndsLater(src, form.keyStart, k + (g + (d + rest)));
      EndsLater(src, k, g + (d + rest));
      EndsLater(src, g, d + rest);
      EndsLater(src, d, rest);
      ArgsEnd(src, form, args[1..], tail);
    }
  }

  // ---------- when printed calls can be told ----------

  lemma {:induction false} CallsSplit(form: Form, a: seq<Call>, b: seq<Call>)
    ensures CallsText(form, a + b) == CallsText(form, a) + CallsText(form, b)
    decreases |a|
  {
    hide CallText;
    if a == [] {
      assert a + b == b;
    } else {
      assert (a + b)[0] == a[0] && (a + b)[1..] == a[1..] + b;
      CallsSplit(form, a[1..], b);
    }
  }

  lemma OpenGrows(form: Form, calls: seq<Call>, name: string, done: Args, a: string, b: string)
    requires a <= b
    ensures OpenText(form, calls, name, done, a) <= OpenText(form, calls, name, done, b)
  {
    hide PrintArgs, CallsText;
    var x, y := OpenBody(form, name, done, a), OpenBody(form, name, done, b);
    ArgsGrow(form, done, a, b);
    PrefixFurther(name + form.toolSep, PrintArgs(form, done, a), PrintArgs(form, done, b));
    PrefixFurther(form.toolStart, x, y);
    PrefixFurther(CallsText(form, calls), form.toolStart + x, form.toolStart + y);
    PrefixFurther(form.scopeStart, CallsText(form, calls) + (form.toolStart + x),
                  CallsText(form, calls) + (form.toolStart + y));
  }

  /** A printed call up to one of its arguments. */
  lemma CallUpTo(form: Form, c: Call, k: nat)
    requires k <= |c.args|
    ensures CallText(form, c) ==
            form.toolStart + OpenBody(form, c.name, c.args[..k], PrintArgs(form, c.args[k..], form.toolEnd))
  {
    assert c.args == c.args[..k] + c.args[k..];
    ArgsSplit(form, c.args[..k], c.args[k..], form.toolEnd);
  }

  lemma ScopeUpTo(form: Form, calls: seq<Call>, i: nat)
    requires i < |calls|
    ensures Print(form, calls, "") == form.scopeStart +
            (CallsText(form, calls[..i])
             + (CallText(form, calls[i]) + (CallsText(form, calls[i + 1..]) + form.scopeEnd)))
  {
    var a, b := calls[..i], calls[i..];
    assert calls == a + b && b[0] == calls[i] && b[1..] == calls[i + 1..];
    PrintIs(form, calls);
    CallsSplit(form, a, b);
    CallsTextIs(form, b, form.scopeEnd);
    hide CallText, CallsText, Print;
    assert CallsText(form, a) + CallsText(form, b) + form.scopeEnd
      == CallsText(form, a) + (CallsText(form, b) + form.scopeEnd);
  }

  /** Printed calls up to an argument of one of them. */
  lemma OpenPrinted(form: Form, calls: seq<Call>, i: nat, k: nat)
    requires i < |calls| && k <= |calls[i].args|
    ensures var c := calls[i];
      OpenText(form, calls[..i], c.name, c.args[..k], PrintArgs(form, c.args[k..], form.toolEnd))
      <= Print(form, calls, "")
  {
    var front, text := CallsText(form, calls[..i]), CallText(form, calls[i]);
    var rest := CallsText(form, calls[i + 1..]) + form.scopeEnd;
    CallUpTo(form, calls[i], k);
    ScopeUpTo(form, calls, i);
    hide PrintArgs, CallsText, CallText, OpenBody, Print;
    PrefixFurther(front, text, text + rest);
    PrefixFurther(form.scopeStart, front + text, front + (text + rest));
  }

  lemma {:induction false} FirstRepeating(calls: seq<Call>) returns (i: nat)
    requires !AllDistinct(calls)
    ensures i < |calls| && !Distinct(calls[i].args) && AllDistinct(calls[..i])
    decreases |calls|
  {
    hide Distinct;
    var before := calls[..|calls| - 1];
    if AllDistinct(before) {
      i := |before|;
    } else {
      i := FirstRepeating(before);
      assert before[..i] == calls[..i];
    }
  }

  lemma {:induction false} FirstRepeat(args: Args) returns (k: nat)
    requires !Distinct(args)
    ensures k < |args| && Distinct(args[..k]) && !Fresh(args[..k], args[k].0)
    decreases |args|
  {
    var before := args[..|args| - 1];
    if Distinct(before) {
      k := |before|;
    } else {
      k := FirstRepeat(before);
      assert before[..k] == args[..k];
    }
  }

  /** Where a call repeats a key, two stops are not continued: up to the repetition, and behind its key. */
  lemma RepeatedNotTold(form: Form, syntax: Syntax, before: string, msg: Msg, calls: seq<Call>)
    returns (u: string, t: string)
    requires StreamForm(form) && LooseCalls(form, calls) && !AllDistinct(calls)
    ensures form.Usable() && u <= t <= Print(form, calls, "")
    ensures !Extends(Seen(form, syntax, before, msg, u), Seen(form, syntax, before, msg, t))
  {
    hide *;
    UsableForm(form);
    var i := FirstRepeating(calls);
    var c := calls[i];
    var k := FirstRepeat(c.args);
    var done, again, front := c.args[..k], c.args[k], calls[..i];
    LooseRepeats(form, calls, i, k);
    RepeatsMeans(form, front, c.name, done, again);
    var tail, whole := OpenArg(form, again.0, ""), PrintArgs(form, c.args[k..], form.toolEnd);
    u, t := OpenText(form, front, c.name, done, ""), OpenText(form, front, c.name, done, tail);
    NothingBegins(form, again);
    RepeatSeen(form, syntax, before, msg, front, c.name, done, again, "");
    NeverContinued(Added(msg, front), c.name, done, again.0, Trimmed(form, Visible("", form.valEnd)) + NEEDLE);
    OpenBegins(form, again, "", PrintArgs(form, c.args[k..][1..], form.toolEnd));
    PrintArgsIs(form, c.args[k..], form.toolEnd);
    OpenGrows(form, front, c.name, done, "", tail);
    OpenGrows(form, front, c.name, done, tail, whole);
    OpenPrinted(form, calls, i, k);
  }

  lemma NothingBegins(form: Form, arg: (string, string))
    requires form.Usable()
    ensures "" < arg.1 + form.valEnd
  {
  }

  lemma LooseRepeats(form: Form, calls: seq<Call>, i: nat, k: nat)
    requires StreamForm(form) && form.Usable() && LooseCalls(form, calls) && i < |calls| && AllDistinct(calls[..i])
    requires k < |calls[i].args| && Distinct(calls[i].args[..k]) && !Fresh(calls[i].args[..k], calls[i].args[k].0)
    ensures Repeats(form, calls[..i], calls[i].name, calls[i].args[..k], calls[i].args[k])
  {
    hide *;
    var c := calls[i];
    var args := c.args[..k] + [c.args[k]];
    assert args == c.args[..k + 1];
    LooseAt(form, calls, i);
    LooseStreams(form, calls[..i]);
    SeparatorOnly(form, c, args);
    RepeatsIs(form, calls[..i], c.name, c.args[..k], c.args[k]);
  }

  lemma LooseAt(form: Form, calls: seq<Call>, i: nat)
    requires form.Usable() && LooseCalls(form, calls) && i < |calls|
    ensures LooseCall(form, calls[i]) && LooseCalls(form, calls[..i])
  {
    hide LooseCall;
  }

  lemma RepeatsIs(form: Form, calls: seq<Call>, name: string, done: Args, again: (string, string))
    requires StreamForm(form) && form.Usable() && StreamCalls(form, calls)
      && LooseCall(form, Call(name, done + [again]))
    requires Distinct(done) && !Fresh(done, again.0)
    ensures Repeats(form, calls, name, done, again)
  {
    hide StreamCalls, LooseCall, Distinct, Fresh;
  }

  lemma SeparatorOnly(form: Form, c: Call, args: Args)
    requires form.Usable() && LooseCall(form, c) && args != [] && args <= c.args
    ensures LooseCall(form, Call(c.name, args))
  {
    hide StreamArg, Find, Delimited, Clear;
    assert forall j :: 0 <= j < |args| ==> args[j] == c.args[j];
  }

  /** Printed calls, whatever text follows them, are told as they arrive, every stop continued by every later
      one, if and only if no call repeats a key. */
  lemma ToldIffDistinct(form: Form, syntax: Syntax, before: string, msg: Msg, calls: seq<Call>, rest: string)
    requires StreamForm(form) && form.Usable() && LooseCalls(form, calls) && NoFurtherCall(form, rest, false, syntax)
    requires calls == [] ==> form.scopeStart == "" || !AllSpace(form.scopeStart)
    ensures (forall u, t :: u <= t <= Print(form, calls, rest) ==>
               Extends(Seen(form, syntax, before, msg, u), Seen(form, syntax, before, msg, t)))
            <==> forall i :: 0 <= i < |calls| ==> Distinct(calls[i].args)
  {
    LooseStreams(form, calls);
    PrintBehind(form, calls, rest);
    hide StreamForm, LooseCall, StreamCall, Distinct, Print, Seen, Extends, NoFurtherCall;
    if AllDistinct(calls) {
      forall u, t | u <= t <= Print(form, calls, rest)
        ensures Extends(Seen(form, syntax, before, msg, u), Seen(form, syntax, before, msg, t))
      {
        StopsGrow(form, syntax, before, msg, calls, u, t, rest);
      }
    } else {
      var u, t := RepeatedNotTold(form, syntax, before, msg, calls);
      assert u <= t <= Print(form, calls, rest);
    }
  }

  // ---------- when the difference fails ----------

  lemma ClosedAhead(a: string, b: string, z: string)
    requires z != ""
    ensures Quoted(b) + "" != Quoted(a) + z
  {
    if Quoted(b) + "" == Quoted(a) + z {
      QuotedSplits(b, a, "", z);
    }
  }

  /** A closed string is not the beginning of an open one. */
  lemma ClosedNotOpen(a: string, b: string)
    ensures !(Quoted(a) <= Half(b))
  {
    hide Escaped;
    var open, q := "\"" + Escaped(b), Quoted(a);
    var z := if |q| <= |open| then open[|q|..] else "";
    ClosedAhead(a, b, z + "\"");
    assert Quoted(b) + "" == open + "\"";
    hide Quoted;
    assert q <= open ==> open == q + z;
    assert open == q + z ==> open + "\"" == q + (z + "\"");
  }

  /** What shows of the last value against what shows of another in its place. */
  lemma TwoValues(done: Args, key: string, v: string, x: string)
    ensures var a, b := OpenDump(done + [(key, v)]), ShownValue(done, key, x);
      a <= b || b <= a <==> Half(x) <= Quoted(v)
  {
    var base := Front(done) + (Quoted(key) + ":");
    OpenMore(done, key, v);
    hide Quoted, Half, OpenDump, Front;
    Shared(base, Quoted(v), Half(x));
    Shared(base, Half(x), Quoted(v));
    ClosedNotOpen(v, x);
  }

  lemma Shared(base: string, a: string, b: string)
    ensures base + a <= base + b <==> a <= b
  {
    if base + a <= base + b {
      assert forall k :: 0 <= k < |a| ==> a[k] == (base + a)[|base| + k] == (base + b)[|base| + k] == b[k];
    }
    if a <= b {
      PrefixBehind(base, a, b);
    }
  }

  lemma TwoTexts(msg: Msg, name: string, a: string, b: string)
    requires name != ""
    ensures ComputeDiffs(AddCall(msg, name, a), AddCall(msg, name, b)).Ok? <==> a <= b || b <= a
  {
    ComputeDiffsSucceeds(AddCall(msg, name, a), AddCall(msg, name, b));
  }

  /** The marker followed by more members is not cut at. */
  lemma NoCutInside(pre: string, more: string)
    requires Find("," + more, NEEDLE, 0).None?
    ensures CutAtNeedle(pre + NEEDLE + ("\"" + ("," + more) + "}")) == None
  {
    hide FindLast, Find;
    var post := "\"" + ("," + more) + "}";
    var s, p := pre + NEEDLE + post, |pre|;
    assert s[p..p + |NEEDLE|] == NEEDLE;
    forall q | p < q <= |s|
      ensures !MatchAt(s, q, NEEDLE)
    {
      NoneBehind(pre, "," + more, q);
    }
    FindLastIs(s, NEEDLE, |s|, p);
    assert s[p + |NEEDLE|..] == post && post[1] == ',';
    assert !Punctuation(post);
  }

  lemma NoneBehind(pre: string, members: string, q: nat)
    requires Find(members, NEEDLE, 0).None? && q > |pre|
    ensures !MatchAt(pre + NEEDLE + ("\"" + members + "}"), q, NEEDLE)
  {
    hide Find;
    var n, post := |NEEDLE|, "\"" + members + "}";
    var s := pre + NEEDLE + post;
    FindIsFirst(members, NEEDLE, 0);
    MatchChars(s, q, NEEDLE);
    if q < |pre| + n {
      MarkerOnce(q - |pre|);
      assert q < |s| ==> s[q] == NEEDLE[q - |pre|];
    } else {
      var k := q - |pre| - n - 1;
      assert q == |pre| + n ==> s[q] == '"';
      assert q + n == |s| ==> s[q + n - 1] == '}';
      if k >= 0 {
        MatchChars(members, k, NEEDLE);
        assert k + n <= |members| ==> forall j :: k <= j < k + n ==> members[j] == s[j - k + q];
      }
    }
  }

  /** With a later argument behind it, the call is not shown at all. */
  lemma CallVanishes(msg: Msg, name: string, a: Args, key: string, x: string, b: Args)
    requires b != [] && Find(Behind(b), NEEDLE, 0).None?
    ensures CutMsg(msg, name, a + [(key, x + NEEDLE)] + b) == msg
  {
    OpenSplits(a, key, x + NEEDLE, b);
    MarkedQuoted(x);
    hide Find, CutAtNeedle, Quoted, Escaped, Front, Members;
    var d := Dump(a + [(key, x + NEEDLE)] + b);
    var pre := Front(a) + (Quoted(key) + ":") + ("\"" + Escaped(x));
    assert d == OpenDump(a + [(key, x + NEEDLE)] + b) + "}";
    assert d == pre + NEEDLE + ("\"" + ("," + Members(b)) + "}");
    NoCutInside(pre, Members(b));
  }

  lemma PutAt(done: Args, p: nat, value: string)
    requires p < |done| && Distinct(done)
    ensures Put(done, done[p].0, value) == done[..p] + [(done[p].0, value)] + done[p + 1..]
  {
    var q := PutOver(done, done[p].0, value);
    assert q == p;
  }

  /** When a key comes again in a call, its new value in part, the client never ends with what shows then.
      If it stands last, the difference fails exactly when what shows of the new value does not begin the
      old one as it was shown; if others follow it, without the marker in them, the call vanishes and the
      difference fails. */
  lemma RepeatedKey(form: Form, syntax: Syntax, before: string, msg: Msg, calls: seq<Call>, name: string, done: Args,
                    p: nat, second: string, y: string)
    requires p < |done| && Repeats(form, calls, name, done, (done[p].0, second)) && y < second + form.valEnd
    ensures form.Usable()
    ensures var x := Trimmed(form, Visible(y, form.valEnd));
      var m := Seen(form, syntax, before, msg, OpenText(form, calls, name, done, ""));
      var n := Seen(form, syntax, before, msg, OpenText(form, calls, name, done, OpenArg(form, done[p].0, y)));
      && !(ComputeDiffs(m, n).Ok? && Rebuilt(m, n) == n)
      && (p == |done| - 1 ==> (ComputeDiffs(m, n).Ok? <==> Half(x) <= Quoted(done[p].1)))
      && (p < |done| - 1 && Find(Behind(done[p + 1..]), NEEDLE, 0).None? ==> ComputeDiffs(m, n).RuntimeError?)
  {
    hide *;
    var key, x, m := done[p].0, Trimmed(form, Visible(y, form.valEnd)), Added(msg, calls);
    var a, b := done[..p], done[p + 1..];
    var args := a + [(key, x + NEEDLE)] + b;
    assert done == a + [(key, done[p].1)] + b;
    RepeatsMeans(form, calls, name, done, (key, second));
    RepeatSeen(form, syntax, before, msg, calls, name, done, (key, second), y);
    PutAt(done, p, x + NEEDLE);
    NeverContinued(m, name, done, key, x + NEEDLE);
    DiffsConserve(AddCall(m, name, OpenDump(done)), CutMsg(m, name, args));
    if b == [] {
      assert args == a + [(key, x + NEEDLE)] && done == a + [(key, done[p].1)];
      ValueCut(a, key, x);
      TwoValues(a, key, done[p].1, x);
      CutShows(m, name, args, ShownValue(a, key, x));
      TwoTexts(m, name, OpenDump(done), ShownValue(a, key, x));
    } else if Find(Behind(b), NEEDLE, 0).None? {
      CallVanishes(m, name, a, key, x, b);
      CallLost(m, name, OpenDump(done));
    }
  }

  lemma CutShows(msg: Msg, name: string, args: Args, a: string)
    requires CutAtNeedle(Dump(args)) == Some(a)
    ensures CutMsg(msg, name, args) == AddCall(msg, name, a)
  {
  }

  lemma CallLost(msg: Msg, name: string, a: string)
    requires name != ""
    ensures ComputeDiffs(AddCall(msg, name, a), msg).RuntimeError?
  {
    ComputeDiffsSucceeds(AddCall(msg, name, a), msg);
  }

  // ---------- inputs at which it fails ----------

  /** Told 1 for k, and then 2, the server throws; told 12, and then 1, it does not, and the client keeps 12. */
  lemma RepeatedKeyFails(syntax: Syntax, before: string, msg: Msg)
    ensures MINIMAX.Usable()
    ensures var one := Seen(MINIMAX, syntax, before, msg, OpenText(MINIMAX, [], "f", [("k", "1")], ""));
      var two := Seen(MINIMAX, syntax, before, msg,
                      OpenText(MINIMAX, [], "f", [("k", "1")], OpenArg(MINIMAX, "k", "2")));
      ComputeDiffs(one, two).RuntimeError?
    ensures var twelve := Seen(MINIMAX, syntax, before, msg, OpenText(MINIMAX, [], "f", [("k", "12")], ""));
      var one := Seen(MINIMAX, syntax, before, msg,
                      OpenText(MINIMAX, [], "f", [("k", "12")], OpenArg(MINIMAX, "k", "1")));
      ComputeDiffs(twelve, one).Ok? && Rebuilt(twelve, one) != one
  {
    hide *;
    DigitsPlain();
    MinimaxForm();
    DigitsDiffer();
    DigitsRepeat("1", "2");
    DigitsRepeat("12", "1");
    RepeatedKey(MINIMAX, syntax, before, msg, [], "f", [("k", "1")], 0, "2", "2");
    RepeatedKey(MINIMAX, syntax, before, msg, [], "f", [("k", "12")], 0, "1", "1");
  }

  lemma DigitsRepeat(v: string, w: string)
    requires PlainWord("f") && PlainArg(("k", v)) && PlainArg(("k", w))
    ensures Repeats(MINIMAX, [], "f", [("k", v)], ("k", w))
  {
    hide PlainWord, PlainArg, StreamArg, StreamForm, CleanName;
    MinimaxForm();
    var c, d := Call("f", [("k", v)]), Call("f", [("k", w)]);
    MinimaxCall(c);
    MinimaxCall(d);
    LooseIs(MINIMAX, c);
    LooseIs(MINIMAX, d);
    assert c.args[0] == ("k", v) && d.args[0] == ("k", w);
    assert [("k", v)] + [("k", w)] == [c.args[0], d.args[0]];
    assert [("k", v)][0].0 == "k";
    NameOfAny(MINIMAX, c, [c.args[0], d.args[0]]);
    RepeatsIs(MINIMAX, [], "f", [("k", v)], ("k", w));
  }

  /** The number of arguments does not matter for a clean name, as long as there are some. */
  lemma NameOfAny(form: Form, c: Call, args: Args)
    requires form.Usable() && LooseCall(form, c) && c.args != [] && args != []
    requires forall i :: 0 <= i < |args| ==> StreamArg(form, args[i])
    ensures LooseCall(form, Call(c.name, args))
  {
    hide StreamArg, Find, Delimited, Clear;
  }

  lemma DigitsPlain()
    ensures PlainWord("f") && PlainArg(("k", "1")) && PlainArg(("k", "2")) && PlainArg(("k", "12"))
    ensures "2" < "2" + MINIMAX.valEnd && Trimmed(MINIMAX, Visible("2", MINIMAX.valEnd)) == "2"
    ensures "1" < "1" + MINIMAX.valEnd && Trimmed(MINIMAX, Visible("1", MINIMAX.valEnd)) == "1"
  {
    OneByte('1');
    OneByte('2');
    TwoBytes();
    WordsPlain();
    DigitShows('1');
    DigitShows('2');
    hide *;
    ValuePlain("1");
    ValuePlain("2");
    ValuePlain("12");
  }

  lemma WordsPlain()
    ensures PlainWord("f") && PlainWord("k") && !EndsWith("k", NEEDLE) && ValidUtf8("k")
    ensures '<' !in "1" && '<' !in "2" && '<' !in "12"
  {
    hide ValidUtf8, EndsWith;
    OneByte('f');
    OneByte('k');
  }

  lemma ValuePlain(v: string)
    requires PlainWord("k") && !EndsWith("k", NEEDLE) && ValidUtf8("k") && '<' !in v && ValidUtf8(v)
    ensures PlainArg(("k", v))
  {
    hide ValidUtf8, EndsWith, PlainWord;
  }

  lemma DigitShows(d: char)
    requires '0' <= d <= '9'
    ensures [d] < [d] + MINIMAX.valEnd && Trimmed(MINIMAX, Visible([d], MINIMAX.valEnd)) == [d]
  {
    assert MINIMAX.valEnd != "" && MINIMAX.valEnd[0] == '<';
    Absent([d], MINIMAX.valEnd);
    OneByte(d);
    hide PartialStop, ValidUtf8, EndsWith, TruncateSafe;
    assert [d][..1] == [d];
  }

  lemma OneByte(c: char)
    requires '!' <= c <= 'z'
    ensures ValidUtf8([c]) && !EndsWith([c], NEEDLE) && TruncateSafe([c]) == 1 && Stripped([c])
  {
    var cps: seq<CodePoint> := [c as int];
    assert Scalars(cps);
    assert Encode(cps) == EncodeChar(cps[0]) + Encode(cps[1..]) == [c];
  }

  lemma TwoBytes()
    ensures ValidUtf8("12")
  {
    var cps: seq<CodePoint> := ['1' as int, '2' as int];
    assert Scalars(cps) && cps[1..] == ['2' as int];
    assert Encode(cps[1..]) == EncodeChar(cps[1]) + Encode(cps[1..][1..]) == "2";
    assert Encode(cps) == EncodeChar(cps[0]) + Encode(cps[1..]) == "12";
  }

  lemma DigitsDiffer()
    ensures !(Half("2") <= Quoted("1")) && Half("1") <= Quoted("12")
  {
    HalfGrows("1", "12");
    assert Escape('1') == "1" && Escape('2') == "2";
    assert Escaped("1") == "1" + Escaped("") && Escaped("2") == "2" + Escaped("");
    assert Quoted("1") == "\"1\"" && Half("2") == "\"2";
    assert Quoted("1")[1] == '1' && Half("2")[1] == '2';
  }
}
