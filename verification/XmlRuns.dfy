/** Whole runs: printed calls with text behind them arrive in any pieces, are parsed again at every stop,
    and once more when all of it is there. */
module XmlRuns {
  import opened Text
  import opened ChatDiff
  import opened ChatParser
  import opened XmlToolCall
  import opened XmlRoundTrip
  import opened XmlShown
  import opened XmlStream

  // ---------- calls that have arrived whole ----------

  lemma CallsTextIs(form: Form, calls: seq<Call>, rest: string)
    requires calls != []
    ensures CallsText(form, calls) + rest == CallText(form, calls[0]) + (CallsText(form, calls[1..]) + rest)
  {
    hide CallText;
    assert CallText(form, calls[0]) + CallsText(form, calls[1..]) + rest
        == CallText(form, calls[0]) + (CallsText(form, calls[1..]) + rest);
  }

  lemma NoCallsText(form: Form, rest: string)
    ensures CallsText(form, []) + rest == rest
  {
    assert "" + rest == rest;
  }

  predicate CleanCalls(form: Form, calls: seq<Call>) {
    forall i :: 0 <= i < |calls| ==> CleanCall(form, calls[i])
  }

  lemma CleanCallsRest(form: Form, calls: seq<Call>)
    requires CleanCalls(form, calls) && calls != []
    ensures CleanCall(form, calls[0]) && CleanCalls(form, calls[1..])
  {
    hide CleanCall;
  }

  lemma NoneAdded(msg: Msg, calls: seq<Call>)
    ensures Added(msg, calls) == if calls == [] then msg
                                 else Added(AddCall(msg, calls[0].name, Dump(calls[0].args)), calls[1..])
  {
    hide AddCall, Dump;
  }

  /** The loop reads the calls that are there and goes on behind them. */
  lemma {:induction false} CallsPass(src: Source, form: Form, start: nat, lead: string, msg: Msg, calls: seq<Call>,
                                     rest: string, recovery: bool)
    requires CleanForm(form) && form.Usable() && CleanCalls(form, calls)
    requires calls != [] ==> AllSpace(lead) && Delimited(lead, form.toolStart)
    requires var u := lead + (CallsText(form, calls) + rest); Ends(src, u) && start <= At(src, u)
    ensures var u, v := lead + (CallsText(form, calls) + rest), (if calls == [] then lead else "") + rest;
      && At(src, u) <= |src.input| && Ends(src, v) && start <= At(src, v) <= |src.input|
      && Tools(src, form, start, State(At(src, u), msg), recovery) ==
         Tools(src, form, start, State(At(src, v), Added(msg, calls)), recovery && calls == [])
    decreases |calls|
  {
    hide *;
    var u := lead + (CallsText(form, calls) + rest);
    EndsInside(src, u);
    NoneAdded(msg, calls);
    if calls == [] {
      NoCallsText(form, rest);
    } else {
      var c, after := calls[0], CallsText(form, calls[1..]) + rest;
      CleanCallsRest(form, calls);
      CallsTextIs(form, calls, rest);
      CallPasses(src, form, start, lead, c, msg, after, recovery);
      ToolsStep(src, form, start, State(At(src, u), msg), recovery);
      EmptyLead(form, after);
      EndsLater(src, lead + CallText(form, c), after) by { assert u == (lead + CallText(form, c)) + after; }
      CallsPass(src, form, start, "", AddCall(msg, c.name, Dump(c.args)), calls[1..], rest, false);
    }
  }

  /** What stands before what follows the calls: a blank scope start, when there are none. */
  function LeadOf(form: Form, calls: seq<Call>): string {
    if calls == [] && AllSpace(form.scopeStart) then form.scopeStart else ""
  }

  /** The parser enters the scope, reads the calls that are there and goes on behind them. */
  lemma ParsePasses(src: Source, form: Form, msg: Msg, calls: seq<Call>, rest: string)
    requires CleanForm(form) && form.Usable() && CleanCalls(form, calls)
    requires Ends(src, form.scopeStart + (CallsText(form, calls) + rest))
    ensures var u, v := form.scopeStart + (CallsText(form, calls) + rest), LeadOf(form, calls) + rest;
      && 0 <= At(src, u) <= |src.input| && Ends(src, v) && At(src, u) <= At(src, v) <= |src.input|
      && ParseXml(src, form, State(At(src, u), msg)) ==
         Tools(src, form, At(src, u), State(At(src, v), Added(msg, calls)), calls == [])
  {
    var u, inner := form.scopeStart + (CallsText(form, calls) + rest), CallsText(form, calls) + rest;
    EndsInside(src, u);
    if AllSpace(form.scopeStart) {
      hide CallsText, Delimited, Tools, ParseXml, CleanCalls, Ends, At;
      BlankScopeIs(src, form, State(At(src, u), msg));
      CallsPass(src, form, At(src, u), form.scopeStart, msg, calls, rest, true);
    } else {
      hide CallsText, Delimited, Tools, ParseXml, CleanCalls, Ends, At, CleanForm;
      ScopeStartPasses(src, form, msg, inner);
      EmptyLead(form, inner);
      CallsPass(src, form, At(src, u), "", msg, calls, rest, true);
    }
  }

  lemma InputEnds(before: string, u: string, partial: bool, syntax: Syntax)
    ensures var src := Source(before + u, partial, syntax); Ends(src, u) && At(src, u) == |before|
  {
    assert (before + u)[|before|..] == u;
  }

  lemma SeenIs(form: Form, syntax: Syntax, before: string, msg: Msg, u: string)
    requires form.Usable()
    ensures var src := Source(before + u, true, syntax);
      |before| <= |src.input|
      && var r := ParseXml(src, form, State(|before|, msg));
      r.0 != SyntaxException ==> Seen(form, syntax, before, msg, u) == r.1.msg
  {
    hide ParseXml;
  }

  // ---------- text behind the scope ----------

  /** Text that does not go on like a call does not do so at an earlier stop either, unless it stops within
      the blanks and the tool start. */
  lemma NoCallEarlier(form: Form, r: string, rest: string, syntax: Syntax)
    requires r <= rest && NoFurtherCall(form, rest, false, syntax)
    ensures var f := Find(form.scopeEnd + r, form.toolStart, 0);
      f.Some? ==> !AllSpace((form.scopeEnd + r)[..f.value])
  {
    var s, t := form.scopeEnd + r, form.scopeEnd + rest;
    assert s <= t;
    hide Find;
    var f := Find(s, form.toolStart, 0);
    if f.Some? {
      FullMatchIsStable(Source(s, false, syntax), Source(t, false, syntax), 0, form.toolStart);
      assert s[0..f.value] == s[..f.value];
    }
  }

  /** Text behind the scope that stops: there is no further call, or the beginning of a tool start. */
  lemma TextBehind(form: Form, r: string, rest: string, syntax: Syntax) returns (lead: string, d: string)
    requires r <= rest && NoFurtherCall(form, rest, false, syntax) && !NoFurtherCall(form, r, true, syntax)
    ensures form.scopeEnd + r == lead + d && AllSpace(lead) && d < form.toolStart && d != ""
  {
    NoCallEarlier(form, r, rest, syntax);
    var s := form.scopeEnd + r;
    hide Find, PartialStop;
    var i := PartialStop(s, form.toolStart).value;
    lead, d := s[..i], s[i..];
    assert s[0..i] == lead;
    PartOf(s, form.toolStart, i);
  }

  lemma PartOf(s: string, lit: string, i: nat)
    requires PartialStop(s, lit) == Some(i) && Find(s, lit, 0).None?
    ensures i < |s| && s[i..] < lit
  {
    hide Find;
    FindIsFirst(s, lit, 0);
    assert i + |lit| == |s| ==> s[i..i + |lit|] == s[i..];
    assert !MatchAt(s, i, lit);
  }

  /** Behind a scope end that is not blank, every text will do. */
  lemma EveryTextBehind(form: Form, rest: string, partial: bool, syntax: Syntax)
    requires StreamForm(form) && !AllSpace(form.scopeEnd)
    ensures NoFurtherCall(form, rest, partial, syntax)
  {
    var s := form.scopeEnd + rest;
    var f := FindLiteral(Source(s, partial, syntax), 0, form.toolStart);
    ScopeApart(form);
    hide FindLiteral, StreamForm, IsSpace;
    FoundSpells(Source(s, partial, syntax), 0, form.toolStart);
    if f.Some? {
      EndNotPart(form, s, f.value);
    }
  }

  /** What is found begins behind the end of the scope. */
  lemma EndNotPart(form: Form, s: string, f: Found)
    requires form.scopeEnd <= s && form.toolStart != "" && !AllSpace(form.scopeEnd)
    requires Apart(form.toolStart, form.scopeEnd) && form.toolStart[0] !in form.scopeEnd[1..]
    requires f.begin < f.end <= |s| && f.prelude == s[..f.begin] && s[f.begin..f.end] <= form.toolStart
    requires f.end == |s| || f.end == f.begin + |form.toolStart|
    ensures !AllSpace(f.prelude)
  {
    hide IsSpace;
    var b, lit, end := f.begin, form.toolStart, form.scopeEnd;
    assert forall i :: 0 <= i < f.end - b ==> s[b..f.end][i] == s[b + i];
    assert forall k :: 0 < k < |end| ==> end[1..][k - 1] == s[k];
    var i :| 0 <= i < |lit| && i < |end| && lit[i] != end[i];
    assert b >= |end|;
    var k :| 0 <= k < |end| && !IsSpace(end[k]);
    assert f.prelude[k] == end[k];
  }

  /** Text behind the calls changes nothing in the message, wherever it stops. */
  lemma ToolsBehind(src: Source, form: Form, start: nat, msg: Msg, r: string, rest: string, recovery: bool)
    requires src.partial && StreamForm(form) && form.Usable()
    requires r <= rest && NoFurtherCall(form, rest, false, src.syntax)
    requires Ends(src, form.scopeEnd + r) && start <= At(src, form.scopeEnd + r) <= |src.input|
    ensures var t := Tools(src, form, start, State(At(src, form.scopeEnd + r), msg), recovery);
      t.0 != SyntaxException && t.1.msg == msg
  {
    hide *;
    UsableForm(form);
    var u := form.scopeEnd + r;
    var st := State(At(src, u), msg);
    if NoFurtherCall(form, r, true, src.syntax) {
      NoCallsPrinted(form, u, msg);
      CallsRead(src, form, start, msg, [], r, recovery);
    } else {
      var lead, d := TextBehind(form, r, rest, src.syntax);
      StartStops(src, form, start, lead, msg, d, recovery);
      ToolsStep(src, form, start, st, recovery);
      HaltsMeans(Tool(src, form, start, st, recovery), msg);
    }
  }

  lemma NoCallsPrinted(form: Form, rest: string, msg: Msg)
    ensures PrintCalls(form, [], rest) == rest && Added(msg, []) == msg && CleanCalls(form, [])
  {
  }

  // ---------- every stop ----------

  /** The printed calls and text behind them. */
  lemma PrintBehind(form: Form, calls: seq<Call>, r: string)
    ensures Print(form, calls, r) == form.scopeStart + (CallsText(form, calls) + (form.scopeEnd + r))
    ensures Print(form, calls, r) == Print(form, calls, "") + r
  {
    PrintCallsIs(form, calls, form.scopeEnd + r);
    PrintCallsIs(form, calls, form.scopeEnd + "");
    hide CallsText, PrintCalls;
    assert form.scopeStart + (CallsText(form, calls) + (form.scopeEnd + r))
        == form.scopeStart + (CallsText(form, calls) + (form.scopeEnd + "")) + r;
  }

  lemma StreamIsClean(form: Form, calls: seq<Call>)
    requires StreamText(form, calls)
    ensures StreamForm(form) && CleanForm(form) && form.Usable() && CleanCalls(form, calls)
    ensures calls == [] ==> form.scopeStart == "" || !AllSpace(form.scopeStart)
    ensures LeadOf(form, calls) == ""
  {
    hide CleanCall, StreamArg, Delimited;
    forall i | 0 <= i < |calls| ensures CleanCall(form, calls[i]) {
      assert StreamCall(form, calls[i]);
    }
  }

  /** A stop behind the scope shows exactly the calls. */
  lemma SeenBehind(form: Form, syntax: Syntax, before: string, msg: Msg, calls: seq<Call>, r: string, rest: string)
    requires StreamText(form, calls) && r <= rest && NoFurtherCall(form, rest, false, syntax)
    ensures form.Usable() && Seen(form, syntax, before, msg, Print(form, calls, r)) == Added(msg, calls)
  {
    hide *;
    StreamIsClean(form, calls);
    var u, v := Print(form, calls, r), form.scopeEnd + r;
    var src := Source(before + u, true, syntax);
    PrintBehind(form, calls, r);
    InputEnds(before, u, true, syntax);
    ParsePasses(src, form, msg, calls, v);
    assert "" + v == v;
    ToolsBehind(src, form, |before|, Added(msg, calls), r, rest, calls == []);
    SeenIs(form, syntax, before, msg, u);
  }

  /** The text up to the end of the scope. */
  function Within(form: Form, calls: seq<Call>, u: string): string {
    var all := Print(form, calls, "");
    if |u| <= |all| then u else all
  }

  lemma WithinPrinted(form: Form, calls: seq<Call>, u: string, rest: string)
    requires u <= Print(form, calls, rest)
    ensures Within(form, calls, u) <= Print(form, calls, "")
    ensures Within(form, calls, u) == u
            || exists r :: r <= rest && u == Print(form, calls, r) && Within(form, calls, u) == Print(form, calls, "")
  {
    var all := Print(form, calls, "");
    PrintBehind(form, calls, rest);
    hide Print;
    if |u| <= |all| {
      Begun(all, rest, u);
    } else {
      Dropped(all, rest, u);
      var r := u[|all|..];
      PrintBehind(form, calls, r);
      assert u == all + r;
    }
  }

  /** What a stop shows is what has arrived of the scope shows. */
  lemma SeenWithin(form: Form, syntax: Syntax, before: string, msg: Msg, calls: seq<Call>, u: string, rest: string)
    requires StreamText(form, calls) && NoFurtherCall(form, rest, false, syntax) && u <= Print(form, calls, rest)
    ensures form.Usable()
    ensures Seen(form, syntax, before, msg, u) == Seen(form, syntax, before, msg, Within(form, calls, u))
  {
    hide *;
    StreamIsClean(form, calls);
    WithinPrinted(form, calls, u, rest);
    if Within(form, calls, u) != u {
      var r :| r <= rest && u == Print(form, calls, r) && Within(form, calls, u) == Print(form, calls, "");
      SeenBehind(form, syntax, before, msg, calls, r, rest);
      SeenWhole(form, syntax, before, msg, calls);
    }
  }

  lemma WithinGrows(form: Form, calls: seq<Call>, u: string, t: string, rest: string)
    requires u <= t <= Print(form, calls, rest)
    ensures Within(form, calls, u) <= Within(form, calls, t)
  {
    var all := Print(form, calls, "");
    PrintBehind(form, calls, rest);
    hide Print;
    if |u| <= |all| {
      Begun(all, rest, u);
      assert |t| > |all| ==> u <= all;
    }
  }

  /** Every stop is continued by every later one, behind the scope too. */
  lemma StopsGrow(form: Form, syntax: Syntax, before: string, msg: Msg, calls: seq<Call>, u: string, t: string,
                  rest: string)
    requires StreamText(form, calls) && NoFurtherCall(form, rest, false, syntax) && u <= t <= Print(form, calls, rest)
    ensures form.Usable()
    ensures Extends(Seen(form, syntax, before, msg, u), Seen(form, syntax, before, msg, t))
    ensures Extends(Seen(form, syntax, before, msg, u), Added(msg, calls))
  {
    hide *;
    SeenWithin(form, syntax, before, msg, calls, u, rest);
    SeenWithin(form, syntax, before, msg, calls, t, rest);
    WithinPrinted(form, calls, u, rest);
    WithinPrinted(form, calls, t, rest);
    WithinGrows(form, calls, u, t, rest);
    SeenGrows(form, syntax, before, msg, calls, Within(form, calls, u), Within(form, calls, t));
    SeenGrows(form, syntax, before, msg, calls, Within(form, calls, u), Print(form, calls, ""));
    SeenWhole(form, syntax, before, msg, calls);
  }

  // ---------- whole runs ----------

  function Seens(form: Form, syntax: Syntax, before: string, msg: Msg, cuts: seq<string>): (ms: seq<Msg>)
    requires form.Usable()
    ensures |ms| == |cuts|
  {
    seq(|cuts|, k requires 0 <= k < |cuts| => Seen(form, syntax, before, msg, cuts[k]))
  }

  /** The text as it arrives: each state of it begins the next, and all of them the printed text. */
  predicate Growing(first: string, cuts: seq<string>, whole: string)
    decreases |cuts|
  {
    if cuts == [] then first <= whole else first <= cuts[0] <= whole && Growing(cuts[0], cuts[1..], whole)
  }

  /** The parse of the whole text, no longer partial. */
  function Final(form: Form, syntax: Syntax, before: string, msg: Msg, whole: string): (Outcome, State)
    requires form.Usable()
  {
    TryConsume(Source(before + whole, false, syntax), form, State(|before|, msg))
  }

  lemma FinalIs(form: Form, syntax: Syntax, before: string, msg: Msg, calls: seq<Call>, rest: string)
    requires StreamText(form, calls) && NoFurtherCall(form, rest, false, syntax)
    ensures form.Usable()
    ensures var f := Final(form, syntax, before, msg, Print(form, calls, rest));
      f.0 == Returned(true) && f.1.msg == Added(msg, calls)
  {
    hide *;
    StreamIsClean(form, calls);
    var whole := Print(form, calls, rest);
    var src := Source(before + whole, false, syntax);
    InputEnds(before, whole, false, syntax);
    CleanEndIs(form, calls, rest, syntax);
    CleanCallsAre(form, calls);
    PrintedIsParsed(src, form, msg, calls, rest);
    EndsInside(src, whole);
    FinalParse(form, syntax, before, msg, whole);
  }

  lemma CleanEndIs(form: Form, calls: seq<Call>, rest: string, syntax: Syntax)
    requires calls == [] ==> form.scopeStart == "" || !AllSpace(form.scopeStart)
    requires NoFurtherCall(form, rest, false, syntax)
    ensures CleanEnd(form, calls, rest, false, syntax)
  {
  }

  lemma CleanCallsAre(form: Form, calls: seq<Call>)
    ensures CleanCalls(form, calls) <==> forall i :: 0 <= i < |calls| ==> CleanCall(form, calls[i])
  {
    hide CleanCall;
  }

  lemma FinalParse(form: Form, syntax: Syntax, before: string, msg: Msg, whole: string)
    requires form.Usable()
    ensures var src := Source(before + whole, false, syntax);
      |before| <= |src.input|
      && var r := ParseXml(src, form, State(|before|, msg));
      r.0 != SyntaxException ==> Final(form, syntax, before, msg, whole) == r
  {
    hide ParseXml;
  }

  lemma {:induction false} SeensChain(form: Form, syntax: Syntax, before: string, msg: Msg, calls: seq<Call>,
                                      rest: string, first: string, cuts: seq<string>)
    requires StreamText(form, calls) && NoFurtherCall(form, rest, false, syntax)
    requires Growing(first, cuts, Print(form, calls, rest))
    ensures form.Usable()
    ensures Chain(Seen(form, syntax, before, msg, first), Seens(form, syntax, before, msg, cuts) + [Added(msg, calls)])
    decreases |cuts|
  {
    hide *;
    StreamIsClean(form, calls);
    var end := Added(msg, calls);
    GrowingIs(first, cuts, Print(form, calls, rest));
    if cuts == [] {
      StopsGrow(form, syntax, before, msg, calls, first, first, rest);
    } else {
      StopsGrow(form, syntax, before, msg, calls, first, cuts[0], rest);
      SeensChain(form, syntax, before, msg, calls, rest, cuts[0], cuts[1..]);
    }
    ChainIs(form, syntax, before, msg, first, cuts, end);
  }

  lemma GrowingIs(first: string, cuts: seq<string>, whole: string)
    ensures Growing(first, cuts, whole) <==>
            if cuts == [] then first <= whole else first <= cuts[0] <= whole && Growing(cuts[0], cuts[1..], whole)
  {
  }

  lemma ChainIs(form: Form, syntax: Syntax, before: string, msg: Msg, first: string, cuts: seq<string>, end: Msg)
    requires form.Usable()
    ensures var m, ms := Seen(form, syntax, before, msg, first), Seens(form, syntax, before, msg, cuts);
      Chain(m, ms + [end]) <==>
      if cuts == [] then Extends(m, end)
      else
        var n := Seen(form, syntax, before, msg, cuts[0]);
        Extends(m, n) && Chain(n, Seens(form, syntax, before, msg, cuts[1..]) + [end])
  {
    hide Seen, Extends;
    var ms := Seens(form, syntax, before, msg, cuts);
    if cuts == [] {
      assert ms + [end] == [end];
    } else {
      assert (ms + [end])[1..] == Seens(form, syntax, before, msg, cuts[1..]) + [end];
    }
  }

  /** Over every way in which printed calls and text behind them may arrive, with a last parse of the whole,
      no difference ever fails, and a client that appends them all holds exactly those calls at the end. */
  lemma StreamedCalls(form: Form, syntax: Syntax, before: string, msg: Msg, calls: seq<Call>, rest: string,
                      cuts: seq<string>)
    requires StreamText(form, calls) && NoFurtherCall(form, rest, false, syntax)
    requires Growing("", cuts, Print(form, calls, rest))
    ensures form.Usable()
    ensures var last := Final(form, syntax, before, msg, Print(form, calls, rest));
      var ds := ChainDiffs(msg, Seens(form, syntax, before, msg, cuts) + [last.1.msg]);
      last.0 == Returned(true) && ds.Ok? && ApplyAll(msg, ds.value) == Added(msg, calls)
  {
    hide *;
    FinalIs(form, syntax, before, msg, calls, rest);
    SeenNothing(form, syntax, before, msg, calls);
    SeensChain(form, syntax, before, msg, calls, rest, "", cuts);
    ChainConserves(msg, Seens(form, syntax, before, msg, cuts) + [Added(msg, calls)]);
  }
}
