/** What a client is shown of printed tool calls when the text has arrived up to some point: the calls
    that are complete, and the JSON of the one that is open, cut off where the text stops. It only grows. */
module XmlShown {
  import opened Text
  import opened Utf8
  import opened ChatDiff
  import opened ChatParser
  import opened XmlToolCall
  import opened XmlRoundTrip

  // ---------- a field of which a part has arrived ----------

  /** What is certainly part of the field: not the end that may begin the delimiter, nor half a character. */
  function Visible(u: string, delim: string): (v: string)
    ensures v <= u
  {
    match PartialStop(u, delim)
    case Some(i) => u[..i]
    case None => u[..TruncateSafe(u)]
  }

  /** A delimiter begins at a code point. */
  predicate Ascii(delim: string) {
    delim != "" && !IsContinuation(delim[0])
  }

  /** Where truncation cuts, a code point begins. */
  lemma {:induction false} TruncatedFrom(s: string, back: nat)
    requires back <= 4 && back <= |s| && forall k :: |s| - back <= k < |s| ==> IsContinuation(s[k])
    ensures forall k :: TruncateFrom(s, back) < k < |s| ==> IsContinuation(s[k])
    decreases 4 - back
  {
    if back < 4 && back < |s| {
      var c := s[|s| - back - 1];
      if 0x80 <= Byte(c) < 0xC0 {
        TruncatedFrom(s, back + 1);
      }
    }
  }

  lemma TruncatedAt(s: string, i: nat)
    requires i < |s| && !IsContinuation(s[i])
    ensures i <= TruncateSafe(s)
  {
    TruncatedFrom(s, 0);
  }

  /** A field visible up to a point is visible there later, too. */
  lemma VisibleGrows(u: string, t: string, field: string, delim: string)
    requires u <= t <= field + delim && |t| < |field + delim| && Ascii(delim) && ValidUtf8(field)
    ensures Visible(u, delim) <= Visible(t, delim)
  {
    hide PartialAt, IsContinuation, TruncateSafe, PartialStop;
    PartialStopIsFirst(u, delim);
    PartialStopIsFirst(t, delim);
    var p, q := PartialStop(u, delim), PartialStop(t, delim);
    if q.Some? {
      if q.value < |u| {
        PartialShrinks(u, t, delim, q.value);
        assert p.Some? && p.value <= q.value;
        PartialFirst(u, p.value, delim);
        assert u[..p.value] == t[..p.value];
      } else {
        PartialFirst(t, q.value, delim);
        assert u <= t[..q.value];
      }
    } else {
      BeforeDelimiter(t, field, delim);
      assert u == field[..|u|] && t == field[..|t|];
      if p.Some? {
        PartialFirst(u, p.value, delim);
        assert u[p.value] == t[p.value];
        TruncatedAt(t, p.value);
      } else {
        TruncateMonotone(field, |u|, |t|);
      }
    }
  }

  lemma PartialFirst(s: string, i: nat, delim: string)
    requires PartialAt(s, i, delim)
    ensures i < |s| && delim != "" && s[i] == delim[0]
  {
    assert s[i..][0] == delim[0];
  }

  /** Once a part of the delimiter has arrived it is noticed. */
  lemma BeforeDelimiter(t: string, field: string, delim: string)
    requires t <= field + delim && |t| < |field + delim| && PartialStop(t, delim).None?
    ensures |t| <= |field|
  {
    PartialStopIsFirst(t, delim);
    if |t| > |field| {
      assert t[|field|..] == delim[..|t| - |field|];
      assert PartialAt(t, |field|, delim);
    }
  }

  /** Of a field that does not hide its delimiter nothing but the field is visible. */
  lemma VisibleInside(t: string, field: string, delim: string)
    requires t <= field + delim && |t| < |field + delim|
    ensures Visible(t, delim) <= field
  {
    hide PartialAt, TruncateSafe, PartialStop;
    PartialStopIsFirst(t, delim);
    var p := PartialStop(t, delim);
    if p.None? {
      BeforeDelimiter(t, field, delim);
    } else if |t| > |field| {
      assert PartialAt(t, |field|, delim) by { DelimiterBegun(t, field, delim); }
    }
    assert forall k :: 0 <= k < |t| && k < |field| ==> t[k] == (field + delim)[k] == field[k];
  }

  lemma DelimiterBegun(t: string, field: string, delim: string)
    requires t <= field + delim && |field| < |t| < |field + delim|
    ensures PartialAt(t, |field|, delim)
  {
    assert t[|field|..] == delim[..|t| - |field|];
  }

  // ---------- the JSON of an open call ----------

  /** The text without a quote at its end. */
  function NoQuote(s: string): string {
    if s != "" && s[|s| - 1] == '"' then s[..|s| - 1] else s
  }

  /** A JSON string that is still open, as it stands before the marker. */
  function Half(x: string): string {
    NoQuote("\"" + Escaped(x))
  }

  /** The members before the next one. */
  function Front(args: Args): string {
    OpenDump(args) + (if args == [] then "" else ",")
  }

  function ShownKey(args: Args, x: string): string {
    Front(args) + Half(x)
  }

  function ShownValue(args: Args, key: string, x: string): string {
    Front(args) + (Quoted(key) + ":") + Half(x)
  }

  lemma {:induction false} EscapedConcat(a: string, b: string)
    ensures Escaped(a + b) == Escaped(a) + Escaped(b)
    decreases |a|
  {
    hide Escape;
    if a == "" {
      assert a + b == b;
    } else {
      assert (a + b)[1..] == a[1..] + b;
      EscapedConcat(a[1..], b);
      assert Escape(a[0]) + (Escaped(a[1..]) + Escaped(b)) == Escape(a[0]) + Escaped(a[1..]) + Escaped(b);
    }
  }

  lemma EscapeSome(c: char)
    ensures Escape(c) != ""
  {
  }

  /** An open string grows with its content, up to the closed string. */
  lemma HalfGrows(x: string, y: string)
    requires x <= y
    ensures Half(x) <= Half(y) <= Quoted(y)
  {
    hide Escaped;
    if x != y {
      var e := EscapedLonger(x, y);
      HalfLonger("\"" + Escaped(x), e);
      assert "\"" + Escaped(x) + e == "\"" + Escaped(y);
    }
    HalfClosed(y);
  }

  lemma EscapedLonger(x: string, y: string) returns (e: string)
    requires x < y
    ensures e != "" && Escaped(y) == Escaped(x) + e
  {
    var z := y[|x|..];
    e := Escaped(z);
    EscapeSome(z[0]);
    hide Escape;
    assert y == x + z;
    EscapedConcat(x, z);
  }

  lemma HalfLonger(s: string, e: string)
    requires e != ""
    ensures NoQuote(s) <= NoQuote(s + e)
  {
    assert (s + e)[|s + e| - 1] == e[|e| - 1];
    assert (s + e)[..|s + e| - 1] == s + e[..|e| - 1];
  }

  lemma HalfClosed(y: string)
    ensures Half(y) <= Quoted(y)
  {
    hide Escaped;
    assert Quoted(y) == ("\"" + Escaped(y)) + "\"";
  }

  lemma {:induction false} MembersMore(args: Args, key: string, value: string)
    ensures Members(args + [(key, value)]) ==
            Members(args) + (if args == [] then "" else ",") + (Quoted(key) + ":" + Quoted(value))
    decreases |args|
  {
    hide Quoted;
    var all := args + [(key, value)];
    if args == [] {
      assert all == [(key, value)];
      assert Members(all) == Quoted(key) + ":" + Quoted(value) + "";
    } else {
      var rest, m := args[1..], Quoted(args[0].0) + ":" + Quoted(args[0].1);
      assert all[1..] == rest + [(key, value)] && all[0] == args[0];
      MembersMore(rest, key, value);
      assert Members(all) == m + ("," + Members(all[1..]));
      if rest == [] {
        assert Members(rest) == "" && Members(args) == m + "";
        assert m + ("," + ("" + "" + (Quoted(key) + ":" + Quoted(value))))
          == m + "" + "," + (Quoted(key) + ":" + Quoted(value));
      } else {
        assert Members(args) == m + ("," + Members(rest));
        assert m + ("," + (Members(rest) + "," + (Quoted(key) + ":" + Quoted(value))))
            == m + ("," + Members(rest)) + "," + (Quoted(key) + ":" + Quoted(value));
      }
    }
  }

  lemma OpenMore(args: Args, key: string, value: string)
    ensures OpenDump(args + [(key, value)]) == Front(args) + (Quoted(key) + ":") + Quoted(value)
  {
    hide Quoted, Members;
    MembersMore(args, key, value);
  }

  /** The stages in which one argument shows: each begins with the ones before. */
  lemma KeyStage(args: Args, x: string, y: string, key: string)
    requires x <= y <= key
    ensures OpenDump(args) <= ShownKey(args, x) <= ShownKey(args, y) <= ShownValue(args, key, "")
  {
    hide Quoted, Members, Half;
    HalfGrows(x, y);
    HalfGrows(y, key);
    HalfNothing();
    PrefixAfter(OpenDump(args), if args == [] then "" else ",", Half(x));
    assert Half(key) <= Quoted(key) <= Quoted(key) + ":";
    PrefixBehind(Front(args), Half(x), Half(y));
    PrefixBehind(Front(args), Half(y), Quoted(key) + ":");
    assert Front(args) + (Quoted(key) + ":") + "" == Front(args) + (Quoted(key) + ":");
  }

  lemma HalfNothing()
    ensures Half("") == ""
  {
  }

  lemma PrefixAfter(a: string, b: string, c: string)
    ensures a <= a + b + c
  {
  }

  lemma PrefixBehind(a: string, b: string, c: string)
    requires b <= c
    ensures a + b <= a + c
  {
  }

  lemma ValueStage(args: Args, key: string, x: string, y: string, value: string)
    requires x <= y <= value
    ensures ShownValue(args, key, "") <= ShownValue(args, key, x) <= ShownValue(args, key, y)
    ensures ShownValue(args, key, y) <= OpenDump(args + [(key, value)])
  {
    hide Quoted, Members, Half, Front;
    var base := Front(args) + (Quoted(key) + ":");
    HalfGrows("", x);
    HalfGrows(x, y);
    HalfGrows(y, value);
    OpenMore(args, key, value);
    PrefixBehind(base, Half(""), Half(x));
    PrefixBehind(base, Half(x), Half(y));
    PrefixBehind(base, Half(y), Quoted(value));
  }

  // ---------- arguments ----------

  function Trimmed(form: Form, x: string): string {
    if form.trimRawArgval then Strip(x) else x
  }

  /** How long the separator between key and value is when printed. */
  function Gap(form: Form): nat {
    if form.keyValSep2.Some? then 1 + |form.keyValSep2.value| else 0
  }

  /** How far an argument has arrived. */
  datatype Stage = AtStart | InKey(part: string) | AtGap | InValue(part: string) | Past(rest: string)

  function StageOf(form: Form, arg: (string, string), u: string): Stage {
    if |u| < |form.keyStart| then AtStart
    else
      var v := u[|form.keyStart|..];
      if |v| < |arg.0| + |form.keyValSep| then InKey(v)
      else
        var w := v[|arg.0| + |form.keyValSep|..];
        if |w| < Gap(form) then AtGap
        else
          var x := w[Gap(form)..];
          if |x| < |arg.1| + |form.valEnd| then InValue(x) else Past(x[|arg.1| + |form.valEnd|..])
  }

  /** The JSON shown when `u` has arrived of the printed arguments and the end of the call. */
  function ShownArgs(form: Form, done: Args, args: Args, u: string): string
    decreases |args|
  {
    if args == [] then OpenDump(done)
    else
      match StageOf(form, args[0], u)
      case AtStart => OpenDump(done)
      case InKey(v) => ShownKey(done, Visible(v, form.keyValSep))
      case AtGap => ShownValue(done, args[0].0, "")
      case InValue(x) => ShownValue(done, args[0].0, Trimmed(form, Visible(x, form.valEnd)))
      case Past(rest) => ShownArgs(form, done + [args[0]], args[1..], rest)
  }

  // ---------- growing ----------

  /** A form that can be streamed: each delimiter has a first character that does not come again in it, so
      that its beginning is noticed, and the ones that may follow each other are told apart. */
  predicate StreamForm(form: Form) {
    && CleanForm(form)
    && FirstDoesNotRecur(form.toolStart) && FirstDoesNotRecur(form.keyStart) && FirstDoesNotRecur(form.keyValSep)
    && FirstDoesNotRecur(form.valEnd) && FirstDoesNotRecur(form.toolEnd)
    && FirstDoesNotRecur(form.toolSep) && FirstDoesNotRecur(form.scopeStart) && FirstDoesNotRecur(form.scopeEnd)
    && (form.keyValSep2.Some? ==> form.keyValSep2.value != "" && FirstDoesNotRecur(form.keyValSep2.value))
    && Ascii(form.keyValSep) && Ascii(form.valEnd)
    && !IsSpace(form.toolStart[0]) && !IsSpace(form.keyStart[0]) && form.keyStart[0] !in form.toolEnd[1..]
    && (form.scopeEnd != "" ==> Apart(form.toolStart, form.scopeEnd) && form.toolStart[0] !in form.scopeEnd[1..])
  }

  /** The key does not look like the marker, and both texts are UTF-8. */
  ghost predicate StreamArg(form: Form, arg: (string, string)) {
    && CleanArg(form, arg.0, arg.1)
    && ValidUtf8(arg.0) && ValidUtf8(arg.1) && !EndsWith(arg.0, NEEDLE)
  }

  /** The name does not have the first character of a delimiter that may follow it. */
  ghost predicate StreamCall(form: Form, c: Call)
    requires form.Usable()
  {
    && CleanCall(form, c)
    && form.keyStart[0] !in c.name && form.toolEnd[0] !in c.name
    && (!AllSpace(form.toolSep) ==> form.toolSep[0] !in c.name)
    && forall i :: 0 <= i < |c.args| ==> StreamArg(form, c.args[i])
  }

  ghost predicate StreamArgs(form: Form, args: Args) {
    forall i :: 0 <= i < |args| ==> StreamArg(form, args[i])
  }

  lemma TrimmedGrows(form: Form, x: string, y: string)
    requires x <= y
    ensures Trimmed(form, x) <= Trimmed(form, y)
  {
    if form.trimRawArgval {
      StripGrows(x, y);
    }
  }

  lemma TrimmedWhole(form: Form, arg: (string, string))
    requires StreamArg(form, arg)
    ensures Trimmed(form, arg.1) == arg.1
  {
    if form.trimRawArgval {
      StripIs(arg.1, "", arg.1, "");
    }
  }

  lemma Dropped(a: string, b: string, u: string)
    requires u <= a + b && |u| >= |a|
    ensures a <= u && u[|a|..] <= b
  {
    assert u == (a + b)[..|u|];
    assert u[|a|..] == b[..|u| - |a|];
  }

  lemma Begun(a: string, b: string, u: string)
    requires u <= a + b && |u| <= |a|
    ensures u <= a
  {
    assert u == (a + b)[..|u|] == a[..|u|];
  }

  /** What an argument is printed as, piece by piece. */
  function GapText(form: Form): (g: string)
    ensures |g| == Gap(form)
  {
    if form.keyValSep2.Some? then "\n" + form.keyValSep2.value else ""
  }

  function ArgText(form: Form, arg: (string, string), rest: string): string {
    form.keyStart + ((arg.0 + form.keyValSep) + (GapText(form) + ((arg.1 + form.valEnd) + rest)))
  }

  lemma PrintArgsIs(form: Form, args: Args, tail: string)
    requires args != []
    ensures PrintArgs(form, args, tail) == ArgText(form, args[0], PrintArgs(form, args[1..], tail))
  {
    hide PrintArgs;
    PrintArgsFirst(form, args, tail);
    var rest, value := PrintArgs(form, args[1..], tail), args[0].1;
    var inner := value + (form.valEnd + rest);
    assert inner == (value + form.valEnd) + rest;
    assert PrintSeparator2(form, inner) == GapText(form) + inner;
    assert args[0].0 + (form.keyValSep + (GapText(form) + inner))
      == (args[0].0 + form.keyValSep) + (GapText(form) + inner);
  }

  lemma PrintArgsFirst(form: Form, args: Args, tail: string)
    requires args != []
    ensures PrintArgs(form, args, tail) ==
            form.keyStart + (args[0].0 + (form.keyValSep + PrintSeparator2(form,
              args[0].1 + (form.valEnd + PrintArgs(form, args[1..], tail)))))
  {
  }

  /** Where the text stops within a printed argument. */
  lemma StageIs(form: Form, arg: (string, string), rest: string, u: string)
    requires u <= ArgText(form, arg, rest)
    ensures var s := StageOf(form, arg, u);
      && (s.AtStart? ==> u <= form.keyStart && u != form.keyStart)
      && (s.InKey? ==> u == form.keyStart + s.part && s.part < arg.0 + form.keyValSep)
      && (s.AtGap? ==> exists g :: u == form.keyStart + ((arg.0 + form.keyValSep) + g) && g < GapText(form))
      && (s.InValue? ==>
            && u == form.keyStart + ((arg.0 + form.keyValSep) + (GapText(form) + s.part))
            && s.part < arg.1 + form.valEnd)
      && (s.Past? ==> u == ArgText(form, arg, s.rest) && s.rest <= rest)
  {
    var a, b, c, d := form.keyStart, arg.0 + form.keyValSep, GapText(form), arg.1 + form.valEnd;
    if |u| < |a| {
      Begun(a, b + (c + (d + rest)), u);
    } else {
      Dropped(a, b + (c + (d + rest)), u);
      var v := u[|a|..];
      assert u == a + v;
      if |v| < |b| {
        Begun(b, c + (d + rest), v);
      } else {
        Dropped(b, c + (d + rest), v);
        var w := v[|b|..];
        assert v == b + w;
        if |w| < |c| {
          Begun(c, d + rest, w);
        } else {
          Dropped(c, d + rest, w);
          var x := w[|c|..];
          assert w == c + x;
          if |x| < |d| {
            Begun(d, rest, x);
          } else {
            Dropped(d, rest, x);
            assert x == d + x[|d|..];
          }
        }
      }
    }
  }

  /** Stages follow each other as the text grows. */
  lemma StagesFollow(form: Form, arg: (string, string), u: string, t: string)
    requires u <= t
    ensures var s, r := StageOf(form, arg, u), StageOf(form, arg, t);
      match s
      case AtStart => true
      case InKey(v) => if r.InKey? then v <= r.part else !r.AtStart?
      case AtGap => !r.AtStart? && !r.InKey?
      case InValue(x) => if r.InValue? then x <= r.part else r.Past?
      case Past(y) => r.Past? && y <= r.rest
  {
  }

  lemma {:induction false} OpenPrefix(done: Args, args: Args)
    ensures OpenDump(done) <= OpenDump(done + args)
    decreases |args|
  {
    hide Members, Quoted;
    if args == [] {
      assert done + args == done;
    } else {
      OpenMore(done, args[0].0, args[0].1);
      assert args[0] == (args[0].0, args[0].1);
      OpenPrefix(done + [args[0]], args[1..]);
      assert done + [args[0]] + args[1..] == done + args;
      PrefixAfter(OpenDump(done), if done == [] then "" else ",", (Quoted(args[0].0) + ":") + Quoted(args[0].1));
      assert OpenDump(done) <= OpenDump(done + [args[0]]) by {
        assert Front(done) + (Quoted(args[0].0) + ":") + Quoted(args[0].1)
            == OpenDump(done) + (if done == [] then "" else ",") + ((Quoted(args[0].0) + ":") + Quoted(args[0].1));
      }
    }
  }

  /** Whatever has arrived of the first argument: what shows lies between the arguments before it and
      those up to it. */
  lemma FirstBetween(form: Form, done: Args, args: Args, tail: string, u: string)
    requires StreamForm(form) && args != [] && StreamArg(form, args[0]) && u <= PrintArgs(form, args, tail)
    requires !StageOf(form, args[0], u).Past?
    ensures OpenDump(done) <= ShownArgs(form, done, args, u) <= OpenDump(done + [args[0]])
  {
    var (key, value) := args[0];
    PrintArgsIs(form, args, tail);
    StageIs(form, args[0], PrintArgs(form, args[1..], tail), u);
    var s := StageOf(form, args[0], u);
    var x := if s.InValue? then Trimmed(form, Visible(s.part, form.valEnd)) else "";
    hide OpenDump, ShownKey, ShownValue, StageOf, Visible, Trimmed, PrintArgs, CleanForm, CleanArg;
    KeyStage(done, "", "", key);
    if s.InKey? {
      VisibleInside(s.part, key, form.keyValSep);
      var v := Visible(s.part, form.keyValSep);
      KeyStage(done, v, v, key);
    } else if s.InValue? {
      VisibleInside(s.part, value, form.valEnd);
      TrimmedGrows(form, Visible(s.part, form.valEnd), value);
      TrimmedWhole(form, args[0]);
    }
    ValueStage(done, key, x, x, value);
    OpenPrefix(done, [args[0]]);
  }

  lemma StreamRest(form: Form, args: Args)
    requires args != [] && StreamArgs(form, args)
    ensures StreamArg(form, args[0]) && StreamArgs(form, args[1..])
  {
    hide StreamArg;
  }

  lemma ShownPast(form: Form, done: Args, args: Args, u: string)
    requires args != [] && StageOf(form, args[0], u).Past?
    ensures ShownArgs(form, done, args, u) ==
            ShownArgs(form, done + [args[0]], args[1..], StageOf(form, args[0], u).rest)
  {
    hide StageOf;
  }

  lemma ShownNone(form: Form, done: Args, u: string)
    ensures ShownArgs(form, done, [], u) == OpenDump(done)
  {
  }

  lemma Regroup(done: Args, args: Args)
    requires args != []
    ensures done + [args[0]] + args[1..] == done + args
  {
  }

  /** All arguments that are complete show, and nothing that is not printed. */
  lemma {:induction false} ShownBetween(form: Form, done: Args, args: Args, tail: string, u: string)
    requires StreamForm(form) && StreamArgs(form, args) && u <= PrintArgs(form, args, tail)
    ensures OpenDump(done) <= ShownArgs(form, done, args, u) <= OpenDump(done + args)
    decreases |args|
  {
    hide *;
    OpenPrefix(done, args);
    if args == [] {
      ShownNone(form, done, u);
    } else {
      Regroup(done, args);
      StreamRest(form, args);
      OpenPrefix(done, [args[0]]);
      OpenPrefix(done + [args[0]], args[1..]);
      PrintArgsIs(form, args, tail);
      StageIs(form, args[0], PrintArgs(form, args[1..], tail), u);
      var s := StageOf(form, args[0], u);
      if s.Past? {
        ShownPast(form, done, args, u);
        ShownBetween(form, done + [args[0]], args[1..], tail, s.rest);
      } else {
        FirstBetween(form, done, args, tail, u);
      }
    }
  }

  /** What shows of the arguments only grows. */
  lemma {:induction false} ShownArgsGrow(form: Form, done: Args, args: Args, tail: string, u: string, t: string)
    requires StreamForm(form) && StreamArgs(form, args) && u <= t <= PrintArgs(form, args, tail)
    ensures ShownArgs(form, done, args, u) <= ShownArgs(form, done, args, t)
    decreases |args|
  {
    hide *;
    if args == [] {
      ShownNone(form, done, u);
      ShownNone(form, done, t);
    } else {
      StreamRest(form, args);
      PrintArgsIs(form, args, tail);
      StageIs(form, args[0], PrintArgs(form, args[1..], tail), u);
      StageIs(form, args[0], PrintArgs(form, args[1..], tail), t);
      StagesFollow(form, args[0], u, t);
      var s, r := StageOf(form, args[0], u), StageOf(form, args[0], t);
      if s.Past? {
        ShownPast(form, done, args, u);
        ShownPast(form, done, args, t);
        ShownArgsGrow(form, done + [args[0]], args[1..], tail, s.rest, r.rest);
      } else if r.Past? {
        ShownPast(form, done, args, t);
        FirstBetween(form, done, args, tail, u);
        ShownBetween(form, done + [args[0]], args[1..], tail, r.rest);
      } else {
        FirstGrows(form, done, args, tail, u, t);
      }
    }
  }

  lemma FirstGrows(form: Form, done: Args, args: Args, tail: string, u: string, t: string)
    requires StreamForm(form) && args != [] && StreamArg(form, args[0]) && u <= t <= PrintArgs(form, args, tail)
    requires !StageOf(form, args[0], u).Past? && !StageOf(form, args[0], t).Past?
    ensures ShownArgs(form, done, args, u) <= ShownArgs(form, done, args, t)
  {
    var (key, value) := args[0];
    PrintArgsIs(form, args, tail);
    StageIs(form, args[0], PrintArgs(form, args[1..], tail), u);
    StageIs(form, args[0], PrintArgs(form, args[1..], tail), t);
    StagesFollow(form, args[0], u, t);
    var s, r := StageOf(form, args[0], u), StageOf(form, args[0], t);
    FirstBetween(form, done, args, tail, t);
    var x := if s.InValue? then Trimmed(form, Visible(s.part, form.valEnd)) else "";
    var y := if r.InValue? then Trimmed(form, Visible(r.part, form.valEnd)) else "";
    hide OpenDump, ShownKey, ShownValue, StageOf, Visible, Trimmed, PrintArgs, CleanForm, CleanArg;
    if s.InKey? {
      VisibleInside(s.part, key, form.keyValSep);
      var v := Visible(s.part, form.keyValSep);
      if r.InKey? {
        VisibleGrows(s.part, r.part, key, form.keyValSep);
        VisibleInside(r.part, key, form.keyValSep);
        KeyStage(done, v, Visible(r.part, form.keyValSep), key);
      } else {
        KeyStage(done, v, v, key);
      }
    }
    if r.InValue? {
      VisibleInside(r.part, value, form.valEnd);
      TrimmedGrows(form, Visible(r.part, form.valEnd), value);
      TrimmedWhole(form, args[0]);
      if s.InValue? {
        VisibleGrows(s.part, r.part, value, form.valEnd);
        TrimmedGrows(form, Visible(s.part, form.valEnd), Visible(r.part, form.valEnd));
      }
      ValueStage(done, key, x, y, value);
    }
  }

  // ---------- calls ----------

  /** From where on a name is known to have ended, behind the tool start. */
  function NameEnd(form: Form, c: Call): nat {
    |c.name| + if AllSpace(form.toolSep) then |form.toolSep| else 0
  }

  /** The arguments shown of a call of which `u` has arrived, behind its tool start: none before the name is
      known to have ended. */
  function ShownBody(form: Form, c: Call, u: string): Option<string> {
    if |u| <= NameEnd(form, c) then None
    else
      var from := |c.name| + |form.toolSep|;
      Some(ShownArgs(form, [], c.args, if |u| < from then "" else u[from..]))
  }

  /** What a call is printed as, behind the tool start. */
  function BodyText(form: Form, c: Call): string {
    (c.name + form.toolSep) + PrintArgs(form, c.args, form.toolEnd)
  }

  function CallText(form: Form, c: Call): string {
    form.toolStart + BodyText(form, c)
  }

  lemma PrintCallIs(form: Form, c: Call, rest: string)
    ensures PrintCall(form, c, rest) == CallText(form, c) + rest
  {
    hide PrintArgs;
    PrintArgsTail(form, c.args, form.toolEnd, rest);
    var args := PrintArgs(form, c.args, form.toolEnd);
    assert c.name + (form.toolSep + (args + rest)) == (c.name + form.toolSep) + args + rest;
    assert form.toolStart + (BodyText(form, c) + rest) == form.toolStart + BodyText(form, c) + rest;
  }

  lemma {:induction false} PrintArgsTail(form: Form, args: Args, tail: string, rest: string)
    ensures PrintArgs(form, args, tail + rest) == PrintArgs(form, args, tail) + rest
    decreases |args|
  {
    if args != [] {
      hide PrintArgs;
      PrintArgsIs(form, args, tail + rest);
      PrintArgsIs(form, args, tail);
      PrintArgsTail(form, args[1..], tail, rest);
      var a, b, c, d, e := form.keyStart, args[0].0 + form.keyValSep, GapText(form), args[0].1 + form.valEnd,
        PrintArgs(form, args[1..], tail);
      assert a + (b + (c + (d + (e + rest)))) == a + (b + (c + (d + e))) + rest;
    } else {
      assert PrintArgs(form, args, tail + rest) == tail + rest && PrintArgs(form, args, tail) == tail;
    }
  }

  /** The calls shown when `u` has arrived of the printed calls: those that are complete, and the open one
      once its name is known. */
  function ShownCalls(form: Form, calls: seq<Call>, u: string): seq<ToolCall>
    decreases |calls|
  {
    if calls == [] then []
    else
      var c, n := calls[0], |CallText(form, calls[0])|;
      if |u| >= n then [ToolCall(c.name, Dump(c.args), "")] + ShownCalls(form, calls[1..], u[n..])
      else if |u| < |form.toolStart| then []
      else
        match ShownBody(form, c, u[|form.toolStart|..])
        case None => []
        case Some(a) => [ToolCall(c.name, a, "")]
  }

  function CallsText(form: Form, calls: seq<Call>): string {
    if calls == [] then "" else CallText(form, calls[0]) + CallsText(form, calls[1..])
  }

  /** Calls already shown stay, and the last of them only grows. */
  predicate CallsGrow(a: seq<ToolCall>, b: seq<ToolCall>) {
    |a| <= |b| && (a != [] ==> a[..|a| - 1] == b[..|a| - 1] && CallExtends(a[|a| - 1], b[|a| - 1]))
  }

  lemma ShownBodyGrows(form: Form, c: Call, u: string, t: string)
    requires StreamForm(form) && StreamCall(form, c) && u <= t <= BodyText(form, c)
    ensures var x, y := ShownBody(form, c, u), ShownBody(form, c, t);
      && (x.Some? ==> y.Some? && x.value <= y.value)
      && (y.Some? ==> y.value <= OpenDump(c.args))
  {
    hide StreamForm, CleanCall, CleanArg, ShownArgs, PrintArgs, OpenDump;
    assert StreamArgs(form, c.args);
    var lead, args := c.name + form.toolSep, PrintArgs(form, c.args, form.toolEnd);
    var v, w := if |u| < |lead| then "" else u[|lead|..], if |t| < |lead| then "" else t[|lead|..];
    assert [] + c.args == c.args;
    if |t| >= |lead| {
      Dropped(lead, args, t);
      if |u| >= |lead| {
        Dropped(lead, args, u);
      }
    }
    assert v <= w <= args;
    ShownBetween(form, [], c.args, form.toolEnd, w);
    ShownArgsGrow(form, [], c.args, form.toolEnd, v, w);
  }

  lemma OpenDumpClosed(args: Args)
    ensures OpenDump(args) <= Dump(args)
  {
    assert Dump(args) == OpenDump(args) + "}";
  }

  /** What shows of printed calls only grows as the text arrives. */
  lemma {:induction false} ShownCallsGrow(form: Form, calls: seq<Call>, u: string, t: string)
    requires StreamForm(form) && (forall i :: 0 <= i < |calls| ==> StreamCall(form, calls[i]))
    requires u <= t <= CallsText(form, calls)
    ensures CallsGrow(ShownCalls(form, calls, u), ShownCalls(form, calls, t))
    decreases |calls|
  {
    var n := if calls == [] then 0 else |CallText(form, calls[0])|;
    if calls != [] && |u| < n {
      FirstShownGrows(form, calls, u, t);
    } else if calls != [] {
      var c, text := calls[0], CallText(form, calls[0]);
      hide StreamForm, StreamCall, ShownBody, BodyText, CallText, Dump, OpenDump;
      Dropped(text, CallsText(form, calls[1..]), t);
      ShownCallsGrow(form, calls[1..], u[n..], t[n..]);
      OneMore(ToolCall(c.name, Dump(c.args), ""), ShownCalls(form, calls[1..], u[n..]),
              ShownCalls(form, calls[1..], t[n..]));
    }
  }

  /** While the first call is not complete, it is the last that shows. */
  lemma FirstShownGrows(form: Form, calls: seq<Call>, u: string, t: string)
    requires StreamForm(form) && calls != [] && StreamCall(form, calls[0])
    requires u <= t <= CallsText(form, calls) && |u| < |CallText(form, calls[0])|
    ensures CallsGrow(ShownCalls(form, calls, u), ShownCalls(form, calls, t))
  {
    var c, text, k := calls[0], CallText(form, calls[0]), |form.toolStart|;
    hide StreamForm, StreamCall, ShownBody, BodyText, Dump, OpenDump;
    if |u| >= k {
      Begun(text, CallsText(form, calls[1..]), u);
      Dropped(form.toolStart, BodyText(form, c), u);
      if |t| >= |text| {
        Dropped(text, CallsText(form, calls[1..]), t);
        ShownBodyGrows(form, c, u[k..], u[k..]);
        OpenDumpClosed(c.args);
      } else {
        Begun(text, CallsText(form, calls[1..]), t);
        Dropped(form.toolStart, BodyText(form, c), t);
        ShownBodyGrows(form, c, u[k..], t[k..]);
      }
    }
  }

  lemma OneMore(x: ToolCall, a: seq<ToolCall>, b: seq<ToolCall>)
    requires CallsGrow(a, b)
    ensures CallsGrow([x] + a, [x] + b)
  {
    if a != [] {
      assert ([x] + a)[..|a|] == [x] + a[..|a| - 1] && ([x] + b)[..|a|] == [x] + b[..|a| - 1];
    }
  }
}
