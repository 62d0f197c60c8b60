/** The end of a text cut off within a \u escape, and the characters that make the escape whole. */
module JsonUnicode {
  import opened Text
  import opened JsonText
  import opened JsonTrials

  // ---------- what the code looks for at the end ----------

  /** How many hexadecimal digits the text ends with. */
  function HexTail(s: string): (n: nat)
    ensures n <= |s|
  {
    if s == "" || !HexDigit(s[|s| - 1]) then 0 else 1 + HexTail(s[..|s| - 1])
  }

  /** Where a possibly partial \u escape starts that reaches to the end: \u and up to four digits. */
  function PartialUnicode(s: string): (p: Option<nat>)
    ensures p.Some? ==> p.value + 2 <= |s| <= p.value + 6
  {
    var n := HexTail(s);
    if n <= 4 && n + 2 <= |s| && s[|s| - n - 2..|s| - n] == "\\u" then Some(|s| - n - 2) else None
  }

  predicate IsHighSurrogate(s: string) {
    |s| >= 4 && s[0] == '\\' && s[1] == 'u' && IsD(s[2]) && HighSecond(s[3])
  }

  function Zeros(n: nat): (z: string)
    ensures |z| == n
  {
    if n == 0 then "" else ['0'] + Zeros(n - 1)
  }

  /** What precedes `p` looks like a high surrogate, perhaps partial. */
  predicate FollowsHigh(s: string, p: nat)
    requires p <= |s|
  {
    PartialUnicode(s[..p]).Some? && IsHighSurrogate(s[PartialUnicode(s[..p]).value..p])
  }

  /** unicode_marker_padding. */
  function Padding(s: string): string {
    match PartialUnicode(s)
    case None => "udc00"
    case Some(p) =>
      var n := |s| - p;
      if IsHighSurrogate(s[p..]) then Zeros(6 - n) + "\\udc00"
      else if FollowsHigh(s, p) && n == 2 then "dc00"
      else if FollowsHigh(s, p) && n == 3 then "c00"
      else Zeros(6 - n)
  }

  // ---------- what a string state says about the end ----------

  predicate EndsRight(s: string, st: StrState) {
    match st
    case Plain => true
    case Multi(_, _, _) => s != "" && s[|s| - 1] as int >= 0x80
    case Esc => EndsWith(s, "\\")
    case Hex(ds) => EndsWith(s, "\\u" + ds)
    case High(ds) => EndsWith(s, "\\u" + ds)
    case HighEsc(ds) => EndsWith(s, "\\u" + ds + "\\")
    case Low(ds, es) => EndsWith(s, "\\u" + ds + "\\u" + es)
  }

  lemma EndsMore(s: string, x: string, c: char)
    requires EndsWith(s, x)
    ensures EndsWith(s + [c], x + [c])
  {
    assert (s + [c])[|s| - |x|..] == s[|s| - |x|..] + [c];
  }

  lemma EndsStep(s: string, st: StrState, c: char)
    requires EndsRight(s, st) && StrStep(st, c).Some?
    ensures EndsRight(s + [c], StrStep(st, c).value)
  {
    var t := StrStep(st, c).value;
    match st
    case Plain =>
      if t == Esc {
        EndsMore(s, "", c);
        assert "" + [c] == "\\";
      }
    case Multi(_, _, _) =>
    case Esc =>
      if t.Hex? {
        EndsMore(s, "\\", c);
        assert "\\" + [c] == "\\u" + "";
      }
    case Hex(ds) =>
      EndsMore(s, "\\u" + ds, c);
      assert "\\u" + ds + [c] == "\\u" + (ds + [c]);
    case High(ds) =>
      EndsMore(s, "\\u" + ds, c);
      assert "\\u" + ds + [c] == "\\u" + ds + "\\";
    case HighEsc(ds) =>
      EndsMore(s, "\\u" + ds + "\\", c);
      assert "\\u" + ds + "\\" + [c] == "\\u" + ds + "\\u" + "";
    case Low(ds, es) =>
      EndsMore(s, "\\u" + ds + "\\u" + es, c);
      assert "\\u" + ds + "\\u" + es + [c] == "\\u" + ds + "\\u" + (es + [c]);
  }

  lemma {:induction false} RunEnds(s: string)
    ensures Run(START, s).State? && Run(START, s).lex.InStr? ==> EndsRight(s, Run(START, s).lex.str)
    decreases |s|
  {
    if s != "" {
      var before, c := s[..|s| - 1], s[|s| - 1];
      assert s == before + [c];
      RunEnds(before);
      RunLast(START, before, c);
      StepEnds(Run(START, before), before, c);
    }
  }

  lemma StepEnds(s: State, text: string, c: char)
    requires s.State? && s.lex.InStr? ==> EndsRight(text, s.lex.str)
    ensures Step(s, c).State? && Step(s, c).lex.InStr? ==> EndsRight(text + [c], Step(s, c).lex.str)
  {
    hide EndsRight;
    PlainEnds(text + [c]);
    if s.State? && s.lex.InStr? && StrStep(s.lex.str, c).Some? {
      EndsStep(text, s.lex.str, c);
    }
  }

  lemma PlainEnds(s: string)
    ensures EndsRight(s, Plain)
  {
  }

  // ---------- the escape found is the one that is open ----------

  lemma {:induction false} HexTailOf(s: string, ds: string)
    requires AllHex(ds) && EndsWith(s, ds) && (|s| > |ds| ==> !HexDigit(s[|s| - |ds| - 1]))
    ensures HexTail(s) == |ds|
    decreases |ds|
  {
    if ds != "" {
      assert s[|s| - 1] == ds[|ds| - 1];
      var t, es := s[..|s| - 1], ds[..|ds| - 1];
      assert t[|t| - |es|..] == s[|s| - |ds|..][..|es|] == es;
      HexTailOf(t, es);
    }
  }

  lemma PartialUnicodeIs(s: string, ds: string)
    requires AllHex(ds) && |ds| <= 4 && EndsWith(s, "\\u" + ds)
    ensures PartialUnicode(s) == Some(|s| - |ds| - 2) && s[|s| - |ds| - 2..] == "\\u" + ds
  {
    var x, p := "\\u" + ds, |s| - |ds| - 2;
    assert s[p..] == x;
    assert s[p + 1] == x[1] == 'u' && !HexDigit('u');
    assert s[p + 2..] == x[2..] == ds;
    HexTailOf(s, ds);
    assert s[p..p + 2] == x[..2] == "\\u";
  }

  lemma NoPartialUnicode(s: string)
    requires EndsWith(s, "\\")
    ensures PartialUnicode(s) == None
  {
    assert s[|s| - 1..] == "\\";
    assert s[|s| - 1] == '\\' && !HexDigit('\\');
    assert HexTail(s) == 0;
    assert |s| >= 2 ==> s[|s| - 2..|s|][1] == '\\';
  }

  // ---------- the padding completes it ----------

  /** Four digits are read, and then it is seen what they are. */
  lemma {:induction false} HexRuns(open: seq<Kind>, e: Expect, ds: string, rest: string)
    requires |ds| + |rest| == 4 && rest != "" && AllHex(ds + rest)
    ensures var all := ds + rest;
      Run(State(open, e, InStr(Hex(ds))), rest) ==
      if LoneLow(all) then Fail else State(open, e, InStr(if HighDigits(all) then High(all) else Plain))
    decreases |rest|
  {
    var ds', c := ds + [rest[0]], rest[0];
    assert c == (ds + rest)[|ds|];
    assert ds + rest == ds' + rest[1..] && rest == [c] + rest[1..];
    StrStepped(open, e, Hex(ds), c, rest[1..]);
    if |rest| > 1 {
      HexRuns(open, e, ds', rest[1..]);
    } else {
      assert ds' == ds + rest && rest[1..] == "";
    }
  }

  lemma {:induction false} LowRuns(open: seq<Kind>, e: Expect, ds: string, es: string, rest: string)
    requires |es| + |rest| == 4 && rest != "" && AllHex(es + rest)
    ensures Run(State(open, e, InStr(Low(ds, es))), rest) ==
            if LowDigits(es + rest) then State(open, e, InStr(Plain)) else Fail
    decreases |rest|
  {
    var es', c := es + [rest[0]], rest[0];
    assert c == (es + rest)[|es|];
    assert es + rest == es' + rest[1..] && rest == [c] + rest[1..];
    StrStepped(open, e, Low(ds, es), c, rest[1..]);
    if |rest| > 1 {
      LowRuns(open, e, ds, es', rest[1..]);
    } else {
      assert es' == es + rest && rest[1..] == "";
    }
  }

  lemma HighFill(open: seq<Kind>, e: Expect, ds: string)
    ensures Run(State(open, e, InStr(High(ds))), "\\udc00") == State(open, e, InStr(Plain))
    ensures Run(State(open, e, InStr(HighEsc(ds))), "udc00") == State(open, e, InStr(Plain))
  {
    HighEscFill(open, e, ds);
    assert "\\udc00" == ['\\'] + "udc00";
    hide Run;
    StrStepped(open, e, High(ds), '\\', "udc00");
  }

  lemma HighEscFill(open: seq<Kind>, e: Expect, ds: string)
    ensures Run(State(open, e, InStr(HighEsc(ds))), "udc00") == State(open, e, InStr(Plain))
  {
    hide Run;
    assert "udc00" == ['u'] + "dc00" && "" + "dc00" == "dc00";
    StrStepped(open, e, HighEsc(ds), 'u', "dc00");
    LowRuns(open, e, ds, "", "dc00");
  }

  /** The code takes the text before a fresh \u, or \ud, for a high surrogate; behind an escaped
      backslash it is none, and the padding then makes a low surrogate that stands alone. */
  predicate Misled(s: string, st: StrState) {
    && st.Hex? && |st.ds| <= 1 && (st.ds == "" || IsD(st.ds[0]))
    && |s| >= |st.ds| + 2 && FollowsHigh(s, |s| - |st.ds| - 2)
  }

  /** The digits read so far are those of no character, whatever follows. */
  predicate Doomed(st: StrState) {
    (st.Hex? && LoneLow(st.ds)) || (st.Low? && !LowDigits(st.es))
  }

  /** What is open at the end is not made whole by the padding. */
  predicate Unfilled(s: string, st: StrState) {
    st.Multi? || Doomed(st) || Misled(s, st)
  }

  lemma {:induction false} ZerosAre(n: nat)
    ensures AllHex(Zeros(n)) && forall k :: 0 <= k < n ==> Zeros(n)[k] == '0'
  {
    if n > 0 {
      ZerosAre(n - 1);
    }
  }

  /** What digits and padding come to. */
  lemma FillLooks(ds: string, pad: string)
    requires |ds| + |pad| == 4 && AllHex(ds) && !HighDigits(ds)
    requires pad == Zeros(4 - |ds|) || (|ds| == 0 && pad == "dc00") || (|ds| == 1 && pad == "c00")
    ensures AllHex(ds + pad) && !HighDigits(ds + pad)
    ensures LoneLow(ds + pad) <==>
            LoneLow(ds) || (pad == "dc00" && ds == "") || (pad == "c00" && |ds| == 1 && IsD(ds[0]))
    ensures LowDigits(ds + pad) <==>
            if pad != Zeros(4 - |ds|) then LowDigits(ds) else |ds| >= 2 && LowDigits(ds)
  {
    FillHex(ds, pad);
    FillLow(ds, pad);
    hide LowDigits;
    ZerosAre(4 - |ds|);
  }

  lemma FillHex(ds: string, pad: string)
    requires |ds| + |pad| == 4 && AllHex(ds) && !HighDigits(ds)
    requires pad == Zeros(4 - |ds|) || (|ds| == 0 && pad == "dc00") || (|ds| == 1 && pad == "c00")
    ensures AllHex(ds + pad) && !HighDigits(ds + pad)
  {
    ZerosAre(4 - |ds|);
    var all := ds + pad;
    assert forall k :: 0 <= k < 4 ==> all[k] == if k < |ds| then ds[k] else pad[k - |ds|];
    assert HexDigit('c') && HexDigit('d') && HexDigit('0');
  }

  lemma FillLow(ds: string, pad: string)
    requires |ds| + |pad| == 4 && AllHex(ds) && AllHex(ds + pad)
    requires pad == Zeros(4 - |ds|) || (|ds| == 0 && pad == "dc00") || (|ds| == 1 && pad == "c00")
    ensures LowDigits(ds + pad) <==>
            if pad != Zeros(4 - |ds|) then LowDigits(ds) else |ds| >= 2 && LowDigits(ds)
  {
    hide AllHex;
    ZerosAre(4 - |ds|);
    var all := ds + pad;
    assert all[0] == if 0 < |ds| then ds[0] else pad[0];
    assert all[1] == if 1 < |ds| then ds[1] else pad[1 - |ds|];
  }

  lemma HexFill(s: string, open: seq<Kind>, e: Expect, ds: string)
    requires |ds| < 4 && AllHex(ds) && EndsWith(s, "\\u" + ds)
    ensures Run(State(open, e, InStr(Hex(ds))), Padding(s)) ==
            if Unfilled(s, Hex(ds)) then Fail else State(open, e, InStr(Plain))
  {
    hide *;
    PartialUnicodeIs(s, ds);
    var from, p, pad := State(open, e, InStr(Hex(ds))), |s| - |ds| - 2, Padding(s);
    PaddingIs(s, p);
    MisledIs(s, ds);
    HighLook(ds);
    if HighDigits(ds) {
      var z := Zeros(4 - |ds|);
      HighStays(ds, z) by { ZerosAre(4 - |ds|); }
      HexRuns(open, e, ds, z);
      RunConcat(from, z, "\\udc00");
      HighFill(open, e, ds + z);
    } else {
      ZeroLooks();
      FillLooks(ds, pad);
      HexRuns(open, e, ds, pad);
    }
  }

  lemma ZeroLooks()
    ensures Zeros(4) != "dc00" && Zeros(3) != "c00"
  {
    ZerosAre(4);
    ZerosAre(3);
    assert "dc00"[0] != '0' && "c00"[0] != '0';
  }

  lemma HighStays(ds: string, z: string)
    requires HighDigits(ds) && AllHex(ds) && AllHex(z)
    ensures HighDigits(ds + z) && AllHex(ds + z) && !LoneLow(ds + z)
  {
  }

  lemma HighLook(ds: string)
    ensures IsHighSurrogate("\\u" + ds) <==> HighDigits(ds)
    ensures HighDigits(ds) ==> |ds| >= 2
  {
    var x := "\\u" + ds;
    assert |x| >= 4 ==> x[2] == ds[0] && x[3] == ds[1];
  }

  lemma PaddingIs(s: string, p: nat)
    requires p <= |s| && PartialUnicode(s) == Some(p)
    ensures var n := |s| - p;
      Padding(s) ==
      if IsHighSurrogate(s[p..]) then Zeros(6 - n) + "\\udc00"
      else if FollowsHigh(s, p) && n == 2 then "dc00"
      else if FollowsHigh(s, p) && n == 3 then "c00"
      else Zeros(6 - n)
  {
  }

  lemma MisledIs(s: string, ds: string)
    requires |s| >= |ds| + 2
    ensures Misled(s, Hex(ds)) <==> |ds| <= 1 && (ds == "" || IsD(ds[0])) && FollowsHigh(s, |s| - |ds| - 2)
    ensures Unfilled(s, Hex(ds)) <==> LoneLow(ds) || Misled(s, Hex(ds))
    ensures HighDigits(ds) ==> |ds| >= 2 && !LoneLow(ds)
    ensures LoneLow(ds) ==> |ds| >= 2
  {
  }

  lemma LowPadding(s: string, open: seq<Kind>, e: Expect, ds: string, es: string)
    requires |ds| == 4 && AllHex(ds) && HighDigits(ds) && |es| < 4 && AllHex(es)
    requires EndsWith(s, "\\u" + ds + "\\u" + es)
    ensures Run(State(open, e, InStr(Low(ds, es))), Padding(s)) ==
            if Unfilled(s, Low(ds, es)) then Fail else State(open, e, InStr(Plain))
  {
    hide *;
    var p, pad := |s| - |es| - 2, Padding(s);
    LowBehindHigh(s, ds, es);
    PaddingIs(s, p);
    HighLook(es);
    LowIs(s, ds, es);
    if HighDigits(es) {
      var z := Zeros(4 - |es|);
      HighStays(es, z) by { ZerosAre(4 - |es|); }
      LowRuns(open, e, ds, es, z);
      RunConcat(State(open, e, InStr(Low(ds, es))), z, "\\udc00");
      RunFails("\\udc00");
      HighIsNoLow(es, z);
    } else {
      ZeroLooks();
      FillLooks(es, pad);
      LowRuns(open, e, ds, es, pad);
    }
  }

  lemma HighIsNoLow(ds: string, z: string)
    ensures HighDigits(ds) ==> !LowDigits(ds + z) && !LowDigits(ds)
  {
    assert |ds| >= 2 ==> (ds + z)[1] == ds[1];
  }

  lemma LowIs(s: string, ds: string, es: string)
    ensures Unfilled(s, Low(ds, es)) <==> !LowDigits(es)
    ensures LowDigits("") && AllHex("")
  {
  }

  /** The digits of a low surrogate stand behind what the code takes for a high one. */
  lemma LowBehindHigh(s: string, ds: string, es: string)
    requires |ds| == 4 && AllHex(ds) && HighDigits(ds) && |es| < 4 && AllHex(es)
    requires EndsWith(s, "\\u" + ds + "\\u" + es)
    ensures var p := |s| - |es| - 2;
      0 <= p && PartialUnicode(s) == Some(p) && FollowsHigh(s, p) && s[p..] == "\\u" + es
  {
    hide PartialUnicode, AllHex, HighDigits, HighSecond;
    var x, y, p := "\\u" + ds, "\\u" + es, |s| - |es| - 2;
    assert x + y == "\\u" + ds + "\\u" + es;
    EndOf(s, x, y);
    PartialUnicodeIs(s, es);
    PartialUnicodeIs(s[..p], ds);
    assert s[p - 6..p] == s[..p][p - 6..] == x;
    HighLook(ds);
  }

  lemma HighPadding(s: string, ds: string)
    requires |ds| == 4 && AllHex(ds) && HighDigits(ds) && EndsWith(s, "\\u" + ds)
    ensures Padding(s) == "\\udc00" && !Unfilled(s, High(ds))
  {
    hide *;
    PartialUnicodeIs(s, ds);
    HighLook(ds);
    PaddingIs(s, |s| - 6);
    NoZeros();
    HighFilled(s, ds);
  }

  lemma NoZeros()
    ensures Zeros(0) + "\\udc00" == "\\udc00"
  {
  }

  lemma HighFilled(s: string, ds: string)
    ensures !Unfilled(s, High(ds))
  {
  }

  lemma NothingFound(s: string)
    requires s != "" && s[|s| - 1] as int >= 0x80
    ensures Padding(s) == "udc00"
  {
    hide IsHighSurrogate, FollowsHigh, Zeros;
    assert HexTail(s) == 0;
    assert |s| >= 2 ==> s[|s| - 2..|s|][1] == s[|s| - 1] != 'u';
    assert PartialUnicode(s) == None;
  }

  /** Behind a byte of a character that is not complete nothing is found, and ASCII does not fit. */
  lemma MultiFails(s: string, open: seq<Kind>, e: Expect, st: StrState)
    requires st.Multi? && EndsRight(s, st)
    ensures Run(State(open, e, InStr(st)), Padding(s)) == Fail
  {
    hide Run, Padding;
    NothingFound(s);
    assert "udc00" == ['u'] + "dc00";
    StrStepped(open, e, st, 'u', "dc00");
  }

  /** The padding makes the open escape whole, so that the string may go on, unless the code is misled, or
      digits or bytes before it leave no way on. */
  lemma PaddingFills(s: string, open: seq<Kind>, e: Expect, st: StrState)
    requires StrGood(st) && st != Plain && st != Esc && EndsRight(s, st)
    ensures Run(State(open, e, InStr(st)), Padding(s)) ==
            if Unfilled(s, st) then Fail else State(open, e, InStr(Plain))
  {
    match st
    case Multi(_, _, _) =>
      MultiFails(s, open, e, st);
    case Hex(ds) =>
      HexFill(s, open, e, ds);
    case High(ds) =>
      HighPadding(s, ds);
      hide *;
      HighFill(open, e, ds);
    case HighEsc(ds) =>
      EndOf(s, "\\u" + ds, "\\");
      NoPartialUnicode(s);
      hide Run, PartialUnicode;
      HighFill(open, e, ds);
    case Low(ds, es) =>
      LowPadding(s, open, e, ds, es);
  }

  lemma {:induction false} ZerosNoQuotes(n: nat)
    ensures NoQuotes(Zeros(n))
  {
    if n > 0 {
      ZerosNoQuotes(n - 1);
    }
  }

  lemma PaddingNoQuotes(s: string)
    ensures NoQuotes(Padding(s))
  {
    hide PartialUnicode, Zeros, IsHighSurrogate;
    FixedNoQuotes();
    if PartialUnicode(s).Some? {
      var z := Zeros(6 - (|s| - PartialUnicode(s).value));
      ZerosNoQuotes(6 - (|s| - PartialUnicode(s).value));
      hide *;
      BothNoQuotes(z, "\\udc00");
      PaddingForms(s);
    } else {
      hide *;
      PaddingForms(s);
    }
  }

  lemma PaddingForms(s: string)
    ensures PartialUnicode(s).None? ==> Padding(s) == "udc00"
    ensures PartialUnicode(s).Some? ==>
              var z := Zeros(6 - (|s| - PartialUnicode(s).value));
              Padding(s) == z + "\\udc00" || Padding(s) == "dc00" || Padding(s) == "c00" || Padding(s) == z
  {
    hide PartialUnicode, Zeros, IsHighSurrogate;
  }

  lemma FixedNoQuotes()
    ensures NoQuotes("udc00") && NoQuotes("dc00") && NoQuotes("c00") && NoQuotes("\\udc00")
  {
  }

  lemma EndOf(s: string, a: string, b: string)
    requires EndsWith(s, a + b)
    ensures EndsWith(s, b) && EndsWith(s[..|s| - |b|], a)
  {
    var x := s[|s| - |a| - |b|..];
    assert s[|s| - |b|..] == x[|a|..] == b;
    assert s[..|s| - |b|][|s| - |b| - |a|..] == x[..|a|] == a;
  }
}
