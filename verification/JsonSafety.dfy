/** What healing guarantees: a document that keeps the text up to where the marker goes in. */
module JsonSafety {
  import opened Text
  import Utf8
  import opened JsonText
  import opened JsonErrors
  import opened JsonBytes
  import opened JsonTrials
  import opened JsonUnicode
  import opened JsonHealing

  /** A marker that may stand in a string as it is. */
  ghost predicate PlainMarker(m: string) {
    Unescaped(m) && Utf8.ValidUtf8(m)
  }

  lemma MarkerRuns(open: seq<Kind>, e: Expect, m: string)
    requires PlainMarker(m)
    ensures Run(State(open, e, InStr(Plain)), m) == State(open, e, InStr(Plain))
  {
    PlainTextIsUtf8(m);
    StrRuns(open, e, Plain, m);
  }

  /** A string begun and closed with the marker in it completes the document. */
  lemma Completed(base: string, open: seq<Kind>, e: Expect, marker: string, end: string, text: string)
    requires Run(START, base) == State(open, e, InStr(Plain)) && PlainMarker(marker)
    requires (open != [] || !ExpectsKey(e)) && end == if ExpectsKey(e) then "\": 1" else "\""
    requires text == base + marker + end + CloseOf(open)
    ensures CanParse(text)
  {
    hide *;
    var s, rest := State(open, e, InStr(Plain)), if ExpectsKey(e) then ": 1" else "";
    var tail := ['"'] + (rest + CloseOf(open));
    Regrouped(base, marker, end, rest, CloseOf(open));
    RunConcat(START, base, marker + tail);
    RunConcat(s, marker, tail);
    MarkerRuns(open, e, marker);
    StrEnds(open, e, rest + CloseOf(open));
    EndRuns(open, e, rest);
    EndDone(text);
  }

  lemma Regrouped(base: string, marker: string, end: string, rest: string, close: string)
    requires end == "\"" + rest
    ensures base + marker + end + close == base + (marker + (['"'] + (rest + close)))
  {
  }

  lemma EndDone(text: string)
    requires Run(START, text) == Done([])
    ensures CanParse(text)
  {
  }

  /** Up to `k` the text is kept and followed by the marker, what is dropped is at most a number or a
      word, the containers are the same, and the result is a document. */
  predicate Keeps(str: string, marker: string, h: Outcome, k: nat) {
    && k <= |str| && h.Healed?
    && str[..k] + h.dumpMarker <= h.text && EndsWith(h.dumpMarker, marker)
    && ScalarText(str[k..])
    && Run(START, str).State? && Run(START, str[..k]).State? && Run(START, str[..k]).open == Run(START, str).open
    && CanParse(h.text)
  }

  predicate IsMisled(str: string) {
    var s := Run(START, str);
    s.State? && s.lex.InStr? && Misled(str, s.lex.str)
  }

  /** The text stops in a string where the padding does not help. */
  predicate IsUnfilled(str: string) {
    var s := Run(START, str);
    s.State? && s.lex.InStr? && Unfilled(str, s.lex.str)
  }

  /** The text with something put behind it. */
  lemma Inserted(str: string, insert: string, marker: string, end: string, e: Expect, open: seq<Kind>, h: Outcome)
    requires Run(START, str).State? && Run(START, str).open == open && PlainMarker(marker)
    requires Run(Run(START, str), insert) == State(open, e, InStr(Plain))
    requires (open != [] || !ExpectsKey(e)) && end == if ExpectsKey(e) then "\": 1" else "\""
    requires h == Parsed(str + (insert + marker) + end + CloseOf(open), insert + marker)
    ensures Keeps(str, marker, h, |str|)
  {
    var close := CloseOf(open);
    var text := str + (insert + marker) + end + close;
    hide *;
    RunConcat(START, str, insert);
    InsertedText(str, insert, marker, end, close);
    Completed(str + insert, open, e, marker, end, text);
    ParsedIs(text, insert + marker);
    KeptWhole(str, insert, marker, text);
  }

  lemma InsertedText(str: string, insert: string, marker: string, end: string, close: string)
    ensures str + (insert + marker) + end + close == (str + insert) + marker + end + close
    ensures str + (insert + marker) <= str + (insert + marker) + end + close
  {
  }

  lemma ParsedIs(text: string, dumpMarker: string)
    requires CanParse(text)
    ensures Parsed(text, dumpMarker) == Healed(text, dumpMarker)
  {
  }

  /** Nothing is dropped. */
  lemma KeptWhole(str: string, insert: string, marker: string, text: string)
    requires Run(START, str).State? && str + (insert + marker) <= text && CanParse(text)
    ensures Keeps(str, marker, Healed(text, insert + marker), |str|)
  {
    hide Run, CanParse;
    assert str[..|str|] == str && str[|str|..] == "";
    assert (insert + marker)[|insert|..] == marker;
  }

  lemma CutKept(str: string, marker: string, e: Expect, i: nat, h: Outcome)
    requires var s := Run(START, str);
      && s.State? && s.open != [] && PlainMarker(marker) && i < |str| && ExpectsValue(e)
      && Run(START, str[..i + 1]) == State(s.open, e, Idle) && ScalarText(str[i + 1..])
      && h == Parsed(str[..i + 1] + ("\"" + marker) + "\"" + CloseOf(s.open), "\"" + marker)
    ensures Keeps(str, marker, h, i + 1)
  {
    hide *;
    var s, base := Run(START, str), str[..i + 1];
    var text := base + ("\"" + marker) + "\"" + CloseOf(s.open);
    ValueIsNoKey(e);
    QuoteRuns(s.open, e);
    RunConcat(START, base, "\"");
    assert text == (base + "\"") + marker + "\"" + CloseOf(s.open);
    Completed(base + "\"", s.open, e, marker, "\"", text);
    assert base + ("\"" + marker) <= text;
    QuotedEnds(marker);
    KeepsIf(str, marker, text, "\"" + marker, h, i + 1);
  }

  lemma ValueIsNoKey(e: Expect)
    ensures ExpectsValue(e) ==> !ExpectsKey(e)
  {
  }

  lemma QuotedEnds(marker: string)
    ensures EndsWith("\"" + marker, marker)
  {
    assert ("\"" + marker)[1..] == marker;
  }

  lemma KeepsIf(str: string, marker: string, text: string, dump: string, h: Outcome, k: nat)
    requires h == Parsed(text, dump) && CanParse(text) && k <= |str|
    requires str[..k] + dump <= text && EndsWith(dump, marker) && ScalarText(str[k..])
    requires Run(START, str).State? && Run(START, str[..k]).State? && Run(START, str[..k]).open == Run(START, str).open
    ensures Keeps(str, marker, h, k)
  {
    hide Run, CanParse, ScalarText;
  }

  lemma QuoteRuns(open: seq<Kind>, e: Expect)
    requires ExpectsValue(e) || ExpectsKey(e)
    ensures Run(State(open, e, Idle), "\"") == State(open, e, InStr(Plain))
  {
    RunFirst(State(open, e, Idle), '"', "");
    assert ['"'] + "" == "\"";
  }

  lemma TwoRuns(open: seq<Kind>)
    ensures Run(State(open, Colon, Idle), ":\"") == State(open, Value, InStr(Plain))
    ensures open != [] ==>
              var e := if Top(open) == Arr then Value else NextKey;
              Run(Done(open), ",\"") == State(open, e, InStr(Plain))
  {
    assert ":\"" == [':'] + "\"" && ",\"" == [','] + "\"";
    RunFirst(State(open, Colon, Idle), ':', "\"");
    RunFirst(Done(open), ',', "\"");
    QuoteRuns(open, Value);
    QuoteRuns(open, NextKey);
  }

  /** In a string. */
  lemma StringKept(str: string, marker: string)
    requires var s := Run(START, str); s.State? && s.open != [] && s.lex.InStr?
    requires PlainMarker(marker) && !IsUnfilled(str)
    ensures Keeps(str, marker, Mended(str, marker, Run(START, str)), |str|)
  {
    var s := Run(START, str);
    var st, e, open := s.lex.str, s.next, s.open;
    var end := if ExpectsKey(e) then "\": 1" else "\"";
    var insert := if st == Plain then "" else if st == Esc then "\\" else Padding(str);
    RunGood(START, str);
    RunEnds(str);
    StringOpens(s);
    StringGood(s);
    MendedString(str, marker);
    hide *;
    if st == Plain {
      NothingRuns(s);
    } else if st == Esc {
      EscRuns(open, e);
    } else {
      PaddingFills(str, open, e, st);
    }
    Inserted(str, insert, marker, end, e, open, Mended(str, marker, s));
  }

  lemma NothingRuns(s: State)
    ensures Run(s, "") == s
  {
  }

  lemma EscRuns(open: seq<Kind>, e: Expect)
    ensures Run(State(open, e, InStr(Esc)), "\\") == State(open, e, InStr(Plain))
  {
    StrStepped(open, e, Esc, '\\', "");
    assert ['\\'] + "" == "\\";
  }

  lemma MendedString(str: string, marker: string)
    requires var s := Run(START, str); s.State? && s.open != [] && s.lex.InStr? && !IsUnfilled(str)
    ensures var s := Run(START, str);
      var st, end := s.lex.str, if ExpectsKey(s.next) then "\": 1" else "\"";
      var insert := if st == Plain then "" else if st == Esc then "\\" else Padding(str);
      Mended(str, marker, s) == Parsed(str + (insert + marker) + end + CloseOf(s.open), insert + marker)
  {
    hide Run, CloseOf, Parsed, CutBack, Padding, Unfilled;
    assert "" + marker == marker;
  }

  /** Between tokens. */
  lemma IdleKept(str: string, marker: string)
    requires var s := Run(START, str);
      s.State? && s.open != [] && s.lex == Idle && !(s.next == AfterValue && MaybeNumber(str))
    requires PlainMarker(marker)
    ensures Keeps(str, marker, Mended(str, marker, Run(START, str)), |str|)
  {
    var s := Run(START, str);
    var e, open := s.next, s.open;
    hide CanParse, CloseOf, MaybeNumber, Keeps, Parsed, Run, PlainMarker, Step;
    assert s == State(open, e, Idle);
    TwoRuns(open);
    var m := Mended(str, marker, s);
    if e == Colon {
      Inserted(str, ":\"", marker, "\"", Value, open, m);
    } else if e == AfterValue {
      var item := Top(open) == Arr;
      Inserted(str, ",\"", marker, if item then "\"" else "\": 1", if item then Value else NextKey, open, m);
    } else {
      QuoteRuns(open, e);
      Inserted(str, "\"", marker, if ExpectsKey(e) then "\": 1" else "\"", e, open, m);
    }
  }

  lemma MendedCut(str: string, marker: string, i: nat)
    requires var s := Run(START, str);
      && s.State? && s.open != [] && LastSeparator(str, Top(s.open)) == Some(i)
      && (s.lex.InNum? || s.lex.InWord? || (s.lex == Idle && s.next == AfterValue && MaybeNumber(str)))
    ensures var s := Run(START, str);
      Mended(str, marker, s) ==
      Parsed(str[..i + 1] + ("\"" + marker) + "\"" + CloseOf(s.open), "\"" + marker)
  {
    hide Run, CloseOf, Parsed, LastSeparator, MaybeNumber;
  }

  /** Whatever the state, the code leaves a document that keeps the text. */
  lemma MendedKeeps(str: string, marker: string)
    requires var s := Run(START, str); s.State? && s.open != []
    requires PlainMarker(marker) && !IsUnfilled(str)
    ensures exists k: nat :: Keeps(str, marker, Mended(str, marker, Run(START, str)), k)
  {
    hide *;
    var s := Run(START, str);
    if s.lex.InStr? {
      StringKept(str, marker);
    } else if s.lex == Idle && !(s.next == AfterValue && MaybeNumber(str)) {
      IdleKept(str, marker);
    } else {
      CutIsRight(str);
      var i := LastSeparator(str, Top(s.open)).value;
      var e :| ExpectsValue(e) && Run(START, str[..i + 1]) == State(s.open, e, Idle);
      MendedCut(str, marker, i);
      CutKept(str, marker, e, i, Mended(str, marker, s));
    }
  }

  // ---------- where the padding does not help ----------

  predicate NoBackslash(s: string) {
    forall k :: 0 <= k < |s| ==> s[k] != '\\'
  }

  lemma {:induction false} CloseNoBackslash(open: seq<Kind>)
    ensures NoBackslash(CloseOf(open))
    decreases |open|
  {
    if open != [] {
      CloseNoBackslash(Pop(open));
    }
  }

  /** The open escape stands at the very end, behind every separator. */
  lemma EscapeEnds(str: string)
    requires IsUnfilled(str) && !InCharacter(str)
    ensures exists p: nat :: p < |str| && str[p] == '\\' && forall j: nat :: p <= j < |str| ==> str[j] !in ":,["
  {
    RunEnds(str);
    RunGood(START, str);
    var st := Run(START, str).lex.str;
    hide Run, PartialUnicode, IsHighSurrogate;
    if st.Hex? {
      DigitsEnd(str, "", st.ds);
    } else {
      DigitsEnd(str, "\\u" + st.ds, st.es);
    }
  }

  lemma DigitsEnd(str: string, before: string, ds: string)
    requires EndsWith(str, before + "\\u" + ds) && AllHex(ds)
    ensures exists p: nat :: p < |str| && str[p] == '\\' && forall j: nat :: p <= j < |str| ==> str[j] !in ":,["
  {
    var x, p := "\\u" + ds, |str| - |ds| - 2;
    EndOf(str, before, x) by { assert before + x == before + "\\u" + ds; }
    assert str[p..] == x;
    forall j: nat | p <= j < |str| ensures str[j] == x[j - p] && str[j] !in ":,[" {
      assert str[j] == str[p..][j - p];
      assert j - p >= 2 ==> HexDigit(ds[j - p - 2]);
    }
    assert str[p] == x[0] == '\\';
  }

  /** In an escape the code cuts at a separator that precedes it, and loses the string, or finds none. */
  lemma EscapeLoses(str: string, marker: string, k: nat)
    requires IsUnfilled(str) && !InCharacter(str) && Run(START, str).open != [] && PlainMarker(marker)
    ensures !Keeps(str, marker, Mended(str, marker, Run(START, str)), k)
  {
    hide *;
    IsUnfilledRuns(str);
    var s := Run(START, str);
    var h, close, top := Mended(str, marker, s), CloseOf(s.open), Top(s.open);
    EscapeEnds(str);
    CloseNoBackslash(s.open);
    var p: nat :| p < |str| && str[p] == '\\' && forall j: nat :: p <= j < |str| ==> str[j] !in ":,[";
    MendedUnfilled(str, marker);
    CutBackIs(str, top, marker, close);
    KeepsMeans(str, marker, h, k);
    if Keeps(str, marker, h, k) {
      BehindBackslash(str, k, p);
      CutHasNone(str, marker, LastSeparator(str, top).value, close, h, k, p);
    }
  }

  lemma IsUnfilledRuns(str: string)
    requires IsUnfilled(str)
    ensures Run(START, str).State?
  {
  }

  lemma KeepsMeans(str: string, marker: string, h: Outcome, k: nat)
    ensures Keeps(str, marker, h, k) ==>
              && k <= |str| && h.Healed? && str[..k] + h.dumpMarker <= h.text && ScalarText(str[k..])
              && CanParse(h.text)
  {
  }

  lemma CutBackIs(str: string, top: Kind, marker: string, close: string)
    ensures var h, i := CutBack(str, top, marker, close), LastSeparator(str, top);
      h.Healed? ==>
        && i.Some? && i.value < |str| && str[i.value] in ":,["
        && h.text == str[..i.value + 1] + ("\"" + marker) + "\"" + close
        && h.dumpMarker == "\"" + marker
  {
    hide Run, CanParse;
  }

  lemma BehindBackslash(str: string, k: nat, p: nat)
    requires k <= |str| && p < |str| && str[p] == '\\'
    ensures ScalarText(str[k..]) ==> p < k
  {
    if k <= p {
      assert str[k..][p - k] == '\\' && !ScalarChar('\\');
    }
  }

  lemma MendedUnfilled(str: string, marker: string)
    requires IsUnfilled(str) && Run(START, str).open != []
    ensures Mended(str, marker, Run(START, str)) ==
            CutBack(str, Top(Run(START, str).open), marker, CloseOf(Run(START, str).open))
  {
    hide Run, CutBack, CloseOf, Padding, PartialUnicode;
  }

  lemma CutHasNone(str: string, marker: string, i: nat, close: string, h: Outcome, k: nat, p: nat)
    requires PlainMarker(marker) && NoBackslash(close)
    requires i < p < k <= |str| && str[p] == '\\' && h.Healed?
    requires h.text == str[..i + 1] + ("\"" + marker) + "\"" + close
    ensures !(str[..k] + h.dumpMarker <= h.text)
  {
    var tail := ("\"" + marker) + "\"" + close;
    assert h.text == str[..i + 1] + tail && NoBackslash(tail);
    if p < |h.text| {
      assert h.text[p] == tail[p - i - 1] != '\\' == (str[..k] + h.dumpMarker)[p];
    }
  }

  /** The last byte of a text that stops within a character is no part of a number or word. */
  lemma CharacterEnds(str: string, k: nat)
    requires InCharacter(str) && k < |str|
    ensures !ScalarText(str[k..])
  {
    RunEnds(str);
    assert !ScalarChar(str[k..][|str| - 1 - k]);
  }

  /** No quote may follow a character that is not complete. */
  lemma CharacterBroken(str: string, more: string, text: string)
    requires InCharacter(str) && more != "" && more[0] == '"' && str + more <= text
    ensures !CanParse(text)
  {
    var s, rest := Run(START, str), text[|str|..];
    assert text == str + rest && rest[0] == (str + more)[|str|] == '"';
    RunConcat(START, str, rest);
    assert StrStep(s.lex.str, '"').None?;
    RunFails(rest[1..]);
  }

  /** Within a character, nothing that keeps the text is a document. */
  lemma CharacterLoses(str: string, marker: string, k: nat)
    requires InCharacter(str) && Run(START, str).open != [] && PlainMarker(marker)
    ensures !Keeps(str, marker, Mended(str, marker, Run(START, str)), k)
  {
    hide *;
    CharacterUnfilled(str);
    var s := Run(START, str);
    var h := Mended(str, marker, s);
    MendedUnfilled(str, marker);
    CutBackIs(str, Top(s.open), marker, CloseOf(s.open));
    KeepsMeans(str, marker, h, k);
    if k < |str| {
      CharacterEnds(str, k);
    } else if Keeps(str, marker, h, k) {
      assert str[..k] == str;
      CharacterBroken(str, h.dumpMarker, h.text);
    }
  }

  lemma CharacterUnfilled(str: string)
    requires InCharacter(str)
    ensures IsUnfilled(str) && Run(START, str).State?
  {
  }

  /** Mending a text keeps it up to the place where the marker goes in, dropping at most an unfinished
      number or word, if and only if the padding helps where it stops. */
  lemma MendingIsRight(str: string, marker: string)
    requires Run(START, str).State? && Run(START, str).open != [] && PlainMarker(marker)
    ensures (exists k: nat :: Keeps(str, marker, Mended(str, marker, Run(START, str)), k)) <==> !IsUnfilled(str)
  {
    hide *;
    if IsUnfilled(str) {
      forall k: nat
        ensures !Keeps(str, marker, Mended(str, marker, Run(START, str)), k)
      {
        if InCharacter(str) {
          CharacterLoses(str, marker, k);
        } else {
          EscapeLoses(str, marker, k);
        }
      }
    } else {
      MendedKeeps(str, marker);
    }
  }

  // ---------- truncations of a document ----------

  lemma DoomedStep(s: State, c: char)
    requires s.State? && s.lex.InStr? && Doomed(s.lex.str)
    ensures var t := Step(s, c); t.State? ==> t.lex.InStr? && Doomed(t.lex.str)
  {
    var st := s.lex.str;
    if st.Hex? {
      assert (st.ds + [c])[0] == st.ds[0] && (st.ds + [c])[1] == st.ds[1];
    } else {
      LowFirst(st.es, [c]);
    }
  }

  lemma LowFirst(a: string, b: string)
    ensures LowDigits(a + b) ==> LowDigits(a)
  {
    assert forall k :: 0 <= k < |a| ==> (a + b)[k] == a[k];
  }

  lemma {:induction false} DoomedFails(s: State, rest: string)
    requires s.State? && s.lex.InStr? && Doomed(s.lex.str)
    ensures AtEnd(Run(s, rest)) != Done([])
    decreases |rest|
  {
    if rest != "" {
      DoomedStep(s, rest[0]);
      if Step(s, rest[0]).State? {
        DoomedFails(Step(s, rest[0]), rest[1..]);
      } else {
        RunFails(rest[1..]);
      }
    }
  }

  /** The beginning of a document is not doomed: it is misled, or stops within a character. */
  lemma TruncationUnfilled(str: string, rest: string)
    requires CanParse(str + rest)
    ensures IsUnfilled(str) <==> IsMisled(str) || InCharacter(str)
  {
    RunConcat(START, str, rest);
    var s := Run(START, str);
    if s.State? && s.lex.InStr? && Doomed(s.lex.str) {
      DoomedFails(s, rest);
    }
  }

  predicate InContainer(str: string) {
    var s := Run(START, str);
    s.State? && s.open != []
  }

  /** Healing a document cut off within a container gives a document that keeps the text up to the place
      where the marker goes in, dropping at most an unfinished number or word, if and only if the end of
      the text does not mislead the code about a surrogate, and utf8_truncate_safe would keep all of it. */
  lemma HealingIsRight(str: string, rest: string, marker: string)
    requires CanParse(str + rest) && InContainer(str)
    requires marker != "" && PlainMarker(marker)
    ensures (exists k: nat :: Keeps(str, marker, Plan(str, marker), k)) <==>
            !IsMisled(str) && Utf8.TruncateSafe(str) == |str|
  {
    TruncationRuns(str, rest);
    TruncationUnfilled(str, rest);
    InCharacterIff(str);
    PlanMends(str, marker);
    hide *;
    ContainerRuns(str);
    MendingIsRight(str, marker);
  }

  lemma ContainerRuns(str: string)
    requires InContainer(str)
    ensures Run(START, str).State? && Run(START, str).open != []
  {
  }

  lemma PlanMends(str: string, marker: string)
    requires InContainer(str) && marker != ""
    ensures Plan(str, marker) == Mended(str, marker, Run(START, str))
  {
    PlanStopped(str, marker);
    hide Run, Mended, Plan;
  }

  // ---------- outside all containers ----------

  /** Outside all containers a string cut off is completed, behind a backslash too, and nothing else is. */
  lemma RootHealing(str: string, marker: string)
    requires Run(START, str).State? && Run(START, str).open == [] && !CanParse(str)
    requires marker != "" && PlainMarker(marker)
    ensures var s, h := Run(START, str), Plan(str, marker);
      && (h.Healed? <==> s.lex == InStr(Plain) || s.lex == InStr(Esc))
      && (h.Healed? ==> Keeps(str, marker, h, |str|))
      && (!h.Healed? ==> h == Refused)
  {
    var s := Run(START, str);
    RunGood(START, str);
    RootKinds(s);
    StringOpens(s);
    PlanStopped(str, marker);
    RootedIs(str, marker);
    hide *;
    RootForms(str, marker);
    if s.lex == InStr(Plain) {
      NothingRuns(s);
      Inserted(str, "", marker, "\"", s.next, [], Plan(str, marker));
      KeepsMeans(str, marker, Plan(str, marker), |str|);
    } else if s.lex == InStr(Esc) {
      EscRuns([], s.next);
      Inserted(str, "\\", marker, "\"", s.next, [], Plan(str, marker));
      KeepsMeans(str, marker, Plan(str, marker), |str|);
    }
  }

  lemma RootForms(str: string, marker: string)
    ensures "" + marker == marker && str + marker + "\"" == str + ("" + marker) + "\"" + CloseOf([])
    ensures str + ("\\" + marker) + "\"" == str + ("\\" + marker) + "\"" + CloseOf([])
  {
  }

  // ---------- what a cut comes to ----------

  /** Directly behind a separator a value is expected, in these containers. */
  predicate Resumes(b: State, open: seq<Kind>) {
    b.State? && b.lex == Idle && ExpectsValue(b.next) && b.open == open
  }

  lemma {:induction false} ClosesOwn(a: seq<Kind>, o: seq<Kind>)
    ensures AtEnd(Run(Done(a), CloseOf(o))) == Done([]) <==> a == o
    decreases |o|
  {
    if o != [] {
      var rest := CloseOf(Pop(o));
      BracketCloses(a, Top(o));
      RunFirst(Done(a), Bracket(Top(o)), rest);
      hide Run, Step, AtEnd, Bracket;
      if a != [] && Top(a) == Top(o) {
        ClosesOwn(Pop(a), Pop(o));
        assert a == Pop(a) + [Top(a)] && o == Pop(o) + [Top(o)];
      } else {
        RunFails(rest);
        FailEnds();
      }
    }
  }

  lemma BracketCloses(a: seq<Kind>, k: Kind)
    ensures Step(Done(a), Bracket(k)) == if a != [] && Top(a) == k then Done(Pop(a)) else Fail
  {
  }

  lemma FailEnds()
    ensures AtEnd(Fail) != Done([])
  {
  }

  /** What a separator leaves the parser in. */
  lemma SeparatorSteps(s: State, c: char)
    requires Good(s) && c in ":,["
    ensures var t := Step(s, c);
      t.State? ==> t.lex == InStr(Plain) || (t.lex == Idle && (ExpectsValue(t.next) || t.next == NextKey))
  {
    if s.State? && s.lex.InStr? {
      assert s.lex.str != Plain ==> StrStep(s.lex.str, c).None?;
    } else if s.State? && s.lex.InWord? {
      assert 'a' <= s.lex.rest[0] <= 'z';
    } else if s.State? && s.lex.InNum? {
      assert NumStep(s.lex.num, c).None?;
    }
  }

  lemma {:induction false} UnescapedNoQuotes(m: string)
    requires Unescaped(m)
    ensures NoQuotes(m)
  {
  }

  /** The marker between quotes, in a state that expects a value or a key. */
  lemma QuotedRuns(open: seq<Kind>, e: Expect, marker: string, rest: string)
    requires (ExpectsValue(e) || ExpectsKey(e)) && PlainMarker(marker)
    ensures Run(State(open, e, Idle), ['"'] + (marker + (['"'] + rest))) == Run(EndString(open, e), rest)
  {
    MarkerRuns(open, e, marker);
    QuoteRuns(open, e);
    hide *;
    assert "\"" == ['"'];
    RunConcat(State(open, e, Idle), "\"", marker + (['"'] + rest));
    RunConcat(State(open, e, InStr(Plain)), marker, ['"'] + rest);
    StrEnds(open, e, rest);
  }

  /** The text left by a cut is a document if and only if a value was expected there in the containers that
      are then closed. */
  lemma CutParses(base: string, c: char, marker: string, o: seq<Kind>)
    requires PlainMarker(marker) && base != "" && base[|base| - 1] == c && c in ":,[" && o != []
    ensures CanParse(base + (['"'] + (marker + (['"'] + CloseOf(o))))) <==> Resumes(Run(START, base), o)
  {
    var before, tail := base[..|base| - 1], ['"'] + (marker + (['"'] + CloseOf(o)));
    assert base == before + [c];
    RunLast(START, before, c);
    RunGood(START, base);
    RunGood(START, before);
    RunConcat(START, base, tail);
    var b := Run(START, base);
    hide Run, Good, Step, CloseOf;
    if b.Fail? {
      RunFails(tail);
    } else {
      SeparatorSteps(Run(START, before), c);
      if b.lex == Idle {
        QuotedRuns(b.open, b.next, marker, CloseOf(o));
        if ExpectsValue(b.next) {
          ClosesOwn(b.open, o);
        } else {
          ColonMissing(b.open, o);
        }
      } else {
        StringEndsEarly(b.open, b.next, marker, CloseOf(o)) by { assert Good(b); CloseNoQuotes(o); }
      }
    }
  }

  lemma ColonMissing(a: seq<Kind>, o: seq<Kind>)
    requires o != []
    ensures Run(State(a, Colon, Idle), CloseOf(o)) == Fail
  {
    RunFirst(State(a, Colon, Idle), Bracket(Top(o)), CloseOf(Pop(o)));
    RunFails(CloseOf(Pop(o)));
  }

  /** In a string, the first quote ends it and the second begins one that does not end. */
  lemma StringEndsEarly(open: seq<Kind>, e: Expect, marker: string, close: string)
    requires Good(State(open, e, InStr(Plain))) && Unescaped(marker) && NoQuotes(close)
    ensures AtEnd(Run(State(open, e, InStr(Plain)), ['"'] + (marker + (['"'] + close)))) != Done([])
  {
    UnescapedNoQuotes(marker);
    EndGood(open, e);
    hide Run;
    StrEnds(open, e, marker + (['"'] + close));
    OneQuote(EndString(open, e), marker, close);
  }

  lemma EndGood(open: seq<Kind>, e: Expect)
    requires Good(State(open, e, InStr(Plain)))
    ensures Good(EndString(open, e)) && EndString(open, e).State? && !EndString(open, e).lex.InStr?
  {
  }

  /** A cut gives a document exactly when a value was expected at the last separator, in the containers
      that are then closed; otherwise the code throws. */
  lemma CutIsTold(str: string, open: seq<Kind>, marker: string)
    requires open != [] && PlainMarker(marker)
    ensures var i := LastSeparator(str, Top(open));
      CutBack(str, Top(open), marker, CloseOf(open)) ==
      if i.Some? && Resumes(Run(START, str[..i.value + 1]), open)
      then Healed(str[..i.value + 1] + ("\"" + marker) + "\"" + CloseOf(open), "\"" + marker)
      else Throws
  {
    var i := LastSeparator(str, Top(open));
    if i.Some? {
      var base := str[..i.value + 1];
      hide Run, CanParse, CloseOf, Resumes, LastSeparator;
      assert base + ("\"" + marker) + "\"" + CloseOf(open) == base + (['"'] + (marker + (['"'] + CloseOf(open))));
      CutParses(base, str[i.value], marker, open);
    }
  }

  predicate InString(text: string) {
    var s := Run(START, text);
    s.State? && s.lex.InStr?
  }

  /** The string that is open at the end began with the quote at `q`. */
  predicate StringSince(str: string, q: nat) {
    && q < |str| && str[q] == '"' && Run(START, str).State?
    && Run(START, str[..q]) == State(Run(START, str).open, Run(START, str).next, Idle)
    && forall k: nat :: q < k <= |str| ==> InString(str[..k])
  }

  lemma IntoString(s: State, c: char)
    requires Step(s, c).State? && Step(s, c).lex.InStr?
    ensures var t := Step(s, c);
      && s.State? && s.open == t.open && s.next == t.next
      && (s.lex.InStr? || (c == '"' && s == State(t.open, t.next, Idle)))
  {
  }

  lemma {:induction false} StringBegins(str: string) returns (q: nat)
    requires InString(str)
    ensures StringSince(str, q)
    decreases |str|
  {
    assert str != "";
    var before, c := str[..|str| - 1], str[|str| - 1];
    assert str == before + [c] && str[..|str|] == str;
    RunLast(START, before, c);
    IntoString(Run(START, before), c);
    if Run(START, before).lex.InStr? {
      q := StringBegins(before);
      assert forall k: nat :: k < |str| ==> str[..k] == before[..k];
    } else {
      q := |before|;
    }
  }

  /** No separator of the innermost container stands in the text. */
  predicate NoneIn(s: string, k: Kind) {
    forall j :: 0 <= j < |s| ==> !Separator(k, s[j])
  }

  lemma {:induction false} LastSeparatorWithin(s: string, k: Kind, q: nat)
    requires q <= |s|
    ensures NoneIn(s[q..], k) ==> LastSeparator(s, k) == LastSeparator(s[..q], k)
    ensures !NoneIn(s[q..], k) ==> LastSeparator(s, k).Some? && q <= LastSeparator(s, k).value
    decreases |s|
  {
    if q == |s| {
      assert s[..q] == s && s[q..] == "";
    } else {
      var t := s[..|s| - 1];
      assert s[q..] == t[q..] + [s[|s| - 1]] && s[..q] == t[..q];
      assert NoneIn(s[q..], k) <==> NoneIn(t[q..], k) && !Separator(k, s[|s| - 1]) by {
        assert s[q..][|s| - 1 - q] == s[|s| - 1];
        assert forall j :: 0 <= j < |t[q..]| ==> t[q..][j] == s[q..][j];
      }
      LastSeparatorWithin(t, k, q);
    }
  }

  /** At the last separator before the string a value was expected, in the same containers. */
  lemma CutBeforeString(str: string, q: nat)
    requires InContainer(str) && StringSince(str, q) && ExpectsValue(Run(START, str).next)
    ensures var open := Run(START, str).open;
      var i := LastSeparator(str[..q], Top(open));
      && i.Some? && i.value < q && ScalarText(str[i.value + 1..q])
      && Resumes(Run(START, str[..i.value + 1]), open)
  {
    var s, before := Run(START, str), str[..q];
    assert AtValue(Run(START, before));
    RunValueSince(before);
    hide Run, LastSeparator, ScalarText;
    var i := LastSeparator(before, Top(s.open)).value;
    assert before[..i + 1] == str[..i + 1] && before[i + 1..] == str[i + 1..q];
  }

  lemma CutInString(str: string, q: nat, i: nat)
    requires StringSince(str, q) && q <= i < |str|
    ensures !Resumes(Run(START, str[..i + 1]), Run(START, str).open)
  {
    hide Run;
    assert InString(str[..i + 1]);
  }

  /** What becomes of a string value that stops where the padding does not help: when no separator has
      been read in it, it is replaced by the marker; otherwise the code throws. */
  lemma UnfilledValue(str: string, marker: string, q: nat)
    requires InContainer(str) && IsUnfilled(str) && StringSince(str, q) && ExpectsValue(Run(START, str).next)
    requires marker != "" && PlainMarker(marker)
    ensures var s := Run(START, str);
      var i := LastSeparator(str[..q], Top(s.open));
      && i.Some? && ScalarText(str[i.value + 1..q])
      && Plan(str, marker) ==
         if NoneIn(str[q..], Top(s.open))
         then Healed(str[..i.value + 1] + ("\"" + marker) + "\"" + CloseOf(s.open), "\"" + marker)
         else Throws
  {
    hide *;
    ContainerRuns(str);
    var top := Top(Run(START, str).open);
    PlanMends(str, marker);
    MendedUnfilled(str, marker);
    CutIsTold(str, Run(START, str).open, marker);
    StringStarts(str, q);
    LastSeparatorWithin(str, top, q);
    CutBeforeString(str, q);
    if !NoneIn(str[q..], top) {
      CutInString(str, q, LastSeparator(str, top).value);
    }
  }

  lemma StringStarts(str: string, q: nat)
    ensures StringSince(str, q) ==> q < |str|
  {
  }

  // ---------- an error before the end ----------

  /** When the parser fails within a token, or at a token of one character, or not at all, the text is treated
      as if it stopped there. */
  lemma AsIfStopped(input: string, marker: string)
    requires ErrorAt(input) == Taken(START, input)
    ensures Run(START, input[..ErrorAt(input)]).State?
    ensures Plan(input, marker) == Plan(input[..ErrorAt(input)], marker)
  {
    var str := input[..ErrorAt(input)];
    ErrorIs(input);
    PlanStopped(str, marker);
    if Run(START, input).State? {
      assert str == input;
    } else {
      NotParsed(input);
      hide Run, Mended, ErrorAt, Taken, CutBack, Rooted, CanParse;
    }
  }

  /** So what stands before the error is kept up to the place where the marker goes in, dropping at most an
      unfinished number or word, if and only if the padding helps there. */
  lemma ErrorIsHealed(input: string, marker: string)
    requires ErrorAt(input) == Taken(START, input) && InContainer(input[..ErrorAt(input)])
    requires marker != "" && PlainMarker(marker)
    ensures var str := input[..ErrorAt(input)];
      (exists k: nat :: Keeps(str, marker, Plan(input, marker), k)) <==> !IsUnfilled(str)
  {
    var str := input[..ErrorAt(input)];
    hide *;
    AsIfStopped(input, marker);
    PlanMends(str, marker);
    ContainerRuns(str);
    MendingIsRight(str, marker);
  }

  lemma NotParsed(input: string)
    requires Run(START, input).Fail?
    ensures !CanParse(input)
  {
  }

  /** When a longer token may not stand where it stands, what is read ends within it, and is no beginning of a
      document. */
  lemma PlanWithin(input: string, marker: string)
    requires ErrorAt(input) > Taken(START, input) && marker != ""
    ensures var str, s := input[..ErrorAt(input)], Run(START, input[..Taken(START, input)]);
      && s.State?
      && Plan(input, marker) == if s.open == [] then Refused else CutBack(str, Top(s.open), marker, CloseOf(s.open))
  {
    var str := input[..ErrorAt(input)];
    ErrorIs(input);
    NotParsed(input);
    NotParsed(str);
    RootedIs(str, marker);
    hide Run, Mended, ErrorAt, Taken, CutBack, Rooted, CanParse, CloseOf;
  }

  lemma NothingResumes(input: string, m: nat, open: seq<Kind>)
    requires Taken(START, input) < m <= |input|
    ensures !Resumes(Run(START, input[..m]), open)
  {
    TakenRuns(START, input);
    FailsBeyond(input, Taken(START, input), m);
    hide Run, Step;
  }

  /** Then no trial helps, and the text is cut. It gives a document exactly when the last separator was read
      before that token, with a value expected behind it in the containers open at the error; otherwise the
      code throws, or outside all containers returns false. */
  lemma TokenIsCut(input: string, marker: string)
    requires ErrorAt(input) > Taken(START, input) && marker != "" && PlainMarker(marker)
    ensures Run(START, input[..Taken(START, input)]).State?
    ensures var str, open := input[..ErrorAt(input)], Run(START, input[..Taken(START, input)]).open;
      if open == [] then Plan(input, marker) == Refused
      else
        var i := LastSeparator(str, Top(open));
        Plan(input, marker) ==
        if i.Some? && i.value < Taken(START, input) && Resumes(Run(START, str[..i.value + 1]), open)
        then Healed(str[..i.value + 1] + ("\"" + marker) + "\"" + CloseOf(open), "\"" + marker)
        else Throws
  {
    var str, n := input[..ErrorAt(input)], Taken(START, input);
    PlanWithin(input, marker);
    hide *;
    var open := Run(START, input[..n]).open;
    forall m: nat | n < m <= |str| ensures !Resumes(Run(START, str[..m]), open) {
      assert str[..m] == input[..m];
      NothingResumes(input, m, open);
    }
    if open != [] {
      CutWithin(str, n, open, marker);
    }
  }

  /** A cut behind which nothing resumes gives no document. */
  lemma CutWithin(str: string, n: nat, open: seq<Kind>, marker: string)
    requires open != [] && PlainMarker(marker)
    requires forall m: nat :: n < m <= |str| ==> !Resumes(Run(START, str[..m]), open)
    ensures var i := LastSeparator(str, Top(open));
      CutBack(str, Top(open), marker, CloseOf(open)) ==
      if i.Some? && i.value < n && Resumes(Run(START, str[..i.value + 1]), open)
      then Healed(str[..i.value + 1] + ("\"" + marker) + "\"" + CloseOf(open), "\"" + marker)
      else Throws
  {
    hide Run, Resumes, LastSeparator, CutBack, CloseOf;
    CutIsTold(str, open, marker);
  }

  /** A word where a comma must stand: what is read of it stands in the text that is cut. */
  const STRAY := "[1 true]"

  lemma StraySteps()
    ensures Step(START, '[') == State([Arr], FirstItem, Idle)
    ensures Step(State([Arr], FirstItem, Idle), '1') == State([Arr], FirstItem, InNum(Int))
    ensures Step(State([Arr], FirstItem, InNum(Int)), ' ') == Done([Arr]) && Step(Done([Arr]), 't') == Fail
  {
    assert [] + [Arr] == [Arr];
  }

  lemma StrayTaken()
    ensures Taken(START, STRAY) == 3 && Run(START, "[1 ") == Done([Arr])
      && Run(START, "[") == State([Arr], FirstItem, Idle)
  {
    assert STRAY[..1] == "[" && STRAY[..3] == "[1 ";
    hide *;
    StraySteps();
    NothingTaken(STRAY);
    TakenStep(STRAY, 0, START);
    TakenStep(STRAY, 1, State([Arr], FirstItem, Idle));
    TakenStep(STRAY, 2, State([Arr], FirstItem, InNum(Int)));
    TakenStep(STRAY, 3, Done([Arr]));
  }

  lemma StrayRead()
    ensures TokenRead("true]") == 3
  {
    assert "true]"[1..] == "rue]" && "rue]"[1..] == "ue]" && "ue]"[1..] == "e]" && "rue"[1..] == "ue"
      && "ue"[1..] == "e";
    assert WordRead("e", "e]") == 0 && WordRead("ue", "ue]") == 1 && WordRead("rue", "rue]") == 2;
  }

  lemma StraySeparator()
    ensures LastSeparator("[1 tru", Arr) == Some(0)
  {
    assert "[1 tru"[..5] == "[1 tr" && "[1 tr"[..4] == "[1 t" && "[1 t"[..3] == "[1 " && "[1 "[..2] == "[1"
      && "[1"[..1] == "[";
    assert LastSeparator("[1 ", Arr) == LastSeparator("[1", Arr) == LastSeparator("[", Arr) == Some(0);
    assert LastSeparator("[1 tru", Arr) == LastSeparator("[1 tr", Arr) == LastSeparator("[1 t", Arr);
  }

  lemma StrayError()
    ensures ErrorAt(STRAY) == 6 && STRAY[..6] == "[1 tru" && STRAY[..1] == "[" && STRAY[..3] == "[1 "
  {
    StrayTaken();
    StrayRead();
    assert STRAY[..3] == "[1 " && STRAY[3..] == "true]";
    hide Run, Taken, TokenRead;
  }

  lemma CutToFirst(str: string, o: seq<Kind>, marker: string)
    requires o != [] && PlainMarker(marker) && str != ""
    requires LastSeparator(str, Top(o)) == Some(0) && Resumes(Run(START, str[..1]), o)
    ensures CutBack(str, Top(o), marker, CloseOf(o))
            == Healed(str[..1] + ("\"" + marker) + "\"" + CloseOf(o), "\"" + marker)
  {
    hide *;
    CutIsTold(str, o, marker);
  }

  /** A word where a comma must stand costs the value before it. */
  lemma StrayHeals(marker: string)
    requires marker != "" && PlainMarker(marker)
    ensures ErrorAt(STRAY) == 6
    ensures Plan(STRAY, marker) == Healed("[" + ("\"" + marker) + "\"" + "]", "\"" + marker)
  {
    assert Top([Arr]) == Arr && Resumes(State([Arr], FirstItem, Idle), [Arr]) && Done([Arr]).open == [Arr];
    assert "[1 tru"[..1] == "[";
    hide *;
    StrayTaken();
    StrayError();
    StraySeparator();
    ArrayCloses();
    PlanWithin(STRAY, marker);
    CutToFirst("[1 tru", [Arr], marker);
  }

  /** A string with a comma, and one without, stopped within a character of two bytes. */
  const BROKEN := "[\"a,\U{C3}"
  const DROPPED := "[\"a\U{C3}"

  const REST := "\U{A9}\"]"

  lemma BrokenBegins()
    ensures Run(START, "[\"a") == State([Arr], FirstItem, InStr(Plain)) == Run(START, "[\"a,")
  {
    var o := [Arr];
    var value := State(o, FirstItem, InStr(Plain));
    assert [] + [Arr] == o && Step(START, '[') == State(o, FirstItem, Idle);
    hide Run, Step;
    QuoteRuns(o, FirstItem);
    assert "[\"a" == ['['] + ("\"" + "a") && "[\"a," == "[\"a" + ",";
    RunFirst(START, '[', "\"" + "a");
    RunConcat(State(o, FirstItem, Idle), "\"", "a");
    assert "a" == ['a'] + "" && "," == [','] + "";
    NothingRuns(value);
    StrStepped(o, FirstItem, Plain, 'a', "");
    RunConcat(START, "[\"a", ",");
    StrStepped(o, FirstItem, Plain, ',', "");
  }

  lemma BrokenStops(text: string)
    requires Run(START, text) == State([Arr], FirstItem, InStr(Plain))
    ensures Run(START, text + "\U{C3}") == State([Arr], FirstItem, InStr(Multi(0x80, 0xBF, 0)))
    ensures CanParse(text + "\U{C3}" + REST)
  {
    var o, m := [Arr], Multi(0x80, 0xBF, 0);
    hide *;
    CharacterSteps(m);
    assert "\U{C3}" == ['\U{C3}'] + "" && REST == ['\U{A9}'] + (['"'] + "]");
    NothingRuns(State(o, FirstItem, InStr(m)));
    RunConcat(START, text, "\U{C3}");
    StrStepped(o, FirstItem, Plain, '\U{C3}', "");
    RunConcat(START, text + "\U{C3}", REST);
    StrStepped(o, FirstItem, m, '\U{A9}', ['"'] + "]");
    StrEnds(o, FirstItem, "]");
    ArrayCloses();
    EndDone(text + "\U{C3}" + REST);
  }

  lemma CharacterSteps(m: StrState)
    requires m == Multi(0x80, 0xBF, 0)
    ensures StrStep(Plain, '\U{C3}') == Some(m) && StrStep(m, '\U{A9}') == Some(Plain)
  {
  }

  lemma ArrayCloses()
    ensures CloseOf([Arr]) == "]" && Run(EndString([Arr], FirstItem), "]") == Done([])
  {
    CloseRuns([Arr]);
    assert Pop([Arr]) == [] && CloseOf([]) == "";
  }

  /** The text stops within a character, and nothing else is wrong with it. */
  lemma BrokenIs(text: string, str: string)
    requires Run(START, text) == State([Arr], FirstItem, InStr(Plain)) && str == text + "\U{C3}"
    ensures CanParse(str + REST) && InContainer(str) && !IsMisled(str) && IsUnfilled(str)
    ensures Utf8.TruncateSafe(str) < |str|
  {
    BrokenStops(text);
    InCharacterIff(str);
    hide Run, CanParse, Utf8.TruncateSafe, FollowsHigh;
  }

  lemma BrokenSince(str: string)
    requires str == BROKEN || str == DROPPED
    requires Run(START, str) == State([Arr], FirstItem, InStr(Multi(0x80, 0xBF, 0)))
    ensures StringSince(str, 1)
  {
    var q := StringBegins(str);
    assert q == 1;
  }

  lemma BrokenSeparators()
    ensures !NoneIn(BROKEN[1..], Arr) && NoneIn(DROPPED[1..], Arr)
    ensures LastSeparator(DROPPED[..1], Arr) == Some(0) && DROPPED[..1] == "["
    ensures Top([Arr]) == Arr && ExpectsValue(FirstItem)
  {
    assert BROKEN[1..][2] == ',';
  }

  /** Cut off within a character behind a comma, a document makes the code throw. */
  lemma BrokenThrows(marker: string)
    requires marker != "" && PlainMarker(marker)
    ensures CanParse(BROKEN + REST) && !IsMisled(BROKEN) && Utf8.TruncateSafe(BROKEN) < |BROKEN|
    ensures Plan(BROKEN, marker) == Throws
  {
    var text := "[\"a,";
    assert BROKEN == text + "\U{C3}";
    hide *;
    BrokenBegins();
    BrokenStops(text);
    BrokenIs(text, BROKEN);
    BrokenSince(BROKEN);
    BrokenSeparators();
    UnfilledValue(BROKEN, marker, 1);
  }

  /** Without the comma the string is lost. */
  lemma DroppedHeals(marker: string)
    requires marker != "" && PlainMarker(marker)
    ensures CanParse(DROPPED + REST) && !IsMisled(DROPPED) && Utf8.TruncateSafe(DROPPED) < |DROPPED|
    ensures Plan(DROPPED, marker) == Healed("[" + ("\"" + marker) + "\"" + "]", "\"" + marker)
  {
    var text := "[\"a";
    assert DROPPED == text + "\U{C3}" && DROPPED[..0 + 1] == DROPPED[..1];
    hide *;
    BrokenBegins();
    BrokenStops(text);
    BrokenIs(text, DROPPED);
    BrokenSince(DROPPED);
    BrokenSeparators();
    ArrayCloses();
    UnfilledValue(DROPPED, marker, 1);
  }

  // ---------- an escape that misleads ----------

  /** A key of an escaped backslash and "ud8", cut off behind the next \u. */
  const MISLEADING := "{\"\\\\ud8\\u"

  lemma MisleadingRuns()
    ensures Run(START, MISLEADING) == State([Obj], FirstKey, InStr(Hex("")))
  {
    var o := [Obj];
    assert MISLEADING == ['{'] + (['"'] + "\\\\ud8\\u");
    FirstSteps();
    hide *;
    RunFirst(START, '{', ['"'] + "\\\\ud8\\u");
    RunFirst(State(o, FirstKey, Idle), '"', "\\\\ud8\\u");
    KeyRuns(o);
  }

  lemma FirstSteps()
    ensures Step(START, '{') == State([Obj], FirstKey, Idle)
    ensures Step(State([Obj], FirstKey, Idle), '"') == State([Obj], FirstKey, InStr(Plain))
  {
    assert [] + [Obj] == [Obj];
  }

  lemma KeyRuns(o: seq<Kind>)
    ensures Run(State(o, FirstKey, InStr(Plain)), "\\\\ud8\\u") == State(o, FirstKey, InStr(Hex("")))
  {
    hide Run, Step;
    assert "\\\\ud8\\u" == ['\\'] + (['\\'] + (['u'] + (['d'] + (['8'] + (['\\'] + (['u'] + ""))))));
    StrStepped(o, FirstKey, Plain, '\\', ['\\'] + (['u'] + (['d'] + (['8'] + (['\\'] + (['u'] + ""))))));
    StrStepped(o, FirstKey, Esc, '\\', ['u'] + (['d'] + (['8'] + (['\\'] + (['u'] + "")))));
    StrStepped(o, FirstKey, Plain, 'u', ['d'] + (['8'] + (['\\'] + (['u'] + ""))));
    StrStepped(o, FirstKey, Plain, 'd', ['8'] + (['\\'] + (['u'] + "")));
    StrStepped(o, FirstKey, Plain, '8', ['\\'] + (['u'] + ""));
    StrStepped(o, FirstKey, Plain, '\\', ['u'] + "");
    StrStepped(o, FirstKey, Esc, 'u', "");
    NothingRuns(State(o, FirstKey, InStr(Hex(""))));
  }

  lemma {:induction false} NoSeparators(s: string, k: Kind)
    requires forall j :: 0 <= j < |s| ==> !Separator(k, s[j])
    ensures LastSeparator(s, k) == None
  {
    if s != "" {
      NoSeparators(s[..|s| - 1], k);
    }
  }

  lemma MisleadingMisleads()
    ensures Misled(MISLEADING, Hex("")) && LastSeparator(MISLEADING, Obj) == None
  {
    var before := "{\"\\\\ud8";
    assert MISLEADING[..7] == before && before[3..] == "\\u" + "d8";
    PartialUnicodeIs(before, "d8");
    assert before[3..][2] == 'd' && before[3..][3] == '8';
    NoSeparators(MISLEADING, Obj);
  }

  /** It is the beginning of a document. */
  lemma MisleadingGoesOn()
    ensures CanParse(MISLEADING + ("0041\"" + ": 1}"))
  {
    var o, e, more := [Obj], FirstKey, "\"" + ": 1}";
    assert "0041\"" + ": 1}" == ['0'] + (['0'] + (['4'] + (['1'] + more))) && more == ['"'] + ": 1}";
    hide *;
    MisleadingRuns();
    DigitSteps();
    RunConcat(START, MISLEADING, "0041\"" + ": 1}");
    StrStepped(o, e, Hex(""), '0', ['0'] + (['4'] + (['1'] + more)));
    StrStepped(o, e, Hex("0"), '0', ['4'] + (['1'] + more));
    StrStepped(o, e, Hex("00"), '4', ['1'] + more);
    StrStepped(o, e, Hex("004"), '1', more);
    StrEnds(o, e, ": 1}");
    ObjectCloses();
    EndDone(MISLEADING + ("0041\"" + ": 1}"));
  }

  lemma DigitSteps()
    ensures StrStep(Hex(""), '0') == Some(Hex("0")) && StrStep(Hex("0"), '0') == Some(Hex("00"))
    ensures StrStep(Hex("00"), '4') == Some(Hex("004")) && StrStep(Hex("004"), '1') == Some(Plain)
  {
    assert "" + ['0'] == "0" && "0" + ['0'] == "00" && "00" + ['4'] == "004" && "004" + ['1'] == "0041";
  }

  lemma ObjectCloses()
    ensures Run(EndString([Obj], FirstKey), ": 1}") == Done([])
  {
    hide Run;
    EndRuns([Obj], FirstKey, ": 1");
    assert Pop([Obj]) == [] && CloseOf([]) == "" && CloseOf([Obj]) == "}";
    assert ": 1" + "}" == ": 1}";
  }

  /** The code is misled, and throws, although the text stops at a whole character. */
  lemma MisledThrows(marker: string)
    requires marker != ""
    ensures CanParse(MISLEADING + ("0041\"" + ": 1}")) && Utf8.TruncateSafe(MISLEADING) == |MISLEADING|
    ensures IsMisled(MISLEADING) && Plan(MISLEADING, marker) == Throws
  {
    MisleadingGoesOn();
    MisleadingRuns();
    MisleadingMisleads();
    LastIsAscii();
    hide Run, PartialUnicode, IsHighSurrogate, LastSeparator, Mended, Plan, Misled, CanParse, Utf8.TruncateSafe;
    assert Top([Obj]) == Obj;
    MendedUnfilled(MISLEADING, marker);
    CutBackIs(MISLEADING, Obj, marker, CloseOf([Obj]));
    PlanMends(MISLEADING, marker);
  }

  lemma LastIsAscii()
    ensures Utf8.TruncateSafe(MISLEADING) == |MISLEADING|
  {
    assert MISLEADING[|MISLEADING| - 1] == 'u';
  }
}
