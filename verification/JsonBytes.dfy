/** The bytes of JSON strings: what the parser lets through is exactly UTF-8, and whether a text stops
    within a character is what utf8_truncate_safe finds out. */
module JsonBytes {
  import opened Text
  import opened Utf8
  import opened JsonText

  /** No control character, quote or backslash. */
  predicate Unescaped(s: string) {
    forall k :: 0 <= k < |s| ==> s[k] >= ' ' && s[k] != '"' && s[k] != '\\'
  }

  // ---------- an encoded text is let through ----------

  lemma StrRunFirst(st: StrState, c: char, rest: string)
    ensures StrRun(st, [c] + rest) ==
            if (st == Plain && c == '"') || StrStep(st, c).None? then None else StrRun(StrStep(st, c).value, rest)
  {
    assert ([c] + rest)[1..] == rest;
  }

  predicate Scalar(cp: CodePoint) {
    !(0xD800 <= cp <= 0xDFFF)
  }

  lemma Steps2(cp: CodePoint)
    requires 0x7F < cp <= 0x7FF
    ensures StrStep(Plain, Lead(0xC0, cp / 64)) == Some(Multi(0x80, 0xBF, 0))
    ensures StrStep(Multi(0x80, 0xBF, 0), Tail(cp)) == Some(Plain)
  {
  }

  lemma Steps3(cp: CodePoint) returns (lo: Continuation, hi: Continuation)
    requires 0x7FF < cp <= 0xFFFF && Scalar(cp)
    ensures StrStep(Plain, Lead(0xE0, cp / 4096)) == Some(Multi(lo, hi, 1))
    ensures StrStep(Multi(lo, hi, 1), Tail(cp / 64)) == Some(Multi(0x80, 0xBF, 0))
    ensures StrStep(Multi(0x80, 0xBF, 0), Tail(cp)) == Some(Plain)
  {
    assert cp / 4096 == cp / 64 / 64;
    var x := cp / 4096;
    lo := if x == 0 then 0xA0 else 0x80;
    hi := if x == 0xD then 0x9F else 0xBF;
  }

  lemma Steps4(cp: CodePoint) returns (lo: Continuation, hi: Continuation)
    requires 0xFFFF < cp
    ensures StrStep(Plain, Lead(0xF0, cp / 262144)) == Some(Multi(lo, hi, 2))
    ensures StrStep(Multi(lo, hi, 2), Tail(cp / 4096)) == Some(Multi(0x80, 0xBF, 1))
    ensures StrStep(Multi(0x80, 0xBF, 1), Tail(cp / 64)) == Some(Multi(0x80, 0xBF, 0))
    ensures StrStep(Multi(0x80, 0xBF, 0), Tail(cp)) == Some(Plain)
  {
    assert cp / 262144 == cp / 4096 / 64;
    var x := cp / 262144;
    lo := if x == 0 then 0x90 else 0x80;
    hi := if x == 4 then 0x8F else 0xBF;
  }

  /** An encoded code point takes the string from plain text to plain text. */
  lemma CharRuns(cp: CodePoint, rest: string)
    requires Scalar(cp) && (cp <= 0x7F ==> Unescaped([cp as char]))
    ensures StrRun(Plain, EncodeChar(cp) + rest) == StrRun(Plain, rest)
  {
    hide StrRun;
    var e := EncodeChar(cp);
    if cp <= 0x7F {
      assert [cp as char][0] == cp as char;
      StrRunFirst(Plain, e[0], rest);
    } else if cp <= 0x7FF {
      Steps2(cp);
      TwoRun(e[0], e[1], rest, Plain, Multi(0x80, 0xBF, 0));
    } else if cp <= 0xFFFF {
      var lo, hi := Steps3(cp);
      TwoRun(e[1], e[2], rest, Multi(lo, hi, 1), Multi(0x80, 0xBF, 0));
      Before(e, rest, Plain, Multi(lo, hi, 1));
    } else {
      var lo, hi := Steps4(cp);
      TwoRun(e[2], e[3], rest, Multi(0x80, 0xBF, 1), Multi(0x80, 0xBF, 0));
      Before(e[1..], rest, Multi(lo, hi, 2), Multi(0x80, 0xBF, 1));
      Before(e, rest, Plain, Multi(lo, hi, 2));
    }
  }

  /** Two bytes that end a character. */
  lemma TwoRun(a: char, b: char, rest: string, s: StrState, t: StrState)
    requires StrStep(s, a) == Some(t) && StrStep(t, b) == Some(Plain) && (s == Plain ==> a != '"') && t != Plain
    ensures StrRun(s, [a, b] + rest) == StrRun(Plain, rest)
  {
    hide StrRun, StrStep;
    assert [a, b] + rest == [a] + ([b] + rest);
    StrRunFirst(s, a, [b] + rest);
    StrRunFirst(t, b, rest);
  }

  /** One byte before others. */
  lemma Before(e: string, rest: string, s: StrState, t: StrState)
    requires e != "" && StrStep(s, e[0]) == Some(t) && (s == Plain ==> e[0] != '"')
    ensures StrRun(s, e + rest) == StrRun(t, e[1..] + rest)
  {
    hide StrRun, StrStep;
    assert e + rest == [e[0]] + (e[1..] + rest);
    StrRunFirst(s, e[0], e[1..] + rest);
  }

  lemma {:induction false} EncodedRuns(cps: seq<CodePoint>)
    requires Scalars(cps) && Unescaped(Encode(cps))
    ensures StrRun(Plain, Encode(cps)) == Some(Plain)
  {
    if cps != [] {
      hide EncodeChar, StrRun, Unescaped;
      var e, rest := EncodeChar(cps[0]), Encode(cps[1..]);
      UnescapedParts(e, rest);
      EncodedRuns(cps[1..]);
      if cps[0] <= 0x7F {
        OneByte(cps[0]);
      }
      CharRuns(cps[0], rest);
    }
  }

  lemma UnescapedParts(a: string, b: string)
    ensures Unescaped(a + b) ==> Unescaped(a) && Unescaped(b)
  {
    assert forall k :: 0 <= k < |a| ==> a[k] == (a + b)[k];
    assert forall k :: 0 <= k < |b| ==> b[k] == (a + b)[|a| + k];
  }

  lemma OneByte(cp: CodePoint)
    requires cp <= 0x7F
    ensures EncodeChar(cp) == [cp as char]
  {
  }

  // ---------- nothing else is ----------

  lemma Continues(lo: Continuation, hi: Continuation, more: nat, s: string)
    requires StrRun(Multi(lo, hi, more), s) == Some(Plain)
    ensures s != "" && lo <= s[0] as int <= hi
    ensures StrRun(if more == 0 then Plain else Multi(0x80, 0xBF, more - 1), s[1..]) == Some(Plain)
  {
  }

  lemma Encodes2(a: char, b: char) returns (cp: CodePoint)
    requires 0xC2 <= a as int <= 0xDF && 0x80 <= b as int <= 0xBF
    ensures Scalar(cp) && EncodeChar(cp) == [a, b]
  {
    var x, y := a as int - 0xC0, b as int - 0x80;
    cp := x * 64 + y;
    assert cp / 64 == x && cp % 64 == y;
  }

  lemma Encodes3(a: char, b: char, c: char) returns (cp: CodePoint)
    requires 0xE0 <= a as int <= 0xEF && 0x80 <= b as int <= 0xBF && 0x80 <= c as int <= 0xBF
    requires a as int == 0xE0 ==> b as int >= 0xA0
    requires a as int == 0xED ==> b as int <= 0x9F
    ensures Scalar(cp) && EncodeChar(cp) == [a, b, c]
  {
    var x, y, z := a as int - 0xE0, b as int - 0x80, c as int - 0x80;
    cp := x * 4096 + y * 64 + z;
    assert cp / 64 == x * 64 + y && cp % 64 == z;
    assert cp / 4096 == x && cp / 64 % 64 == y;
  }

  lemma Encodes4(a: char, b: char, c: char, d: char) returns (cp: CodePoint)
    requires 0xF0 <= a as int <= 0xF4 && 0x80 <= b as int <= 0xBF && 0x80 <= c as int <= 0xBF
      && 0x80 <= d as int <= 0xBF
    requires a as int == 0xF0 ==> b as int >= 0x90
    requires a as int == 0xF4 ==> b as int <= 0x8F
    ensures Scalar(cp) && EncodeChar(cp) == [a, b, c, d]
  {
    var w, x, y, z := a as int - 0xF0, b as int - 0x80, c as int - 0x80, d as int - 0x80;
    cp := w * 262144 + x * 4096 + y * 64 + z;
    assert cp / 64 == w * 4096 + x * 64 + y && cp % 64 == z;
    assert cp / 4096 == w * 64 + x && cp / 64 % 64 == y;
    assert cp / 262144 == w && cp / 4096 % 64 == x;
  }

  /** The first character of a stretch of plain text. */
  lemma FirstChar(s: string) returns (cp: CodePoint, n: nat)
    requires s != "" && Unescaped(s) && StrRun(Plain, s) == Some(Plain)
    ensures 0 < n <= |s| && Scalar(cp) && EncodeChar(cp) == s[..n] && StrRun(Plain, s[n..]) == Some(Plain)
  {
    hide EncodeChar;
    var b := s[0] as int;
    if b < 0x80 {
      cp, n := b, 1;
      OneByte(cp);
      assert s[..1] == [s[0]];
    } else {
      var st := FirstByte(s[0]).value;
      hide StrRun;
      Continues(st.lo, st.hi, st.more, s[1..]) by { assert StrRun(st, s[1..]) == Some(Plain) by { FirstStep(s); } }
      assert s[1..][1..] == s[2..];
      if b < 0xE0 {
        cp := Encodes2(s[0], s[1]);
        n := 2;
        assert s[..2] == [s[0], s[1]];
      } else {
        Continues(0x80, 0xBF, st.more - 1, s[2..]);
        assert s[2..][1..] == s[3..];
        if b < 0xF0 {
          cp := Encodes3(s[0], s[1], s[2]);
          n := 3;
          assert s[..3] == [s[0], s[1], s[2]];
        } else {
          Continues(0x80, 0xBF, 0, s[3..]);
          assert s[3..][1..] == s[4..];
          cp := Encodes4(s[0], s[1], s[2], s[3]);
          n := 4;
          assert s[..4] == [s[0], s[1], s[2], s[3]];
        }
      }
    }
  }

  lemma FirstStep(s: string)
    requires s != "" && Unescaped(s) && StrRun(Plain, s).Some?
    ensures FirstByte(s[0]).Some? && StrRun(FirstByte(s[0]).value, s[1..]) == StrRun(Plain, s)
  {
  }

  lemma {:induction false} PlainIsEncoded(s: string) returns (cps: seq<CodePoint>)
    requires Unescaped(s) && StrRun(Plain, s) == Some(Plain)
    ensures Scalars(cps) && Encode(cps) == s
    decreases |s|
  {
    if s == "" {
      cps := [];
    } else {
      hide EncodeChar, StrRun;
      var cp, n := FirstChar(s);
      var rest := PlainIsEncoded(s[n..]);
      cps := [cp] + rest;
      EncodeCons(cp, rest);
      assert s == s[..n] + s[n..];
    }
  }

  /** Text without escapes keeps a string in plain text if and only if it is valid UTF-8. */
  lemma PlainTextIsUtf8(s: string)
    requires Unescaped(s)
    ensures StrRun(Plain, s) == Some(Plain) <==> ValidUtf8(s)
  {
    if StrRun(Plain, s) == Some(Plain) {
      var cps := PlainIsEncoded(s);
    } else if ValidUtf8(s) {
      var cps :| Scalars(cps) && Encode(cps) == s;
      EncodedRuns(cps);
    }
  }

  // ---------- stopping within a character ----------

  /** The text stops within a character of several bytes. */
  predicate InCharacter(str: string) {
    var s := Run(START, str);
    s.State? && s.lex.InStr? && s.lex.str.Multi?
  }

  /** How many bytes the open character still needs. */
  function Missing(s: State): nat {
    if s.State? && s.lex.InStr? && s.lex.str.Multi? then s.lex.str.more + 1 else 0
  }

  /** The last character of the text lacks so many bytes. */
  predicate LastLacks(s: string, p: nat, missing: nat) {
    && p < |s| && !IsContinuation(s[p]) && (forall k :: p < k < |s| ==> IsContinuation(s[k]))
    && AnnouncedLength(s[p]) == |s| - p + missing <= 4
  }

  /** A character begins or goes on. */
  lemma StepMissing(s: State, c: char)
    requires Good(s) && Step(s, c).State?
    ensures var m, n := Missing(s), Missing(Step(s, c));
      if m == 0 then !IsContinuation(c) && AnnouncedLength(c) == 1 + n <= 4 else IsContinuation(c) && m == n + 1
  {
    hide StrStep;
    if s.lex.InStr? {
      StrMissing(s.lex.str, c);
    } else {
      AsciiOutside(s, c);
    }
  }

  lemma AsciiOutside(s: State, c: char)
    requires Good(s) && Step(s, c).State? && !s.lex.InStr?
    ensures c as int < 0x80 && Missing(Step(s, c)) == 0
  {
    if s.lex.InWord? {
      assert 'a' <= s.lex.rest[0] <= 'z';
    }
  }

  lemma StrMissing(st: StrState, c: char)
    requires StrStep(st, c).Some? || (st == Plain && c == '"')
    ensures st.Multi? ==>
              var t := StrStep(st, c);
              IsContinuation(c) && t == Some(if st.more == 0 then Plain else Multi(0x80, 0xBF, st.more - 1))
    ensures !st.Multi? ==>
              var t := StrStep(st, c);
              !IsContinuation(c) && AnnouncedLength(c) == 1 + if t.Some? && t.value.Multi? then t.value.more + 1 else 0
    ensures !st.Multi? ==> AnnouncedLength(c) <= 4
  {
  }

  lemma {:induction false} RunLacks(str: string) returns (p: nat)
    requires str != "" && Run(START, str).State?
    ensures LastLacks(str, p, Missing(Run(START, str)))
    decreases |str|
  {
    var before, c := str[..|str| - 1], str[|str| - 1];
    assert str == before + [c];
    RunLast(START, before, c);
    RunGood(START, before);
    var s := Run(START, before);
    StepMissing(s, c);
    hide Step, Good, IsContinuation, AnnouncedLength;
    if Missing(s) == 0 {
      p := |before|;
    } else {
      assert before != "";
      p := RunLacks(before);
      assert forall k :: p < k < |str| ==> IsContinuation(str[k]);
    }
  }

  /** Where utf8_truncate_safe would drop bytes, the text stops within a character, and nowhere else. */
  lemma InCharacterIff(str: string)
    requires Run(START, str).State?
    ensures InCharacter(str) <==> TruncateSafe(str) < |str|
  {
    if str != "" {
      var p := RunLacks(str);
      hide Run, IsContinuation, TruncateFrom;
      TruncatePast(str, 0, p);
      assert Byte(str[p]) < 0x80 ==> AnnouncedLength(str[p]) == 1;
    }
  }
}
