/** Replacing escape sequences within the buffer that holds them. Characters are bytes. */
module Escapes {
  import opened Text

  function HexDigit(c: char): (r: Option<nat>)
    ensures r.Some? ==> r.value < 16
  {
    if '0' <= c <= '9' then Some(c as nat - '0' as nat)
    else if 'a' <= c <= 'f' then Some(c as nat - 'a' as nat + 10)
    else if 'A' <= c <= 'F' then Some(c as nat - 'A' as nat + 10)
    else None
  }

  /** The byte that strtol in base 16 makes of exactly two characters. It skips a leading space and takes
      a sign, so that a blank or a sign may stand in for the first digit. */
  function HexPair(c: char, d: char): (r: Option<nat>)
    ensures r.Some? ==> r.value < 256
  {
    var low := HexDigit(d);
    if low.None? then None
    else if HexDigit(c).Some? then Some(HexDigit(c).value * 16 + low.value)
    else if IsSpace(c) || c == '+' then Some(low.value)
    else if c == '-' then Some((256 - low.value) % 256)
    else None
  }

  function Simple(c: char): Option<char> {
    match c
    case 'n' => Some('\n')
    case 'r' => Some('\r')
    case 't' => Some('\t')
    case '\'' => Some('\'')
    case '"' => Some('"')
    case '\\' => Some('\\')
    case _ => None
  }

  /** One turn: how many characters are taken from the front, and what is put out for them. */
  function Turn(s: string): (r: (nat, string))
    requires s != ""
    ensures 1 <= |r.1| <= r.0 <= |s|
  {
    if s[0] != '\\' || |s| == 1 then (1, [s[0]])
    else if Simple(s[1]).Some? then (2, [Simple(s[1]).value])
    else if s[1] == 'x' && |s| >= 4 && HexPair(s[2], s[3]).Some? then (4, [HexPair(s[2], s[3]).value as char])
    else (2, ['\\', s[1]])
  }

  function Unescape(s: string): string
    decreases |s|
  {
    if s == "" then "" else Turn(s).1 + Unescape(s[Turn(s).0..])
  }

  // ---------- in place ----------

  /** What is written so far, followed by what the unread part will give, is the whole result. */
  ghost predicate Underway(buffer: string, was: string, read: nat, written: nat) {
    && written <= read <= |was| == |buffer|
    && buffer[read..] == was[read..]
    && buffer[..written] + Unescape(was[read..]) == Unescape(was)
  }

  /** A turn takes `n` characters and writes `out`. */
  lemma UnderwayTurn(buffer: string, was: string, read: nat, written: nat, now: string, n: nat, out: string)
    requires Underway(buffer, was, read, written) && read < |was| && Turn(was[read..]) == (n, out)
    requires |now| == |buffer| && written + |out| <= |now| && read + n <= |now|
    requires now[..written] == buffer[..written] && now[written..written + |out|] == out
    requires now[read + n..] == buffer[read + n..]
    ensures Underway(now, was, read + n, written + |out|)
  {
    UnescapeTurn(was[read..]);
    UnderwayNow(buffer, was, read, written);
    UnderwayIs(buffer, was, read, written);
    hide *;
    TurnInside(was[read..]);
    TurnSlices(buffer, now, was, read, written, n, out);
    Regroup(buffer[..written], out, Unescape(was[read + n..]));
    UnderwayIs(now, was, read + n, written + |out|);
  }

  lemma TurnInside(s: string)
    requires s != ""
    ensures |Turn(s).1| <= Turn(s).0 <= |s|
  {
  }

  lemma UnderwayIs(buffer: string, was: string, read: nat, written: nat)
    requires written <= read <= |was| == |buffer|
    ensures Underway(buffer, was, read, written) <==>
            buffer[read..] == was[read..] && buffer[..written] + Unescape(was[read..]) == Unescape(was)
  {
    hide Unescape;
  }

  lemma TurnSlices(buffer: string, now: string, was: string, read: nat, written: nat, n: nat, out: string)
    requires |now| == |buffer| == |was| && written + |out| <= read + n <= |was| && written <= read
    requires buffer[read..] == was[read..] && now[..written] == buffer[..written]
    requires now[written..written + |out|] == out && now[read + n..] == buffer[read + n..]
    ensures now[..written + |out|] == buffer[..written] + out
    ensures now[read + n..] == was[read + n..] == was[read..][n..]
  {
    assert buffer[read + n..] == buffer[read..][n..];
  }

  lemma Regroup(a: string, b: string, c: string)
    ensures a + (b + c) == a + b + c
  {
  }

  /** One turn of the loop: the characters taken are read before anything is written over them. */
  method TurnInPlace(input: array<char>, from: nat, to: nat) returns (read: nat, written: nat)
    requires to <= from < input.Length
    modifies input
    ensures var t := Turn(old(input[from..]));
      && read == from + t.0 <= input.Length && written == to + |t.1| <= read
      && input[to..written] == t.1
    ensures input[..to] == old(input[..to]) && input[read..] == old(input[read..])
  {
    ghost var s := input[from..];
    hide HexPair, HexDigit, IsSpace;
    read, written := from, to;
    if input[read] == '\\' && read + 1 < input.Length {
      read := read + 1;
      var c := input[read];
      assert c == s[1];
      if Simple(c).Some? {
        input[written] := Simple(c).value;
        written := written + 1;
      } else {
        var val := if c == 'x' && read + 2 < input.Length then HexPair(input[read + 1], input[read + 2]) else None;
        if val.Some? {
          read := read + 2;
          input[written] := val.value as char;
          written := written + 1;
        } else {
          input[written] := '\\';
          input[written + 1] := input[read];
          written := written + 2;
        }
      }
    } else {
      input[written] := input[read];
      written := written + 1;
    }
    read := read + 1;
  }

  method ProcessEscapes(input: array<char>) returns (length: nat)
    modifies input
    ensures length <= input.Length
    ensures input[..length] == Unescape(old(input[..]))
  {
    hide *;
    ghost var was := input[..];
    var read: nat, written: nat := 0, 0;
    UnderwayStart(was);
    while read < input.Length
      invariant Underway(input[..], was, read, written)
    {
      UnderwayNow(input[..], was, read, written);
      ghost var before, read', written' := input[..], read, written;
      assert input[read..] == before[read..];
      read, written := TurnInPlace(input, read, written);
      UnderwayTurn(before, was, read', written', input[..], read - read', input[written'..written]);
    }
    UnderwayNow(input[..], was, read, written);
    length := written;
  }

  lemma UnderwayStart(was: string)
    ensures Underway(was, was, 0, 0)
  {
    assert was[0..] == was && was[..0] + Unescape(was) == Unescape(was);
  }

  lemma UnderwayNow(buffer: string, was: string, read: nat, written: nat)
    requires Underway(buffer, was, read, written)
    ensures written <= read <= |was| == |buffer| && buffer[read..] == was[read..]
    ensures read == |was| ==> buffer[..written] == Unescape(was)
  {
    if read == |was| {
      assert was[read..] == "";
      assert buffer[..written] + "" == buffer[..written];
    }
  }

  // ---------- what escaping undoes ----------

  function Doubled(s: string): string {
    if s == "" then "" else (if s[0] == '\\' then "\\\\" else [s[0]]) + Doubled(s[1..])
  }

  /** A string with every backslash doubled is given back. */
  lemma {:induction false} DoublingUndone(s: string)
    ensures Unescape(Doubled(s)) == s
  {
    if s != "" {
      DoublingUndone(s[1..]);
      var d, rest := Doubled(s), Doubled(s[1..]);
      hide HexPair, HexDigit;
      if s[0] == '\\' {
        assert d[2..] == rest && Turn(d) == (2, "\\");
      } else {
        assert d[1..] == rest && Turn(d) == (1, [s[0]]);
      }
      assert [s[0]] + s[1..] == s;
    }
  }

  function Digit(v: nat): (c: char)
    requires v < 16
    ensures HexDigit(c) == Some(v)
  {
    if v < 10 then '0' + v as char else 'a' + (v - 10) as char
  }

  /** Every byte written as \x and two digits. */
  function Hex(s: string): string
    requires forall k :: 0 <= k < |s| ==> s[k] < 256 as char
  {
    if s == "" then "" else ['\\', 'x', Digit(s[0] as nat / 16), Digit(s[0] as nat % 16)] + Hex(s[1..])
  }

  /** Bytes written in hexadecimal are given back. */
  lemma {:induction false} HexUndone(s: string)
    requires forall k :: 0 <= k < |s| ==> s[k] < 256 as char
    ensures Unescape(Hex(s)) == s
  {
    if s != "" {
      HexUndone(s[1..]);
      HexTurn(s);
      hide *;
      UnescapeTurn(Hex(s));
      assert [s[0]] + s[1..] == s;
    }
  }

  lemma HexTurn(s: string)
    requires s != "" && forall k :: 0 <= k < |s| ==> s[k] < 256 as char
    ensures |Hex(s)| >= 4 && Turn(Hex(s)) == (4, [s[0]]) && Hex(s)[4..] == Hex(s[1..])
  {
    var h, v, rest := Hex(s), s[0] as nat, Hex(s[1..]);
    hide Hex, Digit, HexPair;
    HexIs(s);
    HexPairIs(v);
    assert h[0] == '\\' && h[1] == 'x' && h[2] == Digit(v / 16) && h[3] == Digit(v % 16);
    assert h[4..] == rest;
  }

  lemma HexIs(s: string)
    requires s != "" && forall k :: 0 <= k < |s| ==> s[k] < 256 as char
    ensures Hex(s) == ['\\', 'x', Digit(s[0] as nat / 16), Digit(s[0] as nat % 16)] + Hex(s[1..])
  {
    hide Digit;
  }

  lemma HexPairIs(v: nat)
    requires v < 256
    ensures HexPair(Digit(v / 16), Digit(v % 16)) == Some(v)
  {
    assert v / 16 * 16 + v % 16 == v;
  }

  lemma UnescapeTurn(s: string)
    requires s != ""
    ensures Unescape(s) == Turn(s).1 + Unescape(s[Turn(s).0..])
  {
  }

  /** No escape sequence is met, reading from the front. */
  predicate Plain(s: string)
    decreases |s|
  {
    s == "" || (Turn(s).0 == |Turn(s).1| && Plain(s[Turn(s).0..]))
  }

  /** The text never grows, and it keeps its length exactly when it is left as it is, which is when no
      escape sequence is met. */
  lemma {:induction false} UnchangedIsPlain(s: string)
    ensures |Unescape(s)| <= |s|
    ensures |Unescape(s)| == |s| <==> Plain(s)
    ensures Unescape(s) == s <==> Plain(s)
    decreases |s|
  {
    if s != "" {
      var t := Turn(s);
      var rest := s[t.0..];
      UnchangedIsPlain(rest);
      TurnPlain(s);
      hide Turn;
      if t.0 == |t.1| {
        assert s == t.1 + rest;
        if Unescape(s) == s {
          assert Unescape(s)[|t.1|..] == Unescape(rest) && s[|t.1|..] == rest;
        }
      }
    }
  }

  lemma TurnPlain(s: string)
    requires s != ""
    ensures Turn(s).0 == |Turn(s).1| ==> Turn(s).1 == s[..Turn(s).0]
  {
  }
}
