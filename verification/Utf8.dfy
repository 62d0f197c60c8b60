/** UTF-8 (RFC 3629) as the program writes and reads it. A std::string is a `string` whose
    characters are bytes; a code point is a number up to 0x10FFFF. */
module Utf8 {

  const MAX_CODE_POINT := 0x10FFFF

  type CodePoint = x: int | 0 <= x <= MAX_CODE_POINT

  /** static_cast<unsigned char>. */
  function Byte(c: char): (b: int)
    ensures 0 <= b < 256
  {
    c as int % 256
  }

  /** (c & 0xC0) == 0x80. */
  predicate IsContinuation(c: char) {
    0x80 <= Byte(c) < 0xC0
  }

  function Tail(x: int): (c: char)
    ensures IsContinuation(c) && Byte(c) == 0x80 + x % 64 && Byte(c) % 64 == x % 64
  {
    (0x80 + x % 64) as char
  }

  /** A first byte: all of a one-byte code point, else the announced length and the top bits. */
  function Lead(base: int, x: int): (c: char)
    requires 0 <= x && base + x < 256 && (base == 0xC0 || base == 0xE0 || base == 0xF0)
    ensures Byte(c) == base + x
  {
    (base + x) as char
  }

  /** append_utf8: section 3 of RFC 3629 up to 0x10FFFF, and nothing beyond. */
  function EncodeChar(cp: nat): (r: string)
    ensures cp <= MAX_CODE_POINT ==> 1 <= |r| <= 4
    ensures cp > MAX_CODE_POINT ==> r == ""
  {
    if cp <= 0x7F then [cp as char]
    else if cp <= 0x7FF then [Lead(0xC0, cp / 64), Tail(cp)]
    else if cp <= 0xFFFF then [Lead(0xE0, cp / 4096), Tail(cp / 64), Tail(cp)]
    else if cp <= MAX_CODE_POINT then [Lead(0xF0, cp / 262144), Tail(cp / 4096), Tail(cp / 64), Tail(cp)]
    else ""
  }

  function Encode(cps: seq<CodePoint>): string {
    if cps == [] then "" else EncodeChar(cps[0]) + Encode(cps[1..])
  }

  /** The length an encoded code point announces in its first byte; 0 for a byte that starts none. */
  function AnnouncedLength(c: char): nat {
    var b := Byte(c);
    if b < 0x80 then 1
    else if 0xC0 <= b < 0xE0 then 2
    else if 0xE0 <= b < 0xF0 then 3
    else if 0xF0 <= b < 0xF8 then 4
    else 0
  }

  /** decode_utf8: the code point at `pos` and how far it reaches; 0xFFFD and 1 for a bad byte. */
  function DecodeAt(s: string, pos: nat): (r: (int, nat))
    requires pos < |s|
    ensures 1 <= r.1 && pos + r.1 <= |s|
  {
    var c := Byte(s[pos]);
    if c < 0x80 then (c, 1)
    else if 0xC0 <= c < 0xE0 && pos + 1 < |s| then
      if !IsContinuation(s[pos + 1]) then (0xFFFD, 1)
      else (c % 32 * 64 + Byte(s[pos + 1]) % 64, 2)
    else if 0xE0 <= c < 0xF0 && pos + 2 < |s| then
      if !IsContinuation(s[pos + 1]) || !IsContinuation(s[pos + 2]) then (0xFFFD, 1)
      else (c % 16 * 4096 + Byte(s[pos + 1]) % 64 * 64 + Byte(s[pos + 2]) % 64, 3)
    else if 0xF0 <= c < 0xF8 && pos + 3 < |s| then
      if !IsContinuation(s[pos + 1]) || !IsContinuation(s[pos + 2]) || !IsContinuation(s[pos + 3]) then (0xFFFD, 1)
      else (c % 8 * 262144 + Byte(s[pos + 1]) % 64 * 4096 + Byte(s[pos + 2]) % 64 * 64 + Byte(s[pos + 3]) % 64, 4)
    else (0xFFFD, 1)
  }

  // ---------- one encoded code point ----------

  /** The shape of an encoded code point: a first byte that announces the length, continuations after it. */
  lemma EncodedShape(cp: CodePoint)
    ensures var e := EncodeChar(cp);
            && AnnouncedLength(e[0]) == |e| && !IsContinuation(e[0])
            && forall i :: 1 <= i < |e| ==> IsContinuation(e[i])
  {
  }

  /** The six-bit groups of a code point. */
  lemma Bits3(x: int)
    requires 0 <= x <= 0xFFFF
    ensures (0xE0 + x / 4096) % 16 == x / 4096
    ensures x / 4096 * 4096 + x / 64 % 64 * 64 + x % 64 == x
  {
    assert x / 4096 == x / 64 / 64;
  }

  lemma Bits4(x: int)
    requires 0 <= x <= MAX_CODE_POINT
    ensures (0xF0 + x / 262144) % 8 == x / 262144
    ensures x / 262144 * 262144 + x / 4096 % 64 * 4096 + x / 64 % 64 * 64 + x % 64 == x
  {
    var y := x / 64;
    var z := y / 64;
    assert x / 4096 == z && x / 262144 == z / 64;
  }

  lemma Decodes2(s: string, pos: nat, cp: CodePoint)
    requires 0x7F < cp <= 0x7FF && pos + 2 <= |s|
    requires Byte(s[pos]) == 0xC0 + cp / 64 && s[pos + 1] == Tail(cp)
    ensures DecodeAt(s, pos) == (cp, 2)
  {
    hide Byte, Tail;
  }

  lemma Decodes3(s: string, pos: nat, cp: CodePoint)
    requires 0x7FF < cp <= 0xFFFF && pos + 3 <= |s|
    requires Byte(s[pos]) == 0xE0 + cp / 4096 && s[pos + 1] == Tail(cp / 64) && s[pos + 2] == Tail(cp)
    ensures DecodeAt(s, pos) == (cp, 3)
  {
    hide Byte, Tail;
    Bits3(cp);
  }

  lemma Decodes4(s: string, pos: nat, cp: CodePoint)
    requires 0xFFFF < cp && pos + 4 <= |s|
    requires Byte(s[pos]) == 0xF0 + cp / 262144
    requires s[pos + 1] == Tail(cp / 4096) && s[pos + 2] == Tail(cp / 64) && s[pos + 3] == Tail(cp)
    ensures DecodeAt(s, pos) == (cp, 4)
  {
    hide Byte, Tail;
    Bits4(cp);
  }

  /** Decoding an encoded code point, wherever it stands, gives it back with its length. */
  lemma DecodesWhatIsEncoded(s: string, pos: nat, cp: CodePoint)
    requires pos + |EncodeChar(cp)| <= |s|
    requires forall i :: 0 <= i < |EncodeChar(cp)| ==> s[pos + i] == EncodeChar(cp)[i]
    ensures pos < |s| && DecodeAt(s, pos) == (cp, |EncodeChar(cp)|)
  {
    hide DecodeAt, Tail, Lead;
    var e := EncodeChar(cp);
    assert s[pos] == e[0];
    assert |e| > 1 ==> s[pos + 1] == e[1];
    assert |e| > 2 ==> s[pos + 2] == e[2];
    assert |e| > 3 ==> s[pos + 3] == e[3];
    if cp <= 0x7F {
      Decodes1(s, pos, cp);
    } else if cp <= 0x7FF {
      Decodes2(s, pos, cp);
    } else if cp <= 0xFFFF {
      Decodes3(s, pos, cp);
    } else {
      Decodes4(s, pos, cp);
    }
  }

  lemma Decodes1(s: string, pos: nat, cp: CodePoint)
    requires cp <= 0x7F && pos < |s| && s[pos] == cp as char
    ensures DecodeAt(s, pos) == (cp, 1)
  {
  }

  // ---------- encoded texts ----------

  lemma {:induction false} EncodeConcat(a: seq<CodePoint>, b: seq<CodePoint>)
    ensures Encode(a + b) == Encode(a) + Encode(b)
  {
    hide EncodeChar;
    if a == [] {
      assert a + b == b;
    } else {
      assert (a + b)[1..] == a[1..] + b;
      EncodeConcat(a[1..], b);
    }
  }

  /** Where the code point number `k` starts. */
  function Offset(cps: seq<CodePoint>, k: nat): nat
    requires k <= |cps|
  {
    |Encode(cps[..k])|
  }

  lemma EncodeCons(cp: CodePoint, rest: seq<CodePoint>)
    ensures Encode([cp] + rest) == EncodeChar(cp) + Encode(rest)
  {
    hide EncodeChar;
    assert ([cp] + rest)[1..] == rest;
  }

  lemma EncodedText(cps: seq<CodePoint>, k: nat)
    requires k < |cps|
    ensures Encode(cps) == Encode(cps[..k]) + (EncodeChar(cps[k]) + Encode(cps[k + 1..]))
  {
    hide EncodeChar, Encode;
    EncodeCons(cps[k], cps[k + 1..]);
    EncodeConcat(cps[..k], [cps[k]] + cps[k + 1..]);
    assert cps == cps[..k] + ([cps[k]] + cps[k + 1..]);
  }

  lemma OffsetNext(cps: seq<CodePoint>, k: nat)
    requires k < |cps|
    ensures Offset(cps, k + 1) == Offset(cps, k) + |EncodeChar(cps[k])|
  {
    hide EncodeChar, Encode;
    EncodeConcat(cps[..k], [cps[k]]);
    EncodeOne(cps[k]);
    assert cps[..k + 1] == cps[..k] + [cps[k]];
  }

  /** An encoded text around its code point number `k`. */
  lemma EncodedAround(cps: seq<CodePoint>, k: nat)
    requires k < |cps|
    ensures Encode(cps) == Encode(cps[..k]) + EncodeChar(cps[k]) + Encode(cps[k + 1..])
    ensures Offset(cps, k + 1) == Offset(cps, k) + |EncodeChar(cps[k])| <= |Encode(cps)|
  {
    hide EncodeChar, Encode;
    EncodedText(cps, k);
    OffsetNext(cps, k);
    var a, e, b := Encode(cps[..k]), EncodeChar(cps[k]), Encode(cps[k + 1..]);
    assert a + (e + b) == a + e + b;
  }

  lemma EncodeNothing()
    ensures Encode([]) == ""
  {
  }

  lemma EncodeOne(cp: CodePoint)
    ensures Encode([cp]) == EncodeChar(cp)
  {
    hide EncodeChar;
    assert [cp][1..] == [];
  }

  lemma OffsetEnds(cps: seq<CodePoint>)
    ensures Offset(cps, 0) == 0 && Offset(cps, |cps|) == |Encode(cps)|
  {
    assert cps[..|cps|] == cps;
  }

  /** A code point starts at each offset, and nowhere in between. */
  lemma BytesAt(cps: seq<CodePoint>, k: nat)
    requires k < |cps|
    ensures var s, p, q := Encode(cps), Offset(cps, k), Offset(cps, k + 1);
            && p < q <= |s| && s[p..q] == EncodeChar(cps[k])
            && !IsContinuation(s[p]) && (forall i :: p < i < q ==> IsContinuation(s[i]))
            && DecodeAt(s, p) == (cps[k], q - p)
  {
    hide EncodeChar, DecodeAt, IsContinuation;
    EncodedAround(cps, k);
    EncodedShape(cps[k]);
    var s, p, e := Encode(cps), Offset(cps, k), EncodeChar(cps[k]);
    assert forall i :: 0 <= i < |e| ==> s[p + i] == e[i];
    assert s[p..p + |e|] == e;
    assert forall i :: p < i < p + |e| ==> s[i] == e[i - p];
    DecodesWhatIsEncoded(s, p, cps[k]);
  }

  lemma BoundaryOrEnd(cps: seq<CodePoint>, k: nat)
    requires k <= |cps|
    ensures Offset(cps, k) <= |Encode(cps)|
    ensures Offset(cps, k) < |Encode(cps)| ==> k < |cps| && !IsContinuation(Encode(cps)[Offset(cps, k)])
    ensures k <= Offset(cps, k)
    decreases k
  {
    hide EncodeChar, IsContinuation;
    OffsetEnds(cps);
    if k < |cps| {
      BytesAt(cps, k);
    }
    if k > 0 {
      BoundaryOrEnd(cps, k - 1);
      EncodedAround(cps, k - 1);
    }
  }

  /** Different texts have different encodings. */
  lemma {:induction false} EncodeInjective(a: seq<CodePoint>, b: seq<CodePoint>)
    requires Encode(a) == Encode(b)
    ensures a == b
  {
    hide EncodeChar, DecodeAt;
    if a != [] { BytesAt(a, 0); EncodedAround(a, 0); OffsetEnds(a); }
    if b != [] { BytesAt(b, 0); EncodedAround(b, 0); OffsetEnds(b); }
    if a != [] && b != [] {
      assert a[0] == b[0];
      var n := |EncodeChar(a[0])|;
      assert Encode(a[1..]) == Encode(a)[n..] && Encode(b[1..]) == Encode(b)[n..];
      EncodeInjective(a[1..], b[1..]);
      assert a == [a[0]] + a[1..] && b == [b[0]] + b[1..];
    }
  }

  // ---------- stepping over code points ----------

  function SkipContinuations(s: string, pos: nat): (r: nat)
    requires pos <= |s|
    ensures pos <= r <= |s|
    decreases |s| - pos
  {
    if pos < |s| && IsContinuation(s[pos]) then SkipContinuations(s, pos + 1) else pos
  }

  function NextPos(s: string, pos: nat): (r: nat)
    ensures pos <= |s| ==> pos <= r <= |s|
  {
    if pos >= |s| then |s| else SkipContinuations(s, pos + 1)
  }

  method NextUtf8CharPos(line: string, from: nat) returns (pos: nat)
    ensures pos == NextPos(line, from)
  {
    if from >= |line| { return |line|; }
    pos := from + 1;
    while pos < |line| && IsContinuation(line[pos])
      invariant from < pos <= |line|
      invariant SkipContinuations(line, pos) == SkipContinuations(line, from + 1)
    {
      pos := pos + 1;
    }
  }

  function BackOverContinuations(s: string, pos: nat): (r: nat)
    requires pos < |s|
    ensures r <= pos
  {
    if pos > 0 && IsContinuation(s[pos]) then BackOverContinuations(s, pos - 1) else pos
  }

  function PrevPos(s: string, pos: nat): (r: nat)
    requires pos <= |s|
    ensures r <= pos
  {
    if pos == 0 then 0 else BackOverContinuations(s, pos - 1)
  }

  method PrevUtf8CharPos(line: string, from: nat) returns (pos: nat)
    requires from <= |line|
    ensures pos == PrevPos(line, from)
  {
    if from == 0 { return 0; }
    pos := from - 1;
    while pos > 0 && IsContinuation(line[pos])
      invariant 0 <= pos < from
      invariant BackOverContinuations(line, pos) == BackOverContinuations(line, from - 1)
    {
      pos := pos - 1;
    }
  }

  lemma {:induction false} SkipsTo(s: string, pos: nat, r: nat)
    requires pos <= r <= |s| && (forall i :: pos <= i < r ==> IsContinuation(s[i]))
    requires r < |s| ==> !IsContinuation(s[r])
    ensures SkipContinuations(s, pos) == r
    decreases r - pos
  {
    hide IsContinuation;
    if pos < r {
      SkipsTo(s, pos + 1, r);
    }
  }

  lemma {:induction false} BacksTo(s: string, pos: nat, r: nat)
    requires r <= pos < |s| && (forall i :: r < i <= pos ==> IsContinuation(s[i])) && !IsContinuation(s[r])
    ensures BackOverContinuations(s, pos) == r
  {
    hide IsContinuation;
    if r < pos {
      BacksTo(s, pos - 1, r);
    }
  }

  /** In an encoded text, the next position is the next code point and the previous the previous one. */
  lemma StepsAreCodePoints(cps: seq<CodePoint>, k: nat)
    requires k < |cps|
    ensures NextPos(Encode(cps), Offset(cps, k)) == Offset(cps, k + 1)
    ensures PrevPos(Encode(cps), Offset(cps, k + 1)) == Offset(cps, k)
  {
    hide Encode, IsContinuation, DecodeAt, EncodeChar, Offset;
    var s, p, q := Encode(cps), Offset(cps, k), Offset(cps, k + 1);
    BytesAt(cps, k);
    BoundaryOrEnd(cps, k + 1);
    SkipsTo(s, p + 1, q);
    BacksTo(s, q - 1, p);
  }

  // ---------- utf8_truncate_safe ----------

  /** utf8_truncate_safe: how much of `s` to keep so that no encoded code point is cut. */
  method Utf8TruncateSafe(s: string) returns (r: nat)
    ensures r == TruncateSafe(s)
  {
    var len := |s|;
    if len == 0 { return 0; }
    var i := len;
    var back := 0;
    while back < 4 && i > 0
      invariant 0 <= i <= len && back == len - i && back <= 4
      invariant forall k :: i <= k < len ==> IsContinuation(s[k])
      invariant TruncateSafe(s) == TruncateFrom(s, back)
    {
      i := i - 1;
      var c := s[i];
      if Byte(c) < 0x80 {
        return len;
      } else if Byte(c) >= 0xC0 {
        var expectedLen := AnnouncedLength(c);
        if expectedLen == 0 { return i; }
        if len - i >= expectedLen {
          return len;
        } else {
          return i;
        }
      }
      back := back + 1;
    }
    return len - (if len < 3 then len else 3);
  }

  /** The answer once the last `back` bytes are known to be continuation bytes. */
  function TruncateFrom(s: string, back: nat): (r: nat)
    requires back <= 4 && back <= |s|
    ensures r <= |s|
    decreases 4 - back
  {
    if back == 4 || back == |s| then |s| - (if |s| < 3 then |s| else 3)
    else
      var i := |s| - back - 1;
      if Byte(s[i]) < 0x80 then |s|
      else if Byte(s[i]) >= 0xC0 then
        if AnnouncedLength(s[i]) != 0 && |s| - i >= AnnouncedLength(s[i]) then |s| else i
      else TruncateFrom(s, back + 1)
  }

  function TruncateSafe(s: string): (r: nat)
    ensures r <= |s|
  {
    if s == "" then 0 else TruncateFrom(s, 0)
  }

  /** Where the last code point that fits into the first `n` bytes ends. */
  predicate LastWhole(cps: seq<CodePoint>, k: nat, n: nat) {
    k <= |cps| && Offset(cps, k) <= n && (k < |cps| ==> n < Offset(cps, k + 1))
  }

  lemma {:induction false} LastWholeExists(cps: seq<CodePoint>, n: nat, j: nat) returns (k: nat)
    requires n <= |Encode(cps)| && j <= |cps| && Offset(cps, j) <= n
    ensures LastWhole(cps, k, n)
    decreases |cps| - j
  {
    hide Encode, Offset;
    OffsetEnds(cps);
    if j < |cps| && Offset(cps, j + 1) <= n {
      k := LastWholeExists(cps, n, j + 1);
    } else {
      k := j;
    }
  }

  lemma TruncatePast(s: string, back: nat, p: nat)
    requires p < |s| && back <= |s| - p - 1 && |s| - p <= 4
    requires forall i :: p < i < |s| ==> IsContinuation(s[i])
    requires !IsContinuation(s[p])
    ensures TruncateFrom(s, back)
            == if Byte(s[p]) < 0x80 || (AnnouncedLength(s[p]) != 0 && |s| - p >= AnnouncedLength(s[p])) then |s| else p
    decreases |s| - p - back
  {
    if back < |s| - p - 1 {
      assert IsContinuation(s[|s| - back - 1]);
      TruncatePast(s, back + 1, p);
    }
  }

  /** On any byte prefix of an encoded text, utf8_truncate_safe keeps exactly the whole code points. */
  lemma TruncateKeepsWhole(cps: seq<CodePoint>, n: nat, k: nat)
    requires n <= |Encode(cps)| && LastWhole(cps, k, n)
    ensures TruncateSafe(Encode(cps)[..n]) == Offset(cps, k)
    ensures n - Offset(cps, k) <= 3
  {
    hide Encode, IsContinuation, DecodeAt, EncodeChar, Offset, TruncateFrom, AnnouncedLength;
    var s := Encode(cps)[..n];
    OffsetEnds(cps);
    if n > 0 {
      var p := Offset(cps, k);
      if p < n {
        BytesAt(cps, k);
        EncodedShape(cps[k]);
        FirstByteAt(cps, k);
        TruncatePast(s, 0, p);
      } else {
        assert k > 0;
        BytesAt(cps, k - 1);
        EncodedShape(cps[k - 1]);
        FirstByteAt(cps, k - 1);
        TruncatePast(s, 0, Offset(cps, k - 1));
      }
    }
  }

  lemma FirstByteAt(cps: seq<CodePoint>, k: nat)
    requires k < |cps|
    ensures var p, q := Offset(cps, k), Offset(cps, k + 1);
            && p < q <= |Encode(cps)| && q - p <= 4 && AnnouncedLength(Encode(cps)[p]) == q - p
            && (Byte(Encode(cps)[p]) < 0x80 ==> q - p == 1)
  {
    hide Encode, IsContinuation, DecodeAt, EncodeChar, Offset;
    BytesAt(cps, k);
    EncodedShape(cps[k]);
    assert Encode(cps)[Offset(cps, k)..Offset(cps, k + 1)][0] == Encode(cps)[Offset(cps, k)];
  }

  /** RFC 3629 leaves out the surrogates. */
  predicate Scalars(cps: seq<CodePoint>) {
    forall i :: 0 <= i < |cps| ==> !(0xD800 <= cps[i] <= 0xDFFF)
  }

  ghost predicate ValidUtf8(s: string) {
    exists cps :: Scalars(cps) && Encode(cps) == s
  }

  ghost predicate LongestValid(s: string, r: nat) {
    r <= |s| && ValidUtf8(s[..r]) && forall m :: r < m <= |s| ==> !ValidUtf8(s[..m])
  }

  /** An encoded text that begins another one is the encoding of its first code points. */
  lemma {:induction false} EncodedPrefix(a: seq<CodePoint>, b: seq<CodePoint>)
    requires Encode(a) <= Encode(b)
    ensures a <= b
    decreases |a|
  {
    hide EncodeChar, DecodeAt, IsContinuation;
    if a != [] {
      BytesAt(a, 0);
      EncodedAround(a, 0);
      OffsetEnds(a);
      OffsetEnds(b);
      BytesAt(b, 0);
      EncodedAround(b, 0);
      SameFirst(Encode(a), Encode(b), Offset(a, 1), Offset(b, 1), a[0], b[0]);
      var n := |EncodeChar(a[0])|;
      assert Encode(a[1..]) == Encode(a)[n..] && Encode(b[1..]) == Encode(b)[n..];
      EncodedPrefix(a[1..], b[1..]);
      assert a == [a[0]] + a[1..] && b == [b[0]] + b[1..];
    }
  }

  lemma SameFirst(s: string, t: string, p: nat, q: nat, x: CodePoint, y: CodePoint)
    requires s <= t && 0 < p <= |s| && 0 < q <= |t| && s[0..p] == EncodeChar(x) && t[0..q] == EncodeChar(y)
    requires DecodeAt(s, 0) == (x, p) && DecodeAt(t, 0) == (y, q)
    ensures x == y
  {
    hide DecodeAt, EncodeChar;
    assert forall i :: 0 <= i < |EncodeChar(x)| ==> t[i] == s[0..p][i];
    DecodesWhatIsEncoded(t, 0, x);
  }

  /** utf8_truncate_safe on any byte prefix of valid UTF-8: the longest valid prefix, at most three
      bytes shorter, the same when applied twice. */
  lemma TruncateIsLongestValid(u: string, n: nat)
    requires ValidUtf8(u) && n <= |u|
    ensures LongestValid(u[..n], TruncateSafe(u[..n]))
    ensures n - TruncateSafe(u[..n]) <= 3
    ensures TruncateSafe(u[..TruncateSafe(u[..n])]) == TruncateSafe(u[..n])
  {
    hide Encode, Offset, TruncateSafe;
    var cps :| Scalars(cps) && Encode(cps) == u;
    OffsetEnds(cps);
    var k := LastWholeExists(cps, n, 0);
    TruncateKeepsWhole(cps, n, k);
    var s, r := u[..n], Offset(cps, k);
    WholePrefix(cps, k);
    assert s[..r] == u[..r];
    assert Scalars(cps[..k]);
    if k < |cps| { OffsetNext(cps, k); EncodedAround(cps, k); }
    TruncateKeepsWhole(cps, r, k);
    forall m | r < m <= |s| ensures !ValidUtf8(s[..m]) {
      assert s[..m] == u[..m];
      NoWholeBeyond(cps, k, n, m);
    }
  }

  lemma WholePrefix(cps: seq<CodePoint>, k: nat)
    requires k <= |cps|
    ensures Offset(cps, k) <= |Encode(cps)| && Encode(cps)[..Offset(cps, k)] == Encode(cps[..k])
  {
    hide Encode;
    EncodeConcat(cps[..k], cps[k..]);
    assert cps == cps[..k] + cps[k..];
  }

  lemma NoWholeBeyond(cps: seq<CodePoint>, k: nat, n: nat, m: nat)
    requires n <= |Encode(cps)| && LastWhole(cps, k, n) && Offset(cps, k) < m <= n
    ensures !ValidUtf8(Encode(cps)[..m])
  {
    hide Encode, Offset;
    if ValidUtf8(Encode(cps)[..m]) {
      var o :| Scalars(o) && Encode(o) == Encode(cps)[..m];
      EncodedPrefix(o, cps);
      OffsetEnds(o);
      OffsetEnds(cps);
      assert o == cps[..|o|];
      OffsetOfPrefix(cps, |o|);
      OffsetsGrow(cps, k, |o|);
      OffsetsGrow(cps, |o|, k);
    }
  }

  lemma OffsetOfPrefix(cps: seq<CodePoint>, j: nat)
    requires j <= |cps|
    ensures |Encode(cps[..j])| == Offset(cps, j)
  {
  }

  lemma {:induction false} OffsetsGrow(cps: seq<CodePoint>, i: nat, j: nat)
    requires i <= |cps| && j <= |cps|
    ensures i <= j ==> Offset(cps, i) <= Offset(cps, j)
    ensures i < j ==> Offset(cps, i + 1) <= Offset(cps, j)
    decreases j
  {
    hide Offset, Encode, EncodeChar;
    if i < j {
      OffsetsGrow(cps, i, j - 1);
      OffsetNext(cps, j - 1);
    }
  }

  /** It never gives back what an earlier, shorter input let through. */
  lemma TruncateMonotone(u: string, m: nat, n: nat)
    requires ValidUtf8(u) && m <= n <= |u|
    ensures TruncateSafe(u[..m]) <= TruncateSafe(u[..n])
  {
    hide Encode, Offset, TruncateSafe;
    var cps :| Scalars(cps) && Encode(cps) == u;
    OffsetEnds(cps);
    var j := LastWholeExists(cps, m, 0);
    var k := LastWholeExists(cps, n, 0);
    TruncateKeepsWhole(cps, m, j);
    TruncateKeepsWhole(cps, n, k);
    OffsetsGrow(cps, j, k);
    OffsetsGrow(cps, k, j);
  }

  // ---------- editing encoded texts ----------

  lemma SplitEncoded(cps: seq<CodePoint>, k: nat)
    requires k <= |cps|
    ensures var s, p := Encode(cps), Offset(cps, k);
            p <= |s| && s[..p] == Encode(cps[..k]) && s[p..] == Encode(cps[k..])
  {
    hide Encode;
    EncodeConcat(cps[..k], cps[k..]);
    assert cps == cps[..k] + cps[k..];
  }

  /** Inserting bytes at an offset inserts the code point there. */
  lemma InsertEncoded(cps: seq<CodePoint>, k: nat, c: CodePoint)
    requires k <= |cps|
    ensures var s, p, new_ := Encode(cps), Offset(cps, k), cps[..k] + [c] + cps[k..];
            && p <= |s| && Encode(new_) == s[..p] + EncodeChar(c) + s[p..]
            && Offset(new_, k) == p && Offset(new_, k + 1) == p + |EncodeChar(c)|
  {
    hide Encode, EncodeChar;
    var new_ := cps[..k] + [c] + cps[k..];
    SplitEncoded(cps, k);
    EncodeConcat(cps[..k] + [c], cps[k..]);
    EncodeConcat(cps[..k], [c]);
    EncodeOne(c);
    assert new_[..k] == cps[..k] && new_[..k + 1] == cps[..k] + [c];
  }

  /** Erasing the bytes of a code point erases it. */
  lemma EraseEncoded(cps: seq<CodePoint>, k: nat)
    requires k < |cps|
    ensures var s, p, q, new_ := Encode(cps), Offset(cps, k), Offset(cps, k + 1), cps[..k] + cps[k + 1..];
            && p <= q <= |s| && Encode(new_) == s[..p] + s[q..] && Offset(new_, k) == p
  {
    hide Encode, EncodeChar;
    var new_ := cps[..k] + cps[k + 1..];
    SplitEncoded(cps, k);
    SplitEncoded(cps, k + 1);
    EncodedAround(cps, k);
    EncodeConcat(cps[..k], cps[k + 1..]);
    assert new_[..k] == cps[..k];
  }
}
