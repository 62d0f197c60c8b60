/** Base64 (sections 4 and 5 of RFC 4648): encoding, decoding, and decoding over the same buffer.
    Bytes are numbers below 256; a shift is written as a product or a quotient. */
module Base64 {
  import opened Text

  datatype Alphabet = Auto | Standard | UrlSafe

  datatype Behavior = Moderate | Loose

  datatype Result<T> = Ok(value: T) | Invalid

  type Byte = x: nat | x < 256

  /** The tables of letters: capitals, small letters, digits, and two characters of the alphabet's own. */
  function Letter(a: Alphabet, v: nat): char
    requires v < 64
  {
    if v < 26 then 'A' + v as char
    else if v < 52 then 'a' + (v - 26) as char
    else if v < 62 then '0' + (v - 52) as char
    else if v == 62 then if a == UrlSafe then '-' else '+'
    else if a == UrlSafe then '_' else '/'
  }

  /** The value of a character, and the alphabet known from then on. */
  function Value(a: Alphabet, c: char): (r: Option<(nat, Alphabet)>)
    ensures r.Some? ==> r.value.0 < 64
  {
    if 'A' <= c <= 'Z' then Some((c as nat - 'A' as nat, a))
    else if 'a' <= c <= 'z' then Some((c as nat - 'a' as nat + 26, a))
    else if '0' <= c <= '9' then Some((c as nat - '0' as nat + 52, a))
    else if c == '+' && a != UrlSafe then Some((62, Standard))
    else if c == '/' && a != UrlSafe then Some((63, Standard))
    else if c == '-' && a != Standard then Some((62, UrlSafe))
    else if c == '_' && a != Standard then Some((63, UrlSafe))
    else None
  }

  // ---------- encoding ----------

  // The four values of six bits that three bytes make up.

  function First(b0: Byte): (v: nat)
    ensures v < 64
  {
    b0 / 4
  }

  function Second(b0: Byte, b1: Byte): (v: nat)
    ensures v < 64
  {
    b0 % 4 * 16 + b1 / 16
  }

  function Third(b1: Byte, b2: Byte): (v: nat)
    ensures v < 64
  {
    b1 % 16 * 4 + b2 / 64
  }

  function Fourth(b2: Byte): (v: nat)
    ensures v < 64
  {
    b2 % 64
  }

  /** Four characters for the first three bytes, or for what there is of them. */
  function Group(b: seq<Byte>, a: Alphabet): (r: string)
    requires b != []
    ensures |r| == 4
  {
    if |b| == 1 then [Letter(a, First(b[0])), Letter(a, Second(b[0], 0)), '=', '=']
    else if |b| == 2 then
      [Letter(a, First(b[0])), Letter(a, Second(b[0], b[1])), Letter(a, Third(b[1], 0)), '=']
    else
      [Letter(a, First(b[0])), Letter(a, Second(b[0], b[1])), Letter(a, Third(b[1], b[2])), Letter(a, Fourth(b[2]))]
  }

  function Rest(b: seq<Byte>): seq<Byte> {
    if |b| < 3 then [] else b[3..]
  }

  function Encode(b: seq<Byte>, a: Alphabet): string
    decreases |b|
  {
    if b == [] then "" else Group(b, a) + Encode(Rest(b), a)
  }

  function RequiredEncodeSize(size: nat): nat {
    (size / 3 + if size % 3 != 0 then 1 else 0) * 4
  }

  function MaxDecodeSize(size: nat): nat {
    (size / 4 + if size % 4 != 0 then 1 else 0) * 3
  }

  lemma {:induction false} EncodeSize(b: seq<Byte>, a: Alphabet)
    ensures |Encode(b, a)| == RequiredEncodeSize(|b|)
    decreases |b|
  {
    hide Group;
    if b != [] {
      EncodeSize(Rest(b), a);
    }
  }

  method EncodeAll(input: seq<Byte>, a: Alphabet) returns (out: string)
    ensures out == Encode(input, a)
    ensures |out| == RequiredEncodeSize(|input|)
  {
    hide Letter, Encode, First, Second, Third, Fourth, RequiredEncodeSize;
    out := "";
    var i := 0;
    while i < |input|
      invariant 0 <= i <= |input|
      invariant out + Encode(input[i..], a) == Encode(input, a)
    {
      ghost var rest, before := input[i..], out;
      EncodeStep(before, rest, a);
      var i0 := input[i];
      i := i + 1;
      out := out + [Letter(a, First(i0))];
      if i == |input| {
        out := out + [Letter(a, Second(i0, 0))];
        out := out + ['='];
        out := out + ['='];
        assert out == before + Group(rest, a);
        break;
      }
      var i1 := input[i];
      i := i + 1;
      out := out + [Letter(a, Second(i0, i1))];
      if i == |input| {
        out := out + [Letter(a, Third(i1, 0))];
        out := out + ['='];
        assert out == before + Group(rest, a);
        break;
      }
      var i2 := input[i];
      i := i + 1;
      out := out + [Letter(a, Third(i1, i2))];
      out := out + [Letter(a, Fourth(i2))];
      assert out == before + Group(rest, a);
      assert Rest(rest) == input[i..];
    }
    EncodeEnd(out, input[i..], a);
    EncodeSize(input, a);
  }

  lemma EncodeStep(before: string, rest: seq<Byte>, a: Alphabet)
    requires rest != []
    ensures before + Encode(rest, a) == before + Group(rest, a) + Encode(Rest(rest), a)
    ensures |rest| < 3 ==> before + Group(rest, a) == before + Encode(rest, a)
  {
    hide Group;
    assert before + (Group(rest, a) + Encode(Rest(rest), a)) == before + Group(rest, a) + Encode(Rest(rest), a);
  }

  lemma EncodeEnd(out: string, rest: seq<Byte>, a: Alphabet)
    ensures rest == [] ==> out + Encode(rest, a) == out
  {
  }

  // ---------- decoding ----------

  /** A byte made of the low `bits` bits of one value and the high bits of the next; what is shifted
      beyond eight bits is lost. */
  function Merged(last: nat, bits: nat, part: nat): (b: Byte)
    requires bits == 2 || bits == 4 || bits == 6
    requires last < 64 && part < 64
  {
    if bits == 6 then last * 4 + part / 16
    else if bits == 4 then last * 16 % 256 + part / 4
    else last * 64 % 256 + part
  }

  /** What the main loop makes of the input: the bytes put out, how many characters it took, and whether
      it came to the end or to padding without meeting a foreign character. */
  datatype Run = Run(bytes: seq<Byte>, read: nat, ok: bool)

  predicate BitsOk(bits: nat) {
    bits == 0 || bits == 2 || bits == 4 || bits == 6
  }

  function Decoded(s: string, a: Alphabet, last: nat, bits: nat): (r: Run)
    requires BitsOk(bits) && last < 64
    ensures r.read <= |s|
    decreases |s|
  {
    if s == "" || s[0] == '=' then Run([], 0, true)
    else
      match Value(a, s[0])
      case None => Run([], 0, false)
      case Some((v, a')) =>
        if bits >= 2 then
          var r := Decoded(s[1..], a', v, bits - 2);
          Run([Merged(last, bits, v)] + r.bytes, r.read + 1, r.ok)
        else
          var r := Decoded(s[1..], a', v, bits + 6);
          Run(r.bytes, r.read + 1, r.ok)
  }

  predicate AllPadding(s: string) {
    forall k :: 0 <= k < |s| ==> s[k] == '='
  }

  /** Decoding: an error for a foreign character, and in the strict behaviour for anything but padding
      after the first padding character. */
  function Decode(s: string, a: Alphabet, behavior: Behavior): Result<seq<Byte>> {
    var r := Decoded(s, a, 0, 0);
    if !r.ok then Invalid
    else if behavior != Loose && !AllPadding(s[r.read..]) then Invalid
    else Ok(r.bytes)
  }

  /** Six bits come in with every character and eight go out with every byte. */
  lemma {:induction false} BitsConserved(s: string, a: Alphabet, last: nat, bits: nat)
    requires BitsOk(bits) && last < 64
    ensures var r := Decoded(s, a, last, bits);
      8 * |r.bytes| <= 6 * r.read + bits < 8 * |r.bytes| + 8
    decreases |s|
  {
    if s != "" && s[0] != '=' && Value(a, s[0]).Some? {
      var (v, a') := Value(a, s[0]).value;
      BitsConserved(s[1..], a', v, if bits >= 2 then bits - 2 else bits + 6);
    }
  }

  /** What decoding puts out fits the size it announces. */
  lemma DecodeFits(s: string, a: Alphabet)
    ensures |Decoded(s, a, 0, 0).bytes| <= MaxDecodeSize(|s|)
    ensures |Decoded(s, a, 0, 0).bytes| <= |s|
  {
    BitsConserved(s, a, 0, 0);
  }

  lemma DecodedEnds(s: string, a: Alphabet, last: nat, bits: nat)
    requires BitsOk(bits) && last < 64
    ensures s == "" || s[0] == '=' ==> Decoded(s, a, last, bits) == Run([], 0, true)
    ensures s != "" && s[0] != '=' && Value(a, s[0]).None? ==> Decoded(s, a, last, bits) == Run([], 0, false)
  {
  }

  lemma DecodedStep(s: string, a: Alphabet, last: nat, bits: nat)
    requires BitsOk(bits) && last < 64 && s != "" && s[0] != '=' && Value(a, s[0]).Some?
    ensures var (v, a') := Value(a, s[0]).value;
      && (bits >= 2 ==>
            var r := Decoded(s[1..], a', v, bits - 2);
            Decoded(s, a, last, bits) == Run([Merged(last, bits, v)] + r.bytes, r.read + 1, r.ok))
      && (bits == 0 ==>
            var r := Decoded(s[1..], a', v, 6);
            Decoded(s, a, last, bits) == Run(r.bytes, r.read + 1, r.ok))
  {
  }

  /** The main loop, from where it stands. */
  predicate Midway(s: string, pos: nat, al: Alphabet, last: nat, bits: nat, out: seq<Byte>, whole: Run) {
    && pos <= |s| && BitsOk(bits) && last < 64
    && var r := Decoded(s[pos..], al, last, bits);
       out + r.bytes == whole.bytes && pos + r.read == whole.read && r.ok == whole.ok
  }

  lemma MidwayStep(s: string, pos: nat, al: Alphabet, last: nat, bits: nat, out: seq<Byte>, whole: Run)
    requires Midway(s, pos, al, last, bits, out, whole) && pos < |s| && s[pos] != '='
    ensures Value(al, s[pos]).None? ==> !whole.ok && out == whole.bytes
    ensures Value(al, s[pos]).Some? ==>
              var (v, al') := Value(al, s[pos]).value;
              && (bits >= 2 ==> Midway(s, pos + 1, al', v, bits - 2, out + [Merged(last, bits, v)], whole))
              && (bits < 2 ==> Midway(s, pos + 1, al', v, bits + 6, out, whole))
  {
    DecodedEnds(s[pos..], al, last, bits);
    if Value(al, s[pos]).Some? {
      DecodedStep(s[pos..], al, last, bits);
      hide Decoded, Value, Merged;
      assert s[pos..][1..] == s[pos + 1..] && s[pos..][0] == s[pos];
      if bits >= 2 {
        var (v, al') := Value(al, s[pos]).value;
        var r := Decoded(s[pos + 1..], al', v, bits - 2);
        assert out + [Merged(last, bits, v)] + r.bytes == out + ([Merged(last, bits, v)] + r.bytes);
      }
    }
  }

  lemma MidwayEnd(s: string, pos: nat, al: Alphabet, last: nat, bits: nat, out: seq<Byte>, whole: Run)
    requires Midway(s, pos, al, last, bits, out, whole) && (pos == |s| || s[pos] == '=')
    ensures whole.ok && out == whole.bytes && pos == whole.read
  {
    DecodedEnds(s[pos..], al, last, bits);
  }

  method DecodeAll(input: string, a: Alphabet, behavior: Behavior) returns (r: Result<seq<Byte>>)
    ensures r == Decode(input, a, behavior)
    ensures r.Ok? ==> |r.value| <= MaxDecodeSize(|input|)
  {
    DecodeFits(input, a);
    var al, out: seq<Byte> := a, [];
    var last: nat, bits: nat, pos: nat := 0, 0, 0;
    ghost var whole := Decoded(input, a, 0, 0);
    assert input[0..] == input;
    while pos < |input|
      invariant Midway(input, pos, al, last, bits, out, whole)
    {
      hide Decoded, Value, Merged, Midway;
      var c := input[pos];
      if c == '=' {
        break;
      }
      MidwayStep(input, pos, al, last, bits, out, whole);
      var part := Value(al, c);
      if part.None? {
        return Invalid;
      }
      if bits + 6 >= 8 {
        out := out + [Merged(last, bits, part.value.0)];
        bits := bits - 2;
      } else {
        bits := bits + 6;
      }
      last, al, pos := part.value.0, part.value.1, pos + 1;
    }
    MidwayEnd(input, pos, al, last, bits, out, whole);
    if behavior != Loose {
      ghost var rest := input[pos..];
      while pos < |input|
        invariant whole.read <= pos <= |input|
        invariant AllPadding(rest) <==> AllPadding(input[pos..])
      {
        PaddingStep(input, pos);
        if input[pos] != '=' {
          return Invalid;
        }
        pos := pos + 1;
      }
    }
    r := Ok(out);
  }

  lemma PaddingStep(s: string, pos: nat)
    requires pos < |s|
    ensures AllPadding(s[pos..]) <==> s[pos] == '=' && AllPadding(s[pos + 1..])
  {
    assert s[pos..] == [s[pos]] + s[pos + 1..];
  }

  // ---------- decoding over the same buffer ----------

  function Chars(b: seq<Byte>): (s: string)
    ensures |s| == |b|
  {
    seq(|b|, k requires 0 <= k < |b| => b[k] as char)
  }

  /** The buffer holds what has been put out, and behind it what it held before. */
  ghost predicate Overwritten(buffer: string, was: string, out: seq<Byte>) {
    && |out| <= |was|
    && buffer == Chars(out) + was[|out|..]
  }

  lemma OverwrittenStep(buffer: string, was: string, out: seq<Byte>, b: Byte)
    requires Overwritten(buffer, was, out) && |out| < |was|
    ensures |buffer| == |was| && Overwritten(buffer[|out| := b as char], was, out + [b])
  {
    assert Chars(out + [b]) == Chars(out) + [b as char];
  }

  lemma OverwrittenBehind(buffer: string, was: string, out: seq<Byte>, k: nat)
    requires Overwritten(buffer, was, out) && |out| <= k
    ensures |buffer| == |was|
    ensures k < |was| ==> buffer[k] == was[k]
    ensures k <= |was| ==> buffer[k..] == was[k..]
    ensures buffer[..|out|] == Chars(out)
  {
  }

  /** The loop in place: six bits in for each character and eight out for each byte, so that writing
      stays behind reading. */
  ghost predicate InPlace(buffer: string, was: string, read: nat, al: Alphabet, last: nat, bits: nat,
                          out: seq<Byte>, whole: Run)
  {
    && Midway(was, read, al, last, bits, out, whole)
    && Overwritten(buffer, was, out)
    && 6 * read == 8 * |out| + bits
  }

  lemma InPlaceNow(buffer: string, was: string, read: nat, al: Alphabet, last: nat, bits: nat,
                   out: seq<Byte>, whole: Run)
    requires InPlace(buffer, was, read, al, last, bits, out, whole)
    ensures |out| <= read <= |was| == |buffer| && BitsOk(bits) && last < 64
    ensures bits + 6 >= 8 ==> (bits == 2 || bits == 4 || bits == 6) && |out| < read + 1
    ensures buffer[read..] == was[read..] && buffer[..|out|] == Chars(out)
  {
    OverwrittenBehind(buffer, was, out, read);
  }

  lemma InPlaceStep(buffer: string, was: string, read: nat, al: Alphabet, last: nat, bits: nat,
                    out: seq<Byte>, whole: Run)
    requires InPlace(buffer, was, read, al, last, bits, out, whole) && read < |was| == |buffer|
    requires buffer[read] != '=' && Value(al, buffer[read]).Some?
    ensures BitsOk(bits) && last < 64
    ensures var (v, al') := Value(al, buffer[read]).value;
      && (bits < 2 ==> InPlace(buffer, was, read + 1, al', v, bits + 6, out, whole))
      && (bits >= 2 ==>
            && |out| < |buffer|
            && InPlace(buffer[|out| := Merged(last, bits, v) as char], was, read + 1, al', v, bits - 2,
                       out + [Merged(last, bits, v)], whole))
  {
    InPlaceNow(buffer, was, read, al, last, bits, out, whole);
    hide Chars, Decoded, Value, Merged;
    OverwrittenBehind(buffer, was, out, read);
    MidwayStep(was, read, al, last, bits, out, whole);
    if bits >= 2 {
      OverwrittenStep(buffer, was, out, Merged(last, bits, Value(al, buffer[read]).value.0));
    }
  }

  lemma InPlaceStuck(buffer: string, was: string, read: nat, al: Alphabet, last: nat, bits: nat,
                     out: seq<Byte>, whole: Run)
    requires InPlace(buffer, was, read, al, last, bits, out, whole) && read < |was| == |buffer|
    requires buffer[read] != '=' && Value(al, buffer[read]).None?
    ensures !whole.ok && out == whole.bytes && Overwritten(buffer, was, out)
  {
    OverwrittenBehind(buffer, was, out, read);
    MidwayStep(was, read, al, last, bits, out, whole);
  }

  lemma InPlaceDone(buffer: string, was: string, read: nat, al: Alphabet, last: nat, bits: nat,
                    out: seq<Byte>, whole: Run)
    requires InPlace(buffer, was, read, al, last, bits, out, whole) && read <= |was| == |buffer|
    requires read == |buffer| || buffer[read] == '='
    ensures whole.ok && out == whole.bytes && |out| <= read == whole.read && Overwritten(buffer, was, out)
  {
    InPlaceNow(buffer, was, read, al, last, bits, out, whole);
    OverwrittenBehind(buffer, was, out, read);
    MidwayEnd(was, read, al, last, bits, out, whole);
  }

  /** One turn of the loop: a character read, and perhaps a byte written. */
  method StepInPlace(buffer: array<char>, part: (nat, Alphabet), ghost was: string, ghost read: nat, written: nat,
                     ghost al: Alphabet, last: nat, bits: nat, ghost out: seq<Byte>, ghost whole: Run)
    returns (written': nat, bits': nat, ghost out': seq<Byte>)
    requires InPlace(buffer[..], was, read, al, last, bits, out, whole) && written == |out|
    requires read < |was| == buffer.Length && buffer[read] != '=' && Value(al, buffer[read]) == Some(part)
    modifies buffer
    ensures InPlace(buffer[..], was, read + 1, part.1, part.0, bits', out', whole) && written' == |out'|
  {
    InPlaceStep(buffer[..], was, read, al, last, bits, out, whole);
    hide *;
    if bits + 6 >= 8 {
      ghost var before := buffer[..];
      var byte := Merged(last, bits, part.0);
      buffer[written] := byte as char;
      assert buffer[..] == before[written := byte as char];
      return written + 1, bits - 2, out + [byte];
    }
    return written, bits + 6, out;
  }

  /** The main loop over one buffer. */
  method DecodeLoopInPlace(buffer: array<char>, a: Alphabet) returns (read: nat, written: nat, ok: bool)
    modifies buffer
    ensures var whole := Decoded(old(buffer[..]), a, 0, 0);
      && ok == whole.ok && written == |whole.bytes| && Overwritten(buffer[..], old(buffer[..]), whole.bytes)
      && (ok ==> written <= read == whole.read && read <= buffer.Length)
  {
    hide *;
    NoBits();
    ghost var input := buffer[..];
    ghost var whole := Decoded(input, a, 0, 0);
    ghost var out: seq<Byte> := [];
    var al := a;
    var last: nat, bits: nat := 0, 0;
    read, written := 0, 0;
    InPlaceStart(input, a);
    while read < buffer.Length
      invariant InPlace(buffer[..], input, read, al, last, bits, out, whole) && written == |out|
    {
      InPlaceNow(buffer[..], input, read, al, last, bits, out, whole);
      var c := buffer[read];
      assert buffer[..][read] == c;
      if c == '=' {
        break;
      }
      var part := Value(al, c);
      if part.None? {
        InPlaceStuck(buffer[..], input, read, al, last, bits, out, whole);
        return read, written, false;
      }
      written, bits, out := StepInPlace(buffer, part.value, input, read, written, al, last, bits, out, whole);
      last, al, read := part.value.0, part.value.1, read + 1;
    }
    InPlaceNow(buffer[..], input, read, al, last, bits, out, whole);
    InPlaceDone(buffer[..], input, read, al, last, bits, out, whole);
    ok := true;
  }

  lemma NoBits()
    ensures BitsOk(0)
  {
  }

  lemma InPlaceStart(was: string, a: Alphabet)
    ensures InPlace(was, was, 0, a, 0, 0, [], Decoded(was, a, 0, 0))
  {
    hide Decoded;
    assert was[0..] == was && Chars([]) + was[0..] == was;
  }

  /** Decoding a buffer into itself gives what decoding it into a fresh one gives: what is read is
      never behind what has been written. */
  method DecodeInPlace(buffer: array<char>, a: Alphabet, behavior: Behavior) returns (r: Result<nat>)
    modifies buffer
    ensures r.Ok? <==> Decode(old(buffer[..]), a, behavior).Ok?
    ensures r.Ok? ==> r.value == |Decode(old(buffer[..]), a, behavior).value| <= buffer.Length
    ensures r.Ok? ==> buffer[..r.value] == Chars(Decode(old(buffer[..]), a, behavior).value)
    ensures Overwritten(buffer[..], old(buffer[..]), Decoded(old(buffer[..]), a, 0, 0).bytes)
  {
    hide Decoded, Chars;
    ghost var input := buffer[..];
    var read, written, ok := DecodeLoopInPlace(buffer, a);
    if !ok {
      return Invalid;
    }
    OverwrittenBehind(buffer[..], input, Decoded(input, a, 0, 0).bytes, read);
    assert buffer[read..] == buffer[..][read..];
    if behavior != Loose {
      var padded := OnlyPadding(buffer, read);
      if !padded {
        return Invalid;
      }
    }
    r := Ok(written);
  }

  method OnlyPadding(buffer: array<char>, from: nat) returns (ok: bool)
    requires from <= buffer.Length
    ensures ok <==> AllPadding(buffer[from..])
  {
    for i := from to buffer.Length
      invariant AllPadding(buffer[from..]) <==> AllPadding(buffer[i..])
    {
      PaddingStep(buffer[..], i);
      assert buffer[i..] == buffer[..][i..] && buffer[i + 1..] == buffer[..][i + 1..];
      if buffer[i] != '=' {
        return false;
      }
    }
    ok := true;
  }

  // ---------- the round trip ----------

  predicate Fitting(known: Alphabet, a: Alphabet) {
    known == Auto || known == if a == UrlSafe then UrlSafe else Standard
  }

  lemma LetterValue(a: Alphabet, known: Alphabet, v: nat)
    requires v < 64 && Fitting(known, a)
    ensures Letter(a, v) != '='
    ensures Value(known, Letter(a, v)).Some? && Value(known, Letter(a, v)).value.0 == v
    ensures Fitting(Value(known, Letter(a, v)).value.1, a)
  {
  }

  lemma LetterStep(v: nat, s: string, a: Alphabet, known: Alphabet, last: nat, bits: nat)
    returns (k: Alphabet)
    requires BitsOk(bits) && last < 64 && v < 64 && Fitting(known, a)
    ensures Fitting(k, a)
    ensures bits >= 2 ==>
              var r := Decoded(s, k, v, bits - 2);
              Decoded([Letter(a, v)] + s, known, last, bits) == Run([Merged(last, bits, v)] + r.bytes, r.read + 1, r.ok)
    ensures bits == 0 ==>
              var r := Decoded(s, k, v, 6);
              Decoded([Letter(a, v)] + s, known, last, bits) == Run(r.bytes, r.read + 1, r.ok)
  {
    LetterValue(a, known, v);
    hide Letter, Value, Decoded, Merged, Fitting;
    var t := [Letter(a, v)] + s;
    DecodedStep(t, known, last, bits);
    assert t[1..] == s;
    k := Value(known, Letter(a, v)).value.1;
  }

  lemma LowPart(hi: nat, lo: nat)
    ensures lo < 16 ==> (hi * 16 + lo) / 16 == hi
    ensures lo < 4 ==> (hi * 4 + lo) / 4 == hi
    ensures lo < 256 ==> (hi * 256 + lo) % 256 == lo
  {
  }

  lemma MergedFirst(b0: Byte, b1: Byte)
    ensures Merged(First(b0), 6, Second(b0, b1)) == b0
  {
    LowPart(b0 % 4, b1 / 16);
  }

  lemma MergedSecond(b0: Byte, b1: Byte, b2: Byte)
    ensures Merged(Second(b0, b1), 4, Third(b1, b2)) == b1
  {
    var hi, lo := b0 % 4, b1 / 16;
    assert Second(b0, b1) * 16 == hi * 256 + lo * 16;
    LowPart(hi, lo * 16);
    LowPart(b1 % 16, b2 / 64);
  }

  lemma MergedThird(b1: Byte, b2: Byte)
    ensures Merged(Third(b1, b2), 2, Fourth(b2)) == b2
  {
    var hi, lo := b1 % 16, b2 / 64;
    assert Third(b1, b2) * 64 == hi * 256 + lo * 64;
    LowPart(hi, lo * 64);
  }

  /** Cutting bytes into six-bit values and merging these again gives the bytes. */
  lemma MergedBack(b0: Byte, b1: Byte, b2: Byte)
    ensures Merged(First(b0), 6, Second(b0, b1)) == b0
    ensures Merged(Second(b0, b1), 4, Third(b1, b2)) == b1
    ensures Merged(Third(b1, b2), 2, Fourth(b2)) == b2
  {
    hide *;
    MergedFirst(b0, b1);
    MergedSecond(b0, b1, b2);
    MergedThird(b1, b2);
  }

  /** A full group of four characters gives its three bytes, and the rest is decoded afresh. */
  lemma FullGroup(b: seq<Byte>, t: string, a: Alphabet, known: Alphabet, last: nat)
    returns (k: Alphabet, v: nat)
    requires |b| >= 3 && last < 64 && Fitting(known, a)
    ensures Fitting(k, a) && v < 64
    ensures var r := Decoded(t, k, v, 0);
      Decoded(Group(b, a) + t, known, last, 0) == Run(b[..3] + r.bytes, r.read + 4, r.ok)
  {
    hide Decoded, Letter, Merged, First, Second, Third, Fourth, Fitting;
    v := Fourth(b[2]);
    var s3 := [Letter(a, Fourth(b[2]))] + t;
    var s2 := [Letter(a, Third(b[1], b[2]))] + s3;
    var s1 := [Letter(a, Second(b[0], b[1]))] + s2;
    assert Group(b, a) + t == [Letter(a, First(b[0]))] + s1;
    var k0 := LetterStep(First(b[0]), s1, a, known, last, 0);
    var k1 := LetterStep(Second(b[0], b[1]), s2, a, k0, First(b[0]), 6);
    var k2 := LetterStep(Third(b[1], b[2]), s3, a, k1, Second(b[0], b[1]), 4);
    k := LetterStep(Fourth(b[2]), t, a, k2, Third(b[1], b[2]), 2);
    MergedBack(b[0], b[1], b[2]);
    var r := Decoded(t, k, v, 0);
    assert [b[0]] + ([b[1]] + ([b[2]] + r.bytes)) == b[..3] + r.bytes;
  }

  /** One or two bytes and their padding. */
  lemma LastGroup(b: seq<Byte>, a: Alphabet, known: Alphabet, last: nat)
    requires 1 <= |b| <= 2 && last < 64 && Fitting(known, a)
    ensures Decoded(Group(b, a), known, last, 0) == Run(b, |b| + 1, true)
    ensures AllPadding(Group(b, a)[|b| + 1..])
  {
    hide Decoded, Letter, Merged, First, Second, Third, Fourth, Fitting;
    if |b| == 1 {
      var s1 := [Letter(a, Second(b[0], 0))] + "==";
      assert Group(b, a) == [Letter(a, First(b[0]))] + s1;
      var k0 := LetterStep(First(b[0]), s1, a, known, last, 0);
      var k1 := LetterStep(Second(b[0], 0), "==", a, k0, First(b[0]), 6);
      DecodedEnds("==", k1, Second(b[0], 0), 4);
      MergedBack(b[0], 0, 0);
      assert [b[0]] + [] == b;
    } else {
      var s2 := [Letter(a, Third(b[1], 0))] + "=";
      var s1 := [Letter(a, Second(b[0], b[1]))] + s2;
      assert Group(b, a) == [Letter(a, First(b[0]))] + s1;
      var k0 := LetterStep(First(b[0]), s1, a, known, last, 0);
      var k1 := LetterStep(Second(b[0], b[1]), s2, a, k0, First(b[0]), 6);
      var k2 := LetterStep(Third(b[1], 0), "=", a, k1, Second(b[0], b[1]), 4);
      DecodedEnds("=", k2, Third(b[1], 0), 2);
      MergedBack(b[0], b[1], 0);
      assert [b[0]] + ([b[1]] + []) == b;
    }
  }

  lemma {:induction false} EncodedIsDecoded(b: seq<Byte>, a: Alphabet, known: Alphabet, last: nat)
    requires last < 64 && Fitting(known, a)
    ensures var r := Decoded(Encode(b, a), known, last, 0);
      r.ok && r.bytes == b && AllPadding(Encode(b, a)[r.read..])
    decreases |b|
  {
    hide Group, Fitting, Encode, Decoded, AllPadding;
    EncodeIs(b, a);
    NoPadding(Encode(b, a));
    if b == [] {
      DecodedEnds("", known, last, 0);
    } else if |b| < 3 {
      LastGroup(b, a, known, last);
    } else {
      var t := Encode(b[3..], a);
      var k, v := FullGroup(b, t, a, known, last);
      EncodedIsDecoded(b[3..], a, k, v);
      var r := Decoded(t, k, v, 0);
      assert b == b[..3] + b[3..];
      ReadInside(t, k, v);
      assert (Group(b, a) + t)[r.read + 4..] == t[r.read..];
    }
  }

  lemma EncodeIs(b: seq<Byte>, a: Alphabet)
    ensures Encode(b, a) == if b == [] then "" else if |b| < 3 then Group(b, a) else Group(b, a) + Encode(b[3..], a)
  {
    hide Group;
    if 0 < |b| < 3 {
      assert Encode(b, a) == Group(b, a) + "";
    }
  }

  lemma NoPadding(s: string)
    ensures AllPadding(s[|s|..])
  {
  }

  lemma ReadInside(s: string, a: Alphabet, last: nat)
    requires last < 64
    ensures Decoded(s, a, last, 0).read <= |s|
  {
  }

  /** Decoding an encoding gives back the bytes: with the alphabet they were encoded with, or detecting
      it, and in either behaviour. */
  lemma RoundTrip(b: seq<Byte>, a: Alphabet, known: Alphabet, behavior: Behavior)
    requires Fitting(known, a)
    ensures Decode(Encode(b, a), known, behavior) == Ok(b)
  {
    EncodedIsDecoded(b, a, known, 0);
  }

  /** With the alphabet given, exactly the texts pass that hold no foreign character before the padding. */
  lemma {:induction false} AcceptedAlphabet(s: string, known: Alphabet, last: nat, bits: nat)
    requires known != Auto && BitsOk(bits) && last < 64
    ensures Decoded(s, known, last, bits).ok <==>
            forall k :: 0 <= k < |s| && (forall j :: 0 <= j <= k ==> s[j] != '=') ==> Value(known, s[k]).Some?
    decreases |s|
  {
    if s != "" && s[0] != '=' && Value(known, s[0]).Some? {
      var (v, a') := Value(known, s[0]).value;
      assert a' == known;
      AcceptedAlphabet(s[1..], known, v, if bits >= 2 then bits - 2 else bits + 6);
      assert forall j :: 0 < j < |s| ==> s[j] == s[1..][j - 1];
      assert forall j :: 0 <= j < |s| - 1 ==> s[1..][j] == s[j + 1];
    }
  }
}
