/** Reading a hexadecimal processor mask into an array of flags. */
module CpuMask {
  import opened Text

  const MAX_THREADS := 512
  const MAX_DIGITS := 128
  const SIZE_RANGE := 0x1_0000_0000_0000_0000

  function Nibble(c: char): (r: Option<nat>)
    ensures r.Some? ==> r.value < 16
  {
    if '0' <= c <= '9' then Some(c as nat - '0' as nat)
    else if 'a' <= c <= 'f' then Some(c as nat - 'a' as nat + 10)
    else if 'A' <= c <= 'F' then Some(c as nat - 'A' as nat + 10)
    else None
  }

  /** The characters read: without a leading "0x", and no more than the array has flags for. */
  function Digits(mask: string): (s: string)
    ensures |s| <= MAX_DIGITS
  {
    var s := if "0x" <= mask then mask[2..] else mask;
    if |s| > MAX_DIGITS then s[..MAX_DIGITS] else s
  }

  /** The digits before the first character that is none. */
  function Leading(s: string): (d: seq<nat>)
    ensures |d| <= |s| && forall k :: 0 <= k < |d| ==> d[k] < 16
  {
    if s == "" || Nibble(s[0]).None? then [] else [Nibble(s[0]).value] + Leading(s[1..])
  }

  /** The number that hexadecimal digits write, the first one the highest. */
  function Number(d: seq<nat>): nat {
    if d == [] then 0 else Number(d[..|d| - 1]) * 16 + d[|d| - 1]
  }

  predicate Bit(v: nat, k: nat) {
    if k == 0 then v % 2 == 1 else Bit(v / 2, k - 1)
  }

  lemma BitLow(v: nat, d: nat, k: nat)
    requires d < 16 && k < 4
    ensures Bit(v * 16 + d, k) == Bit(d, k)
  {
    var x := v * 16 + d;
    assert x / 2 == v * 8 + d / 2;
    assert x / 2 / 2 == v * 4 + d / 2 / 2;
    assert x / 2 / 2 / 2 == v * 2 + d / 2 / 2 / 2;
    BitsUnfold(x);
    BitsUnfold(d);
  }

  lemma BitsUnfold(v: nat)
    ensures Bit(v, 0) == (v % 2 == 1) && Bit(v, 1) == (v / 2 % 2 == 1)
    ensures Bit(v, 2) == (v / 2 / 2 % 2 == 1) && Bit(v, 3) == (v / 2 / 2 / 2 % 2 == 1)
  {
    assert Bit(v, 2) == Bit(v / 2, 1) == Bit(v / 2 / 2, 0);
    assert Bit(v, 3) == Bit(v / 2, 2) == Bit(v / 2 / 2, 1) == Bit(v / 2 / 2 / 2, 0);
  }

  lemma BitHigh(v: nat, d: nat, k: nat)
    requires d < 16 && k >= 4
    ensures Bit(v * 16 + d, k) == Bit(v, k - 4)
  {
    var x := v * 16 + d;
    assert x / 2 / 2 / 2 / 2 == v;
    assert Bit(x, k) == Bit(x / 2, k - 1) == Bit(x / 2 / 2, k - 2);
    assert Bit(x / 2 / 2, k - 2) == Bit(x / 2 / 2 / 2, k - 3) == Bit(x / 2 / 2 / 2 / 2, k - 4);
  }

  lemma {:induction false} BitNone(k: nat)
    ensures !Bit(0, k)
  {
    if k > 0 {
      BitNone(k - 1);
    }
  }

  /** Bit k of the number is bit k % 4 of the digit in place k / 4 from the end. */
  lemma {:induction false} BitOfNumber(d: seq<nat>, k: nat)
    requires forall i :: 0 <= i < |d| ==> d[i] < 16
    ensures Bit(Number(d), k) <==> k < 4 * |d| && Bit(d[|d| - 1 - k / 4], k % 4)
  {
    if d == [] {
      BitNone(k);
    } else {
      var lead, last := d[..|d| - 1], d[|d| - 1];
      if k < 4 {
        BitLow(Number(lead), last, k);
      } else {
        BitHigh(Number(lead), last, k);
        BitOfNumber(lead, k - 4);
        assert (k - 4) / 4 == k / 4 - 1 && (k - 4) % 4 == k % 4;
      }
    }
  }

  /** The flag that the first `i` of the digits ask for, `n` being how many digits there are in all. */
  predicate Asked(d: seq<nat>, n: nat, k: nat)
    requires |d| <= n
  {
    k >= 4 * (n - |d|) && Bit(Number(d), k - 4 * (n - |d|))
  }

  lemma AskedNext(d: seq<nat>, n: nat, k: nat)
    requires 0 < |d| <= n && forall i :: 0 <= i < |d| ==> d[i] < 16
    ensures var top := 4 * (n - |d|);
      Asked(d, n, k) <==>
      if top <= k < top + 4 then Bit(d[|d| - 1], k - top) else Asked(d[..|d| - 1], n, k)
  {
    var top, last, lead := 4 * (n - |d|), d[|d| - 1], d[..|d| - 1];
    if top <= k < top + 4 {
      BitLow(Number(lead), last, k - top);
    } else if k >= top + 4 {
      BitHigh(Number(lead), last, k - top);
    }
  }

  /** Unsigned subtraction wraps around. */
  function Minus(a: nat, b: nat): nat
    requires a < SIZE_RANGE && b < SIZE_RANGE
  {
    (a - b + SIZE_RANGE) % SIZE_RANGE
  }

  lemma {:induction false} LeadingAt(s: string, i: nat)
    requires i < |s| && i <= |Leading(s)|
    ensures i < |Leading(s)| <==> Nibble(s[i]).Some?
    ensures i < |Leading(s)| ==> Leading(s)[i] == Nibble(s[i]).value
  {
    if i > 0 {
      LeadingAt(s[1..], i - 1);
    }
  }

  lemma NothingAsked(n: nat)
    ensures forall k: nat :: !Asked([], n, k)
  {
    forall k: nat
      ensures !Asked([], n, k)
    {
      if k >= 4 * n {
        BitNone(k - 4 * n);
      }
    }
  }

  lemma AskedFor(d: seq<nat>, m: nat, n: nat)
    requires m < |d| && m < n && forall i :: 0 <= i < |d| ==> d[i] < 16
    ensures forall k: nat ::
      Asked(d[..m + 1], n, k) <==>
      Asked(d[..m], n, k) || (4 * (n - m) - 4 <= k < 4 * (n - m) && Bit(d[m], k - (4 * (n - m) - 4)))
  {
    assert d[..m + 1][..m] == d[..m];
    forall k: nat
      ensures Asked(d[..m + 1], n, k) <==>
              Asked(d[..m], n, k) || (4 * (n - m) - 4 <= k < 4 * (n - m) && Bit(d[m], k - (4 * (n - m) - 4)))
    {
      AskedNext(d[..m + 1], n, k);
    }
  }

  /** The four flags of one digit. */
  method SetFour(flags: array<bool>, n: nat, id: nat)
    requires 3 <= n < flags.Length && id < 16
    modifies flags
    ensures forall k :: 0 <= k < flags.Length ==>
              flags[k] == (old(flags[k]) || (n - 3 <= k <= n && Bit(id, k - (n - 3))))
  {
    BitsUnfold(id);
    assert id / 4 == id / 2 / 2 && id / 8 == id / 2 / 2 / 2;
    hide Bit;
    flags[n] := flags[n] || id / 8 % 2 == 1;
    flags[n - 1] := flags[n - 1] || id / 4 % 2 == 1;
    flags[n - 2] := flags[n - 2] || id / 2 % 2 == 1;
    flags[n - 3] := flags[n - 3] || id % 2 == 1;
  }

  /** Flag k keeps its value or is bit k of the number read; when a character is no digit the digits
      before it have taken effect, at the places they have in the whole mask. */
  method ParseCpuMask(mask: string, flags: array<bool>) returns (ok: bool)
    requires flags.Length == MAX_THREADS && |mask| < SIZE_RANGE
    modifies flags
    ensures ok <==> |Leading(Digits(mask))| == |Digits(mask)|
    ensures forall k :: 0 <= k < MAX_THREADS ==>
              flags[k] == (old(flags[k]) || Asked(Leading(Digits(mask)), |Digits(mask)|, k))
  {
    hide *;
    Limits();
    ghost var s, d := Digits(mask), Leading(Digits(mask));
    DigitsAre(mask);
    var start := 0;
    if |mask| >= 2 && mask[..2] == "0x" {
      start := 2;
    }
    var digits: nat := |mask| - start;
    if digits > MAX_DIGITS {
      digits := MAX_DIGITS;
    }
    var end := digits + start;
    var i, n := start, Minus(digits * 4, 1);
    NothingAsked(digits);
    MinusIs(digits * 4, 1);
    assert d[..0] == [];
    ghost var was := flags[..];
    while i < end
      invariant start <= i <= end && i - start <= |d| <= digits
      invariant n < SIZE_RANGE && (i < end ==> n == 4 * (end - i) - 1)
      invariant forall k :: 0 <= k < MAX_THREADS ==> flags[k] == (was[k] || Asked(d[..i - start], digits, k))
    {
      LeadingAt(s, i - start);
      var id := Nibble(mask[i]);
      if id.None? {
        assert d[..i - start] == d;
        return false;
      }
      AskedFor(d, i - start, digits);
      SetFour(flags, n, id.value);
      MinusIs(n, 4);
      i, n := i + 1, Minus(n, 4);
    }
    assert d[..i - start] == d;
    ok := true;
  }

  lemma Limits()
    ensures MAX_DIGITS == 128 && MAX_THREADS == 512 && SIZE_RANGE > 512
  {
  }

  lemma MinusIs(a: nat, b: nat)
    requires a < SIZE_RANGE && b < SIZE_RANGE
    ensures Minus(a, b) < SIZE_RANGE && (b <= a ==> Minus(a, b) == a - b)
  {
  }

  lemma DigitsAre(mask: string)
    ensures var start := if |mask| >= 2 && mask[..2] == "0x" then 2 else 0;
      var n := if |mask| - start > MAX_DIGITS then MAX_DIGITS else |mask| - start;
      |Digits(mask)| == n && Digits(mask) == mask[start..start + n]
  {
    assert |mask| >= 2 && mask[..2] == "0x" <==> "0x" <= mask;
  }

  // ---------- writing a mask and reading it ----------

  function HexChar(v: nat): (c: char)
    requires v < 16
    ensures Nibble(c) == Some(v)
  {
    if v < 10 then '0' + v as char else 'a' + (v - 10) as char
  }

  /** The last `n` hexadecimal digits of a number. */
  function Written(v: nat, n: nat): (s: string)
    ensures |s| == n
  {
    if n == 0 then "" else Written(v / 16, n - 1) + [HexChar(v % 16)]
  }

  function Values(v: nat, n: nat): (d: seq<nat>)
    ensures |d| == n
  {
    if n == 0 then [] else Values(v / 16, n - 1) + [v % 16]
  }

  lemma {:induction false} LeadingGrows(s: string, c: char)
    requires |Leading(s)| == |s| && Nibble(c).Some?
    ensures Leading(s + [c]) == Leading(s) + [Nibble(c).value]
  {
    if s == "" {
      assert (s + [c])[1..] == "";
    } else {
      assert (s + [c])[1..] == s[1..] + [c];
      LeadingGrows(s[1..], c);
    }
  }

  lemma {:induction false} WrittenIsRead(v: nat, n: nat)
    ensures Leading(Written(v, n)) == Values(v, n)
  {
    if n > 0 {
      WrittenIsRead(v / 16, n - 1);
      LeadingGrows(Written(v / 16, n - 1), HexChar(v % 16));
    }
  }

  lemma {:induction false} ValuesBits(v: nat, n: nat, k: nat)
    requires k < 4 * n
    ensures Bit(Number(Values(v, n)), k) <==> Bit(v, k)
  {
    var d, hi, lo := Values(v, n), v / 16, v % 16;
    assert d[..n - 1] == Values(hi, n - 1) && d[n - 1] == lo && v == hi * 16 + lo;
    hide Bit, Values;
    if k < 4 {
      BitLow(Number(d[..n - 1]), lo, k);
      BitLow(hi, lo, k);
    } else {
      BitHigh(Number(d[..n - 1]), lo, k);
      BitHigh(hi, lo, k);
      ValuesBits(hi, n - 1, k - 4);
    }
  }

  /** A number of at most 512 bits, written out behind "0x", asks for exactly its own bits. */
  lemma MaskRoundTrip(v: nat, n: nat, k: nat)
    requires n <= MAX_DIGITS && k < 4 * n
    ensures var s := Digits("0x" + Written(v, n));
      && |Leading(s)| == |s| == n
      && (Asked(Leading(s), n, k) <==> Bit(v, k))
  {
    var mask := "0x" + Written(v, n);
    assert mask[2..] == Written(v, n) && "0x" <= mask;
    WrittenIsRead(v, n);
    ValuesBits(v, n, k);
  }
}
