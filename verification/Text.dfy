/** String helpers of common.h and common.cpp.

    Each search or trim that the program writes as a loop is a method here, proved
    equal to a function whose contract says what the answer means. */
module Text {

  datatype Option<+T> = None | Some(value: T)

  /** isspace in the "C" locale. */
  predicate IsSpace(c: char) {
    c == ' ' || c == '\t' || c == '\n' || c == 0x0b as char || c == 0x0c as char || c == '\r'
  }

  predicate AllSpace(s: string) {
    forall i :: 0 <= i < |s| ==> IsSpace(s[i])
  }

  /** Every character of s[i..r] is a space. */
  predicate SpacesIn(s: string, i: nat, r: nat)
    requires i <= r <= |s|
  {
    forall k :: i <= k < r ==> IsSpace(s[k])
  }

  // ---------- literal search ----------

  predicate MatchAt(s: string, i: nat, lit: string) {
    i + |lit| <= |s| && s[i..i + |lit|] == lit
  }

  lemma MatchChars(s: string, i: nat, lit: string)
    ensures MatchAt(s, i, lit) <==> i + |lit| <= |s| && forall k :: i <= k < i + |lit| ==> s[k] == lit[k - i]
  {
    if i + |lit| <= |s| {
      assert forall k :: i <= k < i + |lit| ==> s[i..i + |lit|][k - i] == s[k];
    }
  }

  /** std::string::find: the first occurrence at or after `from`. */
  function Find(s: string, lit: string, from: nat): (r: Option<nat>)
    ensures r.Some? ==> from <= r.value && MatchAt(s, r.value, lit)
    decreases |s| - from
  {
    if from + |lit| > |s| then None
    else if s[from..from + |lit|] == lit then Some(from)
    else Find(s, lit, from + 1)
  }

  /** Nothing matches before the position found, and nothing at all when none is found. */
  lemma {:induction false} FindIsFirst(s: string, lit: string, from: nat)
    ensures Find(s, lit, from).Some? ==> forall j :: from <= j < Find(s, lit, from).value ==> !MatchAt(s, j, lit)
    ensures Find(s, lit, from).None? ==> forall j :: from <= j ==> !MatchAt(s, j, lit)
    decreases |s| - from
  {
    if from + |lit| <= |s| && s[from..from + |lit|] != lit {
      FindIsFirst(s, lit, from + 1);
    }
  }

  /** These two facts leave no choice. */
  lemma FindIs(s: string, lit: string, from: nat, at: nat)
    requires from <= at && MatchAt(s, at, lit)
    requires forall j :: from <= j < at ==> !MatchAt(s, j, lit)
    ensures Find(s, lit, from) == Some(at)
  {
    FindIsFirst(s, lit, from);
  }

  /** A match found in a text is found unchanged in every extension of it. */
  lemma FindExtends(s: string, t: string, lit: string, from: nat)
    requires s <= t && Find(s, lit, from).Some?
    ensures Find(t, lit, from) == Find(s, lit, from)
  {
    FindIsFirst(s, lit, from);
    var i := Find(s, lit, from).value;
    assert s[i..i + |lit|] == t[i..i + |lit|];
    forall j | from <= j < i ensures !MatchAt(t, j, lit) {
      assert !MatchAt(s, j, lit);
      assert s[j..j + |lit|] == t[j..j + |lit|];
    }
    FindIs(t, lit, from, i);
  }

  /** Reading a text piece by piece: what stands at `at`, and what follows it. */
  lemma Piece(s: string, at: nat, a: string, rest: string)
    requires at <= |s| && s[at..] == a + rest
    ensures at + |a| <= |s| && s[at..at + |a|] == a && s[at + |a|..] == rest
    ensures MatchAt(s, at, a)
  {
    var u := s[at..];
    assert s[at..at + |a|] == u[..|a|];
    assert s[at + |a|..] == u[|a|..];
  }

  /** A field that does not hide its delimiter is delimited correctly inside any text. */
  lemma DelimiterFound(s: string, at: nat, field: string, delim: string, rest: string)
    requires Find(field + delim, delim, 0) == Some(|field|)
    requires at <= |s| && s[at..] == field + delim + rest
    ensures Find(s, delim, at) == Some(at + |field|)
  {
    hide Find;
    var fd := field + delim;
    FindIsFirst(fd, delim, 0);
    Piece(s, at, fd, rest);
    assert forall k :: at <= k < at + |fd| ==> s[k] == fd[k - at] by {
      assert forall k :: at <= k < at + |fd| ==> s[at..at + |fd|][k - at] == s[k];
    }
    forall j | at <= j <= at + |field| ensures MatchAt(s, j, delim) == MatchAt(fd, j - at, delim) {
      assert s[j..j + |delim|] == fd[j - at..j - at + |delim|];
    }
    FindIs(s, delim, at, at + |field|);
  }

  // ---------- partial stop words ----------

  /** A non-empty suffix of `s`, starting at `i`, begins `stop`. */
  predicate PartialAt(s: string, i: nat, stop: string) {
    i < |s| && s[i..] <= stop
  }

  /** The leftmost start of a suffix that begins `stop`, looking only at suffixes of at most `len` characters. */
  function PartialStopFrom(s: string, stop: string, len: nat): (r: Option<nat>)
    requires len <= |s| && len <= |stop|
    ensures r.Some? ==> |s| - len <= r.value && PartialAt(s, r.value, stop)
  {
    if len == 0 then None
    else if s[|s| - len..] == stop[..len] then Some(|s| - len)
    else PartialStopFrom(s, stop, len - 1)
  }

  /** string_find_partial_stop. */
  function PartialStop(s: string, stop: string): (r: Option<nat>)
    ensures r.Some? ==> PartialAt(s, r.value, stop)
  {
    PartialStopFrom(s, stop, if |s| < |stop| then |s| else |stop|)
  }

  lemma PartialStopStep(s: string, stop: string, len: nat)
    requires 0 < len <= |s| && len <= |stop|
    ensures PartialStopFrom(s, stop, len) ==
            if PartialAt(s, |s| - len, stop) then Some(|s| - len) else PartialStopFrom(s, stop, len - 1)
  {
    assert PartialAt(s, |s| - len, stop) <==> s[|s| - len..] == stop[..len];
  }

  lemma NoSuffixLeft(s: string, stop: string)
    ensures PartialStopFrom(s, stop, 0) == None && forall j: nat :: j >= |s| ==> !PartialAt(s, j, stop)
  {
  }

  lemma {:induction false} PartialStopFromIsFirst(s: string, stop: string, len: nat)
    requires len <= |s| && len <= |stop|
    ensures var r := PartialStopFrom(s, stop, len);
            r.Some? ==> forall j :: |s| - len <= j < r.value ==> !PartialAt(s, j, stop)
    ensures var r := PartialStopFrom(s, stop, len);
            r.None? ==> forall j :: |s| - len <= j ==> !PartialAt(s, j, stop)
  {
    hide *;
    if len == 0 {
      NoSuffixLeft(s, stop);
    } else {
      PartialStopStep(s, stop, len);
      PartialStopFromIsFirst(s, stop, len - 1);
    }
  }

  /** No longer suffix begins `stop`, and none at all when none is found. */
  lemma PartialStopIsFirst(s: string, stop: string)
    ensures PartialStop(s, stop).Some? ==>
              forall j: nat :: j < PartialStop(s, stop).value ==> !PartialAt(s, j, stop)
    ensures PartialStop(s, stop).None? ==> forall j: nat :: !PartialAt(s, j, stop)
  {
    var m := if |s| < |stop| then |s| else |stop|;
    assert forall j: nat :: j < |s| - m ==> !PartialAt(s, j, stop);
    PartialStopFromIsFirst(s, stop, m);
  }

  /** string_starts_with. */
  predicate StartsWith(s: string, prefix: string)
    ensures StartsWith(s, prefix) <==> prefix <= s
  {
    |s| >= |prefix| && s[..|prefix|] == prefix
  }

  /** string_ends_with. */
  predicate EndsWith(s: string, suffix: string) {
    |s| >= |suffix| && s[|s| - |suffix|..] == suffix
  }

  /** One length of the countdown; only a suffix with the right last character can be the one. */
  lemma PartialStopTurn(s: string, stop: string, len: nat)
    requires 0 < len <= |s| && len <= |stop|
    ensures PartialStopFrom(s, stop, len) ==
            if EndsWith(s, stop[..len]) then Some(|s| - len) else PartialStopFrom(s, stop, len - 1)
    ensures EndsWith(s, stop[..len]) ==> stop[len - 1] == s[|s| - 1]
  {
    assert s[|s| - len..][len - 1] == s[|s| - 1] && stop[..len][len - 1] == stop[len - 1];
  }

  /** string_find_partial_stop, with its countdown and its last-character filter. */
  method StringFindPartialStop(s: string, stop: string) returns (r: Option<nat>)
    ensures r == PartialStop(s, stop)
  {
    if |s| > 0 && |stop| > 0 {
      var maxLen := if |s| < |stop| then |s| else |stop|;
      var lastChar := s[|s| - 1];
      var len := maxLen;
      while len > 0
        invariant 0 <= len <= maxLen
        invariant PartialStop(s, stop) == PartialStopFrom(s, stop, len)
      {
        hide PartialStop, PartialStopFrom, EndsWith;
        PartialStopTurn(s, stop, len);
        if stop[len - 1] == lastChar {
          if EndsWith(s, stop[..len]) {
            return Some(|s| - len);
          }
        }
        len := len - 1;
      }
    }
    return None;
  }

  /** An occurrence of `lit` that straddles or follows the end of `s` starts no earlier than
      the leftmost partial stop of `s`. */
  lemma OccurrenceIsPartial(s: string, t: string, lit: string, j: nat)
    requires s <= t && MatchAt(t, j, lit) && j < |s| <= j + |lit|
    ensures PartialAt(s, j, lit)
  {
    assert s[j..] == t[j..|s|] == lit[..|s| - j];
  }

  /** Shortening the text shortens the suffix: what begins `lit` still does. */
  lemma PartialShrinks(s: string, t: string, lit: string, j: nat)
    requires s <= t && PartialAt(t, j, lit) && j < |s|
    ensures PartialAt(s, j, lit)
  {
    assert s[j..] == t[j..][..|s| - j];
  }

  // ---------- whitespace ----------

  /** The first position at or after `i` that holds no whitespace. */
  function SkipSpaces(s: string, i: nat): (r: nat)
    requires i <= |s|
    ensures i <= r <= |s| && SpacesIn(s, i, r)
    ensures r < |s| ==> !IsSpace(s[r])
    decreases |s| - i
  {
    if i < |s| && IsSpace(s[i]) then SkipSpaces(s, i + 1) else i
  }

  lemma SkipSpacesIs(s: string, i: nat, r: nat)
    requires i <= r <= |s| && SpacesIn(s, i, r) && (r < |s| ==> !IsSpace(s[r]))
    ensures SkipSpaces(s, i) == r
  {
  }

  lemma SkipSpacesExtends(s: string, t: string, i: nat)
    requires s <= t && i <= |s|
    ensures SkipSpaces(s, i) <= SkipSpaces(t, i)
    ensures SkipSpaces(s, i) < |s| ==> SkipSpaces(t, i) == SkipSpaces(s, i)
  {
    var r := SkipSpaces(s, i);
    var q := SkipSpaces(t, i);
    assert forall k :: 0 <= k < |s| ==> s[k] == t[k];
  }

  /** One past the last non-blank character of s[start..end], or `start`. */
  function BackSpaces(s: string, start: nat, end: nat): (r: nat)
    requires start <= end <= |s|
    ensures start <= r <= end && SpacesIn(s, r, end)
    ensures r > start ==> !IsSpace(s[r - 1])
  {
    if end > start && IsSpace(s[end - 1]) then BackSpaces(s, start, end - 1) else end
  }

  /** string_strip. */
  function Strip(s: string): (r: string)
    ensures Stripped(r)
  {
    var a := SkipSpaces(s, 0);
    s[a..BackSpaces(s, a, |s|)]
  }

  predicate Stripped(s: string) {
    s == [] || (!IsSpace(s[0]) && !IsSpace(s[|s| - 1]))
  }

  method StringStrip(s: string) returns (r: string)
    ensures r == Strip(s)
  {
    var start, end := 0, |s|;
    while start < end && IsSpace(s[start])
      invariant 0 <= start <= end == |s|
      invariant SkipSpaces(s, start) == SkipSpaces(s, 0)
    {
      start := start + 1;
    }
    while end > start && IsSpace(s[end - 1])
      invariant start <= end <= |s|
      invariant BackSpaces(s, start, end) == BackSpaces(s, start, |s|)
    {
      end := end - 1;
    }
    r := s[start..end];
  }

  lemma BackSpacesIs(s: string, start: nat, end: nat, r: nat)
    requires start <= r <= end <= |s| && SpacesIn(s, r, end) && (r > start ==> !IsSpace(s[r - 1]))
    ensures BackSpaces(s, start, end) == r
  {
  }

  /** What stripping means: the one stripped core between two blank margins. */
  lemma StripIs(s: string, a: string, core: string, b: string)
    requires s == a + core + b && AllSpace(a) && AllSpace(b) && Stripped(core)
    ensures Strip(s) == core
  {
    hide SkipSpaces, BackSpaces, IsSpace;
    var z := |a| + |core|;
    assert forall k :: 0 <= k < |a| ==> s[k] == a[k];
    assert forall k :: z <= k < |s| ==> s[k] == b[k - z];
    if core == [] {
      SkipSpacesIs(s, 0, |s|);
    } else {
      assert s[|a|] == core[0] && s[z - 1] == core[|core| - 1];
      SkipSpacesIs(s, 0, |a|);
      BackSpacesIs(s, |a|, |s|, z);
      assert s[|a|..z] == core;
    }
  }

  /** Stripping a longer text keeps what was stripped before as a prefix. */
  lemma StripGrows(s: string, t: string)
    requires s <= t
    ensures Strip(s) <= Strip(t)
  {
    SkipSpacesExtends(s, t, 0);
    var p := SkipSpaces(s, 0);
    var q := BackSpaces(s, p, |s|);
    assert forall k :: 0 <= k < |s| ==> s[k] == t[k];
    if p < |s| {
      var q' := BackSpaces(t, p, |t|);
      assert q > p && q' >= q;
      assert s[p..q] == t[p..q];
      assert t[p..q] <= t[p..q'];
    }
  }
}
