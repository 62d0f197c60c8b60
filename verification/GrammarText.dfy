/** The text of the grammar that make_gbnf_excluding generates, as the reader of llama-grammar.cpp takes it.
    The escapes the generator writes in a class are not all known to the reader. */
module GrammarText {
  import opened Text
  import opened GrammarExcluding

  type Byte = c: char | c as int < 256

  /** isprint in the "C" locale. */
  predicate Printable(c: char) {
    ' ' <= c <= '~'
  }

  function HexOf(n: nat): (c: char)
    requires n < 16
    ensures HexValue(c) == Some(n)
  {
    if n < 10 then ('0' as int + n) as char else ('A' as int + n - 10) as char
  }

  function HexValue(c: char): (v: Option<nat>)
    ensures v.Some? ==> v.value < 16
  {
    if 'a' <= c <= 'f' then Some(c as int - 'a' as int + 10)
    else if 'A' <= c <= 'F' then Some(c as int - 'A' as int + 10)
    else if '0' <= c <= '9' then Some(c as int - '0' as int)
    else None
  }

  /** \x and two digits. */
  function HexEscape(c: Byte): string {
    ['\\', 'x', HexOf(c as int / 16), HexOf(c as int % 16)]
  }

  /** charclass_escape. */
  function ClassEscape(c: Byte): string {
    if c == '\\' || c == ']' || c == '^' || c == '-' then ['\\', c]
    else if Printable(c) then [c]
    else HexEscape(c)
  }

  /** The quoted character of a branch. */
  function Quoted(c: Byte): string {
    ['"'] + (if c == '\\' || c == '"' then ['\\', c] else if Printable(c) then [c] else HexEscape(c)) + ['"']
  }

  // ---------- the reader ----------

  /** parse_hex for two digits. */
  function ReadHex(s: string): Option<nat> {
    if |s| >= 2 && HexValue(s[0]).Some? && HexValue(s[1]).Some?
    then Some(HexValue(s[0]).value * 16 + HexValue(s[1]).value)
    else None
  }

  /** parse_char on ASCII text: the character and what follows it, or the exception. */
  function ReadChar(s: string): (r: Option<(int, string)>)
    ensures r.Some? ==> |r.value.1| < |s|
  {
    if s == "" then None
    else if s[0] != '\\' then Some((s[0] as int, s[1..]))
    else if |s| < 2 then None
    else
      match s[1]
      case 'x' => if ReadHex(s[2..]).Some? then Some((ReadHex(s[2..]).value, s[4..])) else None
      case 't' => Some((9, s[2..]))
      case 'r' => Some((13, s[2..]))
      case 'n' => Some((10, s[2..]))
      case '\\' => Some(('\\' as int, s[2..]))
      case '"' => Some(('"' as int, s[2..]))
      case '[' => Some(('[' as int, s[2..]))
      case ']' => Some((']' as int, s[2..]))
      case _ => None
  }

  /** The members of a class up to its bracket, ranges with both ends. */
  function ReadMembers(s: string): (r: Option<(seq<(int, int)>, string)>)
    ensures r.Some? ==> |r.value.1| < |s|
    decreases |s|
  {
    if s == "" then None
    else if s[0] == ']' then Some(([], s[1..]))
    else
      match ReadChar(s)
      case None => None
      case Some((c, t)) =>
        if |t| >= 2 && t[0] == '-' && t[1] != ']' then
          match ReadChar(t[1..])
          case None => None
          case Some((d, u)) => Before((c, d), ReadMembers(u))
        else Before((c, c), ReadMembers(t))
  }

  function Before(m: (int, int), r: Option<(seq<(int, int)>, string)>): Option<(seq<(int, int)>, string)> {
    match r
    case None => None
    case Some((ms, t)) => Some(([m] + ms, t))
  }

  /** A quoted literal up to its quote. */
  function ReadLiteral(s: string): (r: Option<(seq<int>, string)>)
    ensures r.Some? ==> |r.value.1| < |s|
    decreases |s|
  {
    if s == "" then None
    else if s[0] == '"' then Some(([], s[1..]))
    else
      match ReadChar(s)
      case None => None
      case Some((c, t)) =>
        match ReadLiteral(t)
        case None => None
        case Some((cs, u)) => Some(([c] + cs, u))
  }

  // ---------- what is written is read ----------

  lemma HexReads(c: Byte, rest: string)
    ensures ReadChar(HexEscape(c) + rest) == Some((c as int, rest))
  {
    var s := HexEscape(c) + rest;
    assert s[2..][0] == HexOf(c as int / 16) && s[2..][1] == HexOf(c as int % 16) && s[4..] == rest;
  }

  /** One character of a class is read back, unless it is ^ or -: the reader knows no such escape. */
  lemma EscapeReads(c: Byte, rest: string)
    ensures ReadChar(ClassEscape(c) + rest) == if c == '^' || c == '-' then None else Some((c as int, rest))
    ensures ClassEscape(c) != "" && ClassEscape(c)[0] != ']' && ClassEscape(c)[0] != '-'
  {
    var s := ClassEscape(c) + rest;
    if c == '\\' || c == ']' || c == '^' || c == '-' {
      assert s[2..] == rest;
    } else if Printable(c) {
      assert s[1..] == rest;
    } else {
      HexReads(c, rest);
    }
  }

  function ClassText(cs: seq<Byte>): string {
    if cs == [] then "" else ClassEscape(cs[0]) + ClassText(cs[1..])
  }

  function Singles(cs: seq<Byte>): (ms: seq<(int, int)>)
    ensures |ms| == |cs|
  {
    seq(|cs|, k requires 0 <= k < |cs| => (cs[k] as int, cs[k] as int))
  }

  predicate Known(cs: seq<Byte>) {
    '^' !in cs && '-' !in cs
  }

  /** A class is read back, character by character, if and only if it has neither ^ nor -; otherwise the
      reader throws. */
  lemma {:induction false} ClassReads(cs: seq<Byte>, rest: string)
    ensures ReadMembers(ClassText(cs) + "]" + rest) == if Known(cs) then Some((Singles(cs), rest)) else None
    decreases |cs|
  {
    var s := ClassText(cs) + "]" + rest;
    if cs == [] {
      assert s[1..] == rest && Singles(cs) == [];
    } else {
      var tail := ClassText(cs[1..]) + "]" + rest;
      assert s == ClassEscape(cs[0]) + tail;
      EscapeReads(cs[0], tail);
      ClassReads(cs[1..], rest);
      TailNoRange(cs[1..], rest);
      assert Singles(cs) == [(cs[0] as int, cs[0] as int)] + Singles(cs[1..]);
      assert Known(cs) <==> Known([cs[0]]) && Known(cs[1..]) by { assert cs == [cs[0]] + cs[1..]; }
    }
  }

  /** What follows a character in a class begins no range. */
  lemma TailNoRange(cs: seq<Byte>, rest: string)
    ensures (ClassText(cs) + "]" + rest)[0] != '-'
  {
    if cs != [] {
      EscapeReads(cs[0], "");
    }
  }

  /** The quoted character of a branch is always read back. */
  lemma QuotedReads(c: Byte, rest: string)
    ensures ReadLiteral((Quoted(c) + rest)[1..]) == Some(([c as int], rest))
  {
    var tail := ['"'] + rest;
    var s := (Quoted(c) + rest)[1..];
    assert tail[1..] == rest;
    if c == '\\' || c == '"' {
      assert s == ['\\', c] + tail && s[2..] == tail;
    } else if Printable(c) {
      assert s == [c] + tail && s[1..] == tail;
    } else {
      assert s == HexEscape(c) + tail;
      HexReads(c, tail);
    }
    assert [c as int] + [] == [c as int];
  }

  // ---------- which grammars are read ----------

  /** No class of the expression has a character whose escape the reader does not know. */
  predicate Readable(e: Expr) {
    match e
    case NoneOf(cs) => '^' !in cs && '-' !in cs
    case Then(_, f) => Readable(f)
    case Alts(es) => forall i :: 0 <= i < |es| ==> Readable(es[i])
  }

  predicate ReadableGrammar(g: Grammar) {
    g.Star? ==> Readable(g.e)
  }

  predicate Strange(c: char) {
    c == '^' || c == '-'
  }

  /** From place `d` on the word has neither. */
  predicate Plain(w: string, d: nat) {
    forall k :: d <= k < |w| ==> !Strange(w[k])
  }

  predicate PlainFrom(ws: seq<string>, l: nat, r: nat, d: nat)
    requires l <= r <= |ws|
  {
    forall x :: l <= x < r ==> Plain(ws[x], d)
  }

  /** A node's expression is readable exactly when the words go on from it without ^ and -. */
  lemma {:induction false} NodeReadable(ws: seq<string>, l: nat, r: nat, p: string)
    requires Sorted(ws) && RangeIs(ws, l, r, p)
    ensures var e := BuildExpr(ws, l, r, |p|);
      if e.Some? then Readable(e.value) <==> PlainFrom(ws, l, r, |p|) else PlainFrom(ws, l, r, |p|)
    decreases Longest(ws) - |p|, r - l + 1
  {
    hide Sorted, Children, Groups, Covers, HasChar, Branches, PlainFrom, Readable, IsChild;
    var cs := Children(ws, l, r, |p|);
    ChildrenAreGroups(ws, l, l, r, p);
    PlainByGroups(ws, l, r, p, cs);
    if cs != [] {
      BranchesReadable(ws, l, r, p, cs);
      FirstReadable(NoneOf(FirstsOf(cs)), Branches(ws, cs, |p|, l, r));
      ClassOf(cs);
    }
  }

  lemma FirstReadable(e: Expr, es: seq<Expr>)
    ensures Readable(Alts([e] + es)) <==> Readable(e) && forall i :: 0 <= i < |es| ==> Readable(es[i])
  {
    var all := [e] + es;
    assert forall i :: 0 <= i < |es| ==> all[i + 1] == es[i];
    assert all[0] == e;
  }

  lemma ClassOf(cs: seq<Child>)
    ensures Readable(NoneOf(FirstsOf(cs))) <==> forall k :: 0 <= k < |cs| ==> !Strange(cs[k].c)
  {
    assert forall k :: 0 <= k < |cs| ==> FirstsOf(cs)[k] == cs[k].c;
  }

  /** The words of a node are without ^ and - when the characters of its children are, and the words of
      each child are from there on. */
  lemma PlainByGroups(ws: seq<string>, l: nat, r: nat, p: string, cs: seq<Child>)
    requires RangeIs(ws, l, r, p) && Groups(ws, p, cs) && Covers(ws, l, r, |p|, cs)
    requires forall k :: 0 <= k < |cs| ==> l <= cs[k].i < cs[k].j <= r
    ensures PlainFrom(ws, l, r, |p|) <==>
            && (forall k :: 0 <= k < |cs| ==> !Strange(cs[k].c))
            && (forall k :: 0 <= k < |cs| ==> PlainFrom(ws, cs[k].i, cs[k].j, |p| + 1))
  {
    forall k | 0 <= k < |cs|
      ensures forall x :: cs[k].i <= x < cs[k].j ==> |ws[x]| > |p| && ws[x][|p|] == cs[k].c
    {
      assert IsChild(ws, p, cs[k]);
      forall x | cs[k].i <= x < cs[k].j
        ensures |ws[x]| > |p| && ws[x][|p|] == cs[k].c
      {
        LongerPrefix(p, cs[k].c, ws[x]);
      }
    }
    if PlainFrom(ws, l, r, |p|) {
      forall k | 0 <= k < |cs|
        ensures !Strange(cs[k].c) && PlainFrom(ws, cs[k].i, cs[k].j, |p| + 1)
      {
        assert Plain(ws[cs[k].i], |p|);
      }
    } else if (forall k :: 0 <= k < |cs| ==> !Strange(cs[k].c))
              && (forall k :: 0 <= k < |cs| ==> PlainFrom(ws, cs[k].i, cs[k].j, |p| + 1)) {
      forall x | l <= x < r
        ensures Plain(ws[x], |p|)
      {
        if |ws[x]| > |p| {
          var k :| 0 <= k < |cs| && cs[k].c == ws[x][|p|];
          assert IsChild(ws, p, cs[k]);
          LongerPrefix(p, cs[k].c, ws[x]);
          assert Plain(ws[x], |p| + 1);
        }
      }
    }
  }

  lemma {:induction false} BranchesReadable(ws: seq<string>, l: nat, r: nat, p: string, cs: seq<Child>)
    requires Sorted(ws) && RangeIs(ws, l, r, p) && Groups(ws, p, cs)
    requires forall k :: 0 <= k < |cs| ==> l <= cs[k].i < cs[k].j <= r
    requires forall k, x :: 0 <= k < |cs| && cs[k].i <= x < cs[k].j ==> |ws[x]| > |p| && ws[x][|p|] == cs[k].c
    ensures var bs := Branches(ws, cs, |p|, l, r);
      (forall i :: 0 <= i < |bs| ==> Readable(bs[i])) <==>
      (forall k :: 0 <= k < |cs| ==> PlainFrom(ws, cs[k].i, cs[k].j, |p| + 1))
    decreases Longest(ws) - |p|, 0, |cs|
  {
    hide Sorted, Groups, PlainFrom, Readable, BuildExpr;
    if cs != [] {
      var c, rest := cs[0], cs[1..];
      GroupsRest(ws, p, cs);
      LongestBounds(ws, c.i);
      ChildRange(ws, p, c);
      BranchesReadable(ws, l, r, p, rest);
      NodeReadable(ws, c.i, c.j, p + [c.c]);
      var e := BuildExpr(ws, c.i, c.j, |p| + 1);
      var head, tail := if e.Some? then [Then(c.c, e.value)] else [], Branches(ws, rest, |p|, l, r);
      HeadReadable(head, tail);
      ThenReadable(c.c, if e.Some? then e.value else Alts([]));
      assert forall k :: 0 <= k < |rest| ==> rest[k] == cs[k + 1];
      assert forall k :: 0 < k < |cs| ==> cs[k] == rest[k - 1];
      assert Branches(ws, cs, |p|, l, r) == head + tail;
    } else {
      assert Branches(ws, cs, |p|, l, r) == [];
    }
  }

  lemma ChildRange(ws: seq<string>, p: string, c: Child)
    requires IsChild(ws, p, c)
    ensures RangeIs(ws, c.i, c.j, p + [c.c]) && |p + [c.c]| == |p| + 1
  {
  }

  lemma ThenReadable(c: char, e: Expr)
    ensures Readable(Then(c, e)) <==> Readable(e)
  {
  }

  lemma HeadReadable(head: seq<Expr>, tail: seq<Expr>)
    requires |head| <= 1
    ensures (forall i :: 0 <= i < |head + tail| ==> Readable((head + tail)[i])) <==>
            (|head| == 1 ==> Readable(head[0])) && forall i :: 0 <= i < |tail| ==> Readable(tail[i])
  {
    hide Readable;
    var all := head + tail;
    assert |head| == 1 ==> all[0] == head[0];
    assert forall i :: 0 <= i < |tail| ==> all[|head| + i] == tail[i];
    assert forall i :: |head| <= i < |all| ==> all[i] == tail[i - |head|];
  }

  /** The generated grammar has no class that the reader throws at if and only if no forbidden word has the
      character ^ or -. */
  lemma ExcludingReadable(words: seq<string>)
    ensures ReadableGrammar(MakeExcluding(words)) <==> forall w :: w in words ==> '^' !in w && '-' !in w
  {
    hide Sort, BuildExpr, Readable;
    if words != [] {
      var ws := Sort(words);
      SortSorted(words);
      NodeReadable(ws, 0, |ws|, "");
      PlainWords(words, ws);
      RootHasChildren(words);
      if BuildExpr(ws, 0, |ws|, 0).None? {
        forall w ensures w in ws <==> w in words {
          SortKeeps(words, w);
        }
        NoFirsts(ws);
        NothingStrange();
      }
    }
  }

  lemma NothingStrange()
    ensures Readable(Alts([NoneOf("")]))
  {
  }

  lemma PlainWords(words: seq<string>, ws: seq<string>)
    requires ws == Sort(words)
    ensures PlainFrom(ws, 0, |ws|, 0) <==> forall w :: w in words ==> '^' !in w && '-' !in w
  {
    hide Sort;
    forall w ensures w in ws <==> w in words {
      SortKeeps(words, w);
    }
    assert forall w :: Plain(w, 0) <==> '^' !in w && '-' !in w;
    assert forall x :: 0 <= x < |ws| ==> ws[x] in ws;
  }
}
