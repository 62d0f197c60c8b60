/** make_gbnf_excluding: a grammar meant to accept the strings without any forbidden word.

    The grammar is a tree of expressions with a denotation; quoting and escaping of its text are
    not modelled. The generated expression goes back to its root after every mismatch, so it
    accepts the strings that fall into blocks, which is not quite what its comment says. */
module GrammarExcluding {
  import opened Text

  // ---------- grammar expressions ----------

  /** `NoneOf` is a negated character class, `Then` a quoted character and a continuation. A class that
      excludes no character is read as nothing at all, not as any character. */
  datatype Expr = NoneOf(chars: string) | Then(c: char, e: Expr) | Alts(es: seq<Expr>)

  predicate Matches(e: Expr, s: string) {
    match e
    case NoneOf(cs) => if cs == "" then s == "" else |s| == 1 && s[0] !in cs
    case Then(c, f) => s != "" && s[0] == c && Matches(f, s[1..])
    case Alts(es) => exists i :: 0 <= i < |es| && Matches(es[i], s)
  }

  /** A starred expression, or the starred dot. */
  datatype Grammar = Star(e: Expr) | AnyText

  predicate MatchesStar(e: Expr, s: string)
    decreases |s|
  {
    s == "" || exists k :: 0 < k <= |s| && Matches(e, s[..k]) && MatchesStar(e, s[k..])
  }

  predicate Accepts(g: Grammar, s: string) {
    match g
    case AnyText => true
    case Star(e) => MatchesStar(e, s)
  }

  // ---------- sorting the words ----------

  /** The order of std::sort on strings. */
  predicate Lex(a: string, b: string) {
    if a == "" then true
    else if b == "" then false
    else a[0] < b[0] || (a[0] == b[0] && Lex(a[1..], b[1..]))
  }

  lemma {:induction false} LexTotal(a: string, b: string)
    ensures Lex(a, b) || Lex(b, a)
  {
    if a != "" && b != "" && a[0] == b[0] {
      LexTotal(a[1..], b[1..]);
    }
  }

  lemma {:induction false} LexTrans(a: string, b: string, c: string)
    requires Lex(a, b) && Lex(b, c)
    ensures Lex(a, c)
  {
    if a != "" && c != "" && a[0] == b[0] == c[0] {
      LexTrans(a[1..], b[1..], c[1..]);
    }
  }

  predicate Sorted(ws: seq<string>) {
    forall i, j :: 0 <= i < j < |ws| ==> Lex(ws[i], ws[j])
  }

  function Insert(w: string, ws: seq<string>): (r: seq<string>)
    ensures multiset(r) == multiset(ws) + multiset([w]) && |r| == |ws| + 1
  {
    if ws == [] || Lex(w, ws[0]) then
      assert multiset([w] + ws) == multiset(ws) + multiset([w]);
      [w] + ws
    else
      assert ws == [ws[0]] + ws[1..];
      [ws[0]] + Insert(w, ws[1..])
  }

  /** std::sort. */
  function Sort(ws: seq<string>): (r: seq<string>)
    ensures multiset(r) == multiset(ws) && |r| == |ws|
  {
    if ws == [] then []
    else
      assert ws == [ws[0]] + ws[1..];
      Insert(ws[0], Sort(ws[1..]))
  }

  lemma {:induction false} InsertSorted(w: string, ws: seq<string>)
    requires Sorted(ws)
    ensures Sorted(Insert(w, ws))
  {
    hide Lex;
    if ws == [] || Lex(w, ws[0]) {
      forall i | 0 <= i < |ws| ensures Lex(w, ws[i]) {
        if i > 0 { LexTrans(w, ws[0], ws[i]); }
      }
    } else {
      var rest := Insert(w, ws[1..]);
      InsertSorted(w, ws[1..]);
      LexTotal(w, ws[0]);
      forall i | 0 <= i < |rest| ensures Lex(ws[0], rest[i]) {
        assert rest[i] in multiset(rest);
        assert rest[i] == w || rest[i] in ws[1..];
      }
    }
  }

  lemma {:induction false} SortSorted(ws: seq<string>)
    ensures Sorted(Sort(ws))
  {
    if ws != [] {
      SortSorted(ws[1..]);
      InsertSorted(ws[0], Sort(ws[1..]));
    }
  }

  lemma SortKeeps(ws: seq<string>, w: string)
    ensures w in Sort(ws) <==> w in ws
  {
    assert w in Sort(ws) <==> w in multiset(Sort(ws));
    assert w in ws <==> w in multiset(ws);
  }

  // ---------- the generator ----------

  /** The words ws[i..j] that go on with character `c`. */
  datatype Child = Child(c: char, i: nat, j: nat)

  /** The end of the run of words that go on with `c`. */
  function RunEnd(ws: seq<string>, j: nat, r: nat, depth: nat, c: char): (e: nat)
    requires j <= r <= |ws|
    ensures j <= e <= r
    ensures forall x :: j <= x < e ==> |ws[x]| > depth && ws[x][depth] == c
    ensures e < r ==> |ws[e]| <= depth || ws[e][depth] != c
    decreases r - j
  {
    if j < r && |ws[j]| > depth && ws[j][depth] == c then RunEnd(ws, j + 1, r, depth, c) else j
  }

  /** The grouping loop of build_expr. */
  function Children(ws: seq<string>, i: nat, r: nat, depth: nat): (cs: seq<Child>)
    requires i <= r <= |ws|
    requires forall x :: i <= x < r ==> |ws[x]| >= depth
    ensures forall k :: 0 <= k < |cs| ==> i <= cs[k].i < cs[k].j <= r
    ensures forall k, x :: 0 <= k < |cs| && cs[k].i <= x < cs[k].j ==> |ws[x]| > depth && ws[x][depth] == cs[k].c
    decreases r - i
  {
    if i == r then []
    else if |ws[i]| == depth then Children(ws, i + 1, r, depth)
    else
      var j := RunEnd(ws, i, r, depth, ws[i][depth]);
      [Child(ws[i][depth], i, j)] + Children(ws, j, r, depth)
  }

  function FirstsOf(cs: seq<Child>): (s: string)
    ensures |s| == |cs|
  {
    seq(|cs|, k requires 0 <= k < |cs| => cs[k].c)
  }

  function Longest(ws: seq<string>): nat {
    if ws == [] then 0
    else if |ws[0]| > Longest(ws[1..]) then |ws[0]| else Longest(ws[1..])
  }

  lemma {:induction false} LongestBounds(ws: seq<string>, x: nat)
    requires x < |ws|
    ensures |ws[x]| <= Longest(ws)
  {
    if x > 0 {
      assert ws[x] == ws[1..][x - 1];
      LongestBounds(ws[1..], x - 1);
    }
  }

  /** build_expr; `None` stands for the empty text. */
  function BuildExpr(ws: seq<string>, l: nat, r: nat, depth: nat): (e: Option<Expr>)
    requires l <= r <= |ws|
    requires forall x :: l <= x < r ==> |ws[x]| >= depth
    decreases Longest(ws) - depth, r - l + 1
  {
    var cs := Children(ws, l, r, depth);
    if cs == [] then None
    else Some(Alts([NoneOf(FirstsOf(cs))] + Branches(ws, cs, depth, l, r)))
  }

  /** The quoted branches, for the children that have an expression. */
  function Branches(ws: seq<string>, cs: seq<Child>, depth: nat, l: nat, r: nat): (bs: seq<Expr>)
    requires l <= r <= |ws|
    requires forall k :: 0 <= k < |cs| ==> l <= cs[k].i < cs[k].j <= r
    requires forall k, x :: 0 <= k < |cs| && cs[k].i <= x < cs[k].j ==> |ws[x]| > depth && ws[x][depth] == cs[k].c
    decreases Longest(ws) - depth, 0, |cs|
  {
    if cs == [] then []
    else
      LongestBounds(ws, cs[0].i);
      var e := BuildExpr(ws, cs[0].i, cs[0].j, depth + 1);
      (if e.Some? then [Then(cs[0].c, e.value)] else []) + Branches(ws, cs[1..], depth, l, r)
  }

  /** make_gbnf_excluding. */
  function MakeExcluding(forbids: seq<string>): Grammar {
    if forbids == [] then AnyText
    else
      var ws := Sort(forbids);
      var e := BuildExpr(ws, 0, |ws|, 0);
      if e.Some? then Star(e.value)
      else Star(Alts([NoneOf(Firsts(ws))]))
  }

  /** The first characters of the words that have one. */
  function Firsts(ws: seq<string>): string {
    if ws == [] then "" else (if ws[0] == "" then "" else [ws[0][0]]) + Firsts(ws[1..])
  }

  // ---------- blocks ----------

  predicate ProperPrefix(a: string, b: string) {
    |a| < |b| && a <= b
  }

  /** A proper prefix of a forbidden word and one character with which it leaves all of them. */
  predicate IsBlock(words: seq<string>, b: string) {
    && b != ""
    && (exists w :: w in words && ProperPrefix(b[..|b| - 1], w))
    && (forall w :: w in words ==> !(b <= w))
  }

  function Concat(bs: seq<string>): string {
    if bs == [] then "" else bs[0] + Concat(bs[1..])
  }

  predicate Blocks(words: seq<string>, bs: seq<string>) {
    forall i :: 0 <= i < |bs| ==> IsBlock(words, bs[i])
  }

  /** The text falls into blocks. */
  ghost predicate Factors(words: seq<string>, s: string) {
    exists bs :: Blocks(words, bs) && Concat(bs) == s
  }

  // ---------- one node of the tree ----------

  /** The words with prefix `p` are exactly ws[l..r]. */
  predicate RangeIs(ws: seq<string>, l: nat, r: nat, p: string) {
    l <= r <= |ws| && forall x :: 0 <= x < |ws| ==> (p <= ws[x] <==> l <= x < r)
  }

  lemma {:induction false} LexPrefix(p: string, a: string, b: string)
    requires Lex(a, b) && p <= a && p <= b
    ensures |a| == |p| || (|b| > |p| && a[|p|] <= b[|p|])
  {
    if p != "" {
      LexPrefix(p[1..], a[1..], b[1..]);
    }
  }

  lemma LongerPrefix(p: string, c: char, w: string)
    ensures p + [c] <= w <==> p <= w && |w| > |p| && w[|p|] == c
  {
    if p <= w && |w| > |p| && w[|p|] == c {
      assert w[..|p| + 1] == p + [c];
    }
    if p + [c] <= w {
      assert w[..|p| + 1] == p + [c];
      assert w[..|p|] == w[..|p| + 1][..|p|] == p;
    }
  }

  /** Words before `i` have been left behind: no later word goes on with the same character. */
  predicate LeftBehind(ws: seq<string>, l: nat, i: nat, r: nat, d: nat)
    requires l <= i <= r <= |ws|
  {
    forall x, y :: l <= x < i <= y < r && |ws[x]| > d && |ws[y]| > d ==> ws[x][d] != ws[y][d]
  }

  predicate IsChild(ws: seq<string>, p: string, c: Child) {
    RangeIs(ws, c.i, c.j, p + [c.c])
  }

  predicate HasChar(cs: seq<Child>, c: char) {
    exists k :: 0 <= k < |cs| && cs[k].c == c
  }

  /** The end of a run: every later word goes on with a greater character. */
  lemma RunIsWhole(ws: seq<string>, l: nat, i: nat, r: nat, p: string)
    requires Sorted(ws) && RangeIs(ws, l, r, p) && l <= i < r && |ws[i]| > |p|
    ensures var j := RunEnd(ws, i, r, |p|, ws[i][|p|]);
            i < j && forall y :: j <= y < r ==> |ws[y]| > |p| && ws[y][|p|] > ws[i][|p|]
  {
    hide Lex;
    var j := RunEnd(ws, i, r, |p|, ws[i][|p|]);
    if j < r {
      LexPrefix(p, ws[i], ws[j]);
    }
    forall y | j <= y < r ensures |ws[y]| > |p| && ws[y][|p|] > ws[i][|p|] {
      if y > j { LexPrefix(p, ws[j], ws[y]); }
    }
  }

  lemma RunLeftBehind(ws: seq<string>, l: nat, i: nat, j: nat, r: nat, d: nat)
    requires l <= i < j <= r <= |ws| && |ws[i]| > d && LeftBehind(ws, l, i, r, d)
    requires forall x :: i <= x < j ==> |ws[x]| > d && ws[x][d] == ws[i][d]
    requires forall y :: j <= y < r ==> |ws[y]| > d && ws[y][d] > ws[i][d]
    ensures LeftBehind(ws, l, j, r, d)
  {
  }

  predicate Groups(ws: seq<string>, p: string, cs: seq<Child>) {
    forall k :: 0 <= k < |cs| ==> IsChild(ws, p, cs[k])
  }

  predicate Covers(ws: seq<string>, i: nat, r: nat, d: nat, cs: seq<Child>)
    requires i <= r <= |ws|
  {
    forall x :: i <= x < r && |ws[x]| > d ==> HasChar(cs, ws[x][d])
  }

  /** The groups are the words with one more character, and every longer word is in one. */
  lemma {:induction false} ChildrenAreGroups(ws: seq<string>, l: nat, i: nat, r: nat, p: string)
    requires Sorted(ws) && RangeIs(ws, l, r, p) && l <= i <= r && LeftBehind(ws, l, i, r, |p|)
    ensures Groups(ws, p, Children(ws, i, r, |p|)) && Covers(ws, i, r, |p|, Children(ws, i, r, |p|))
    decreases r - i
  {
    hide Sorted, LeftBehind, IsChild, HasChar, RunEnd;
    if i == r {
    } else if |ws[i]| == |p| {
      SkipLeavesBehind(ws, l, i, r, |p|);
      ChildrenAreGroups(ws, l, i + 1, r, p);
    } else {
      var c := ws[i][|p|];
      var j := RunEnd(ws, i, r, |p|, c);
      RunIsWhole(ws, l, i, r, p);
      RunLeftBehind(ws, l, i, j, r, |p|);
      ChildrenAreGroups(ws, l, j, r, p);
      FirstGroup(ws, l, i, j, r, p);
      var rest := Children(ws, j, r, |p|);
      forall d: char ensures HasChar([Child(c, i, j)] + rest, d) <==> d == c || HasChar(rest, d) {
        HasCharSplits([Child(c, i, j)] + rest, d);
        assert ([Child(c, i, j)] + rest)[1..] == rest;
      }
    }
  }

  lemma SkipLeavesBehind(ws: seq<string>, l: nat, i: nat, r: nat, d: nat)
    requires l <= i < r <= |ws| && |ws[i]| == d && LeftBehind(ws, l, i, r, d)
    ensures LeftBehind(ws, l, i + 1, r, d)
  {
  }

  lemma FirstGroup(ws: seq<string>, l: nat, i: nat, j: nat, r: nat, p: string)
    requires RangeIs(ws, l, r, p) && l <= i < j <= r && |ws[i]| > |p| && LeftBehind(ws, l, i, r, |p|)
    requires forall x :: i <= x < j ==> |ws[x]| > |p| && ws[x][|p|] == ws[i][|p|]
    requires forall y :: j <= y < r ==> |ws[y]| > |p| && ws[y][|p|] > ws[i][|p|]
    ensures IsChild(ws, p, Child(ws[i][|p|], i, j))
  {
    forall x | 0 <= x < |ws| ensures p + [ws[i][|p|]] <= ws[x] <==> i <= x < j {
      LongerPrefix(p, ws[i][|p|], ws[x]);
    }
  }

  /** The children of a node tell which characters go on from it. */
  lemma CharGoesOn(ws: seq<string>, l: nat, r: nat, p: string, cs: seq<Child>, c: char)
    requires RangeIs(ws, l, r, p)
    requires Groups(ws, p, cs) && Covers(ws, l, r, |p|, cs)
    requires forall k :: 0 <= k < |cs| ==> cs[k].i < cs[k].j
    ensures HasChar(cs, c) <==> exists w :: w in ws && p + [c] <= w
  {
    if HasChar(cs, c) {
      var k :| 0 <= k < |cs| && cs[k].c == c;
      assert IsChild(ws, p, cs[k]);
      assert ws[cs[k].i] in ws && p + [c] <= ws[cs[k].i];
    }
    if exists w :: w in ws && p + [c] <= w {
      var w :| w in ws && p + [c] <= w;
      var x :| 0 <= x < |ws| && ws[x] == w;
      LongerPrefix(p, c, w);
    }
  }

  ghost predicate AnyMatches(es: seq<Expr>, s: string) {
    exists i :: 0 <= i < |es| && Matches(es[i], s)
  }

  lemma AnyMatchesConcat(a: seq<Expr>, b: seq<Expr>, s: string)
    ensures AnyMatches(a + b, s) <==> AnyMatches(a, s) || AnyMatches(b, s)
  {
    if AnyMatches(a, s) {
      var i :| 0 <= i < |a| && Matches(a[i], s);
      assert (a + b)[i] == a[i];
    }
    if AnyMatches(b, s) {
      var i :| 0 <= i < |b| && Matches(b[i], s);
      assert (a + b)[|a| + i] == b[i];
    }
    if AnyMatches(a + b, s) {
      var i :| 0 <= i < |a + b| && Matches((a + b)[i], s);
      assert Matches(if i < |a| then a[i] else b[i - |a|], s);
    }
  }

  /** A node with prefix `p` matches what completes `p` to a block. */
  lemma {:induction false} NodeMatches(ws: seq<string>, l: nat, r: nat, p: string, s: string)
    requires Sorted(ws) && RangeIs(ws, l, r, p)
    ensures var e := BuildExpr(ws, l, r, |p|);
            e.Some? && Matches(e.value, s) <==> s != "" && IsBlock(ws, p + s)
    decreases Longest(ws) - |p|, r - l + 1
  {
    hide Sorted, IsBlock, IsChild, Children, Matches, Groups, Covers, HasChar, Branches;
    var cs := Children(ws, l, r, |p|);
    ChildrenAreGroups(ws, l, l, r, p);
    BranchesMatch(ws, l, r, p, cs, s);
    var none := NoneOf(FirstsOf(cs));
    AltsMatch([none] + Branches(ws, cs, |p|, l, r), s);
    AnyMatchesConcat([none], Branches(ws, cs, |p|, l, r), s);
    HeadMatches([none], s);
    NoneIs(cs, s);
    if s != "" {
      CharGoesOn(ws, l, r, p, cs, s[0]);
      BlockAtNode(ws, l, r, p, s);
      if cs == [] {
        NoLonger(ws, l, r, p);
      } else {
        GroupsRest(ws, p, cs);
        SomeLonger(ws, p, cs[0]);
      }
    }
  }

  lemma AltsMatch(es: seq<Expr>, s: string)
    ensures Matches(Alts(es), s) <==> AnyMatches(es, s)
  {
  }

  lemma NoneIs(cs: seq<Child>, s: string)
    ensures var none := NoneOf(FirstsOf(cs));
      Matches(none, s) <==> if cs == [] then s == "" else |s| == 1 && !HasChar(cs, s[0])
  {
    assert forall k :: 0 <= k < |cs| ==> FirstsOf(cs)[k] == cs[k].c;
    assert s != "" ==> (HasChar(cs, s[0]) <==> s[0] in FirstsOf(cs));
  }

  /** Where nothing goes on, the words of the node are its prefix. */
  lemma NoLonger(ws: seq<string>, l: nat, r: nat, p: string)
    requires RangeIs(ws, l, r, p) && Covers(ws, l, r, |p|, [])
    ensures !exists w :: w in ws && ProperPrefix(p, w)
  {
    NoneMatch("");
    assert forall x :: l <= x < r ==> !(|ws[x]| > |p|);
  }

  lemma SomeLonger(ws: seq<string>, p: string, c: Child)
    requires IsChild(ws, p, c) && c.i < c.j
    ensures exists w :: w in ws && ProperPrefix(p, w)
  {
    LongerPrefix(p, c.c, ws[c.i]);
    assert ws[c.i] in ws && ProperPrefix(p, ws[c.i]);
  }

  /** What `IsBlock` says of a text that begins with the prefix of a node. */
  lemma BlockAtNode(ws: seq<string>, l: nat, r: nat, p: string, s: string)
    requires RangeIs(ws, l, r, p) && s != ""
    ensures |s| == 1 ==> (IsBlock(ws, p + s) <==> (exists w :: w in ws && ProperPrefix(p, w))
                                                  && !exists w :: w in ws && p + [s[0]] <= w)
    ensures |s| > 1 && IsBlock(ws, p + s) ==> exists w :: w in ws && p + [s[0]] <= w
  {
    var b := p + s;
    if |s| == 1 {
      assert b[..|b| - 1] == p && s == [s[0]];
    } else if IsBlock(ws, b) {
      var w :| w in ws && ProperPrefix(b[..|b| - 1], w);
      assert b[..|b| - 1][..|p| + 1] == p + [s[0]];
      assert w[..|p| + 1] == p + [s[0]];
    }
  }

  lemma {:induction false} BranchesMatch(ws: seq<string>, l: nat, r: nat, p: string, cs: seq<Child>, s: string)
    requires Sorted(ws) && RangeIs(ws, l, r, p) && r <= |ws| && Groups(ws, p, cs)
    requires forall k :: 0 <= k < |cs| ==> l <= cs[k].i < cs[k].j <= r
    requires forall k, x :: 0 <= k < |cs| && cs[k].i <= x < cs[k].j ==> |ws[x]| > |p| && ws[x][|p|] == cs[k].c
    ensures AnyMatches(Branches(ws, cs, |p|, l, r), s) <==> |s| > 1 && HasChar(cs, s[0]) && IsBlock(ws, p + s)
    decreases Longest(ws) - |p|, 0, |cs|
  {
    hide Sorted, IsBlock, RangeIs, Groups, HasChar, BuildExpr, AnyMatches;
    if cs == [] {
      NoneMatch(s);
    } else {
      var c := cs[0];
      GroupsRest(ws, p, cs);
      LongestBounds(ws, c.i);
      var e := BuildExpr(ws, c.i, c.j, |p| + 1);
      var head := if e.Some? then [Then(c.c, e.value)] else [];
      assert Groups(ws, p, cs[1..]) by { GroupsRest(ws, p, cs); }
      BranchesMatch(ws, l, r, p, cs[1..], s);
      AnyMatchesConcat(head, Branches(ws, cs[1..], |p|, l, r), s);
      HeadMatches(head, s);
      if s != "" {
        NodeMatches(ws, c.i, c.j, p + [c.c], s[1..]);
        if s[0] == c.c {
          assert p + [c.c] + s[1..] == p + s;
        }
        HasCharSplits(cs, s[0]);
      }
    }
  }

  lemma GroupsRest(ws: seq<string>, p: string, cs: seq<Child>)
    requires cs != [] && Groups(ws, p, cs)
    ensures Groups(ws, p, cs[1..]) && IsChild(ws, p, cs[0])
  {
  }

  lemma NoneMatch(s: string)
    ensures !AnyMatches([], s) && forall c :: !HasChar([], c)
  {
  }

  lemma HeadMatches(head: seq<Expr>, s: string)
    requires |head| <= 1
    ensures AnyMatches(head, s) <==> |head| == 1 && Matches(head[0], s)
  {
  }

  lemma HasCharSplits(cs: seq<Child>, c: char)
    requires cs != []
    ensures HasChar(cs, c) <==> cs[0].c == c || HasChar(cs[1..], c)
  {
    if HasChar(cs, c) && cs[0].c != c {
      var k :| 0 <= k < |cs| && cs[k].c == c;
      assert cs[1..][k - 1].c == c;
    }
    if HasChar(cs[1..], c) {
      var k :| 0 <= k < |cs[1..]| && cs[1..][k].c == c;
      assert cs[k + 1].c == c;
    }
  }

  // ---------- the language ----------

  lemma MatchesBlocks(words: seq<string>, s: string)
    ensures var e := BuildExpr(Sort(words), 0, |words|, 0);
            e.Some? && Matches(e.value, s) <==> IsBlock(words, s)
  {
    hide Sort, BuildExpr, Matches;
    var ws := Sort(words);
    SortSorted(words);
    NodeMatches(ws, 0, |ws|, "", s);
    assert "" + s == s;
    SameWordsSameBlocks(words, ws, s);
  }

  lemma SameWordsSameBlocks(words: seq<string>, ws: seq<string>, s: string)
    requires ws == Sort(words)
    ensures IsBlock(words, s) <==> IsBlock(ws, s)
  {
    hide Sort, ProperPrefix;
    forall w ensures w in ws <==> w in words {
      SortKeeps(words, w);
    }
  }

  lemma BlocksSplit(words: seq<string>, bs: seq<string>)
    requires bs != []
    ensures Blocks(words, bs) <==> IsBlock(words, bs[0]) && Blocks(words, bs[1..])
  {
    hide IsBlock;
    assert forall i :: 1 <= i < |bs| ==> bs[i] == bs[1..][i - 1];
  }

  /** A starred expression whose matches are the blocks accepts the strings that fall into them. */
  lemma {:induction false} StarFactors(e: Expr, words: seq<string>, s: string)
    requires forall t :: Matches(e, t) <==> IsBlock(words, t)
    ensures MatchesStar(e, s) <==> Factors(words, s)
    decreases |s|
  {
    hide IsBlock, Matches;
    if MatchesStar(e, s) {
      if s == "" {
        assert Blocks(words, []) && Concat([]) == s;
      } else {
        var k :| 0 < k <= |s| && Matches(e, s[..k]) && MatchesStar(e, s[k..]);
        StarFactors(e, words, s[k..]);
        var bs :| Blocks(words, bs) && Concat(bs) == s[k..];
        var more := [s[..k]] + bs;
        assert more[1..] == bs;
        BlocksSplit(words, more);
        assert Concat(more) == s;
      }
    }
    if Factors(words, s) {
      var bs :| Blocks(words, bs) && Concat(bs) == s;
      if bs != [] {
        BlocksSplit(words, bs);
        var k := |bs[0]|;
        BlockNotEmpty(words, bs[0]);
        assert s[..k] == bs[0] && s[k..] == Concat(bs[1..]);
        StarFactors(e, words, s[k..]);
      }
    }
  }

  lemma BlockNotEmpty(words: seq<string>, b: string)
    requires IsBlock(words, b)
    ensures b != ""
  {
  }

  /** A starred class that excludes nothing accepts nothing but the empty string. */
  lemma {:induction false} NothingStar(e: Expr, s: string)
    requires e == Alts([NoneOf("")])
    ensures MatchesStar(e, s) <==> s == ""
  {
    forall t ensures Matches(e, t) <==> t == "" {
      assert e.es[0] == NoneOf("");
      assert Matches(e.es[0], t) <==> t == "";
    }
    hide Matches;
    assert forall k :: 0 < k <= |s| ==> s[..k] != "";
  }

  lemma {:induction false} NoFirsts(ws: seq<string>)
    requires AllEmpty(ws)
    ensures Firsts(ws) == ""
  {
    if ws != [] {
      assert ws[0] in ws && forall w :: w in ws[1..] ==> w in ws;
      NoFirsts(ws[1..]);
    }
  }

  /** Words without a character make no blocks. */
  lemma EmptyWordsFactor(words: seq<string>, s: string)
    requires AllEmpty(words)
    ensures Factors(words, s) <==> s == ""
  {
    if s == "" {
      assert Blocks(words, []) && Concat([]) == s;
    } else {
      forall bs | bs != [] ensures !Blocks(words, bs) {
        assert !IsBlock(words, bs[0]);
      }
    }
  }

  predicate AllEmpty(words: seq<string>) {
    forall w :: w in words ==> w == ""
  }

  lemma NodeIsNone(ws: seq<string>, l: nat, r: nat, depth: nat)
    requires l <= r <= |ws| && forall x :: l <= x < r ==> |ws[x]| >= depth
    ensures BuildExpr(ws, l, r, depth).None? <==> Children(ws, l, r, depth) == []
  {
    hide Children, Branches;
  }

  lemma NoChildren(ws: seq<string>)
    requires Sorted(ws)
    ensures Children(ws, 0, |ws|, 0) == [] <==> AllEmpty(ws)
  {
    hide Sorted, Children, IsChild, Groups;
    var cs := Children(ws, 0, |ws|, 0);
    ChildrenAreGroups(ws, 0, 0, |ws|, "");
    NoneMatch("");
    if cs == [] {
      forall x | 0 <= x < |ws| ensures ws[x] == "" {
        assert |ws[x]| == 0;
      }
    } else {
      assert ws[cs[0].i] in ws;
    }
  }

  /** Some node hangs from the root exactly when some word is not empty. */
  lemma RootHasChildren(words: seq<string>)
    ensures BuildExpr(Sort(words), 0, |words|, 0).None? <==> AllEmpty(words)
  {
    hide Sort, Sorted, BuildExpr, Children;
    var ws := Sort(words);
    SortSorted(words);
    NodeIsNone(ws, 0, |ws|, 0);
    NoChildren(ws);
    forall w ensures w in ws <==> w in words {
      SortKeeps(words, w);
    }
  }

  /** The exact language: the strings that fall into blocks, and every string for an empty list. */
  lemma ExcludingLanguage(words: seq<string>, s: string)
    ensures Accepts(MakeExcluding(words), s) <==> words == [] || Factors(words, s)
  {
    hide Sort, BuildExpr, Matches, IsBlock, Factors, MatchesStar;
    if words != [] {
      var ws := Sort(words);
      RootHasChildren(words);
      var e := BuildExpr(ws, 0, |ws|, 0);
      if e.Some? {
        forall t ensures Matches(e.value, t) <==> IsBlock(words, t) {
          MatchesBlocks(words, t);
        }
        StarFactors(e.value, words, s);
      } else {
        forall w ensures w in ws <==> w in words {
          SortKeeps(words, w);
        }
        NoFirsts(ws);
        NothingStar(Alts([NoneOf("")]), s);
        EmptyWordsFactor(words, s);
      }
    }
  }

  // ---------- how the blocks lie ----------

  /** Whatever is shorter than a block begins some word when it begins the block. */
  lemma InsideBlock(words: seq<string>, a: string, b: string)
    requires IsBlock(words, b) && a <= b && |a| < |b|
    ensures exists w :: w in words && ProperPrefix(a, w)
  {
    var w :| w in words && ProperPrefix(b[..|b| - 1], w);
    assert a == b[..|b| - 1][..|a|] == w[..|a|];
  }

  /** No block begins another. */
  lemma BlocksPrefixFree(words: seq<string>, a: string, b: string)
    requires IsBlock(words, a) && IsBlock(words, b) && a <= b
    ensures a == b
  {
    if |a| < |b| {
      InsideBlock(words, a, b);
    }
  }

  /** A string falls into blocks in one way only. */
  lemma {:induction false} FactoringUnique(words: seq<string>, a: seq<string>, b: seq<string>)
    requires Blocks(words, a) && Blocks(words, b) && Concat(a) == Concat(b)
    ensures a == b
  {
    hide IsBlock, Blocks;
    if a != [] { BlocksSplit(words, a); BlockNotEmpty(words, a[0]); }
    if b != [] { BlocksSplit(words, b); BlockNotEmpty(words, b[0]); }
    if a != [] && b != [] {
      var s := Concat(a);
      assert a[0] == s[..|a[0]|] && b[0] == s[..|b[0]|];
      if |a[0]| <= |b[0]| {
        assert a[0] <= b[0];
        BlocksPrefixFree(words, a[0], b[0]);
      } else {
        assert b[0] <= a[0];
        BlocksPrefixFree(words, b[0], a[0]);
      }
      assert Concat(a[1..]) == s[|a[0]|..] == Concat(b[1..]);
      FactoringUnique(words, a[1..], b[1..]);
      assert a == [a[0]] + a[1..] && b == [b[0]] + b[1..];
    }
  }

  predicate PrefixFree(words: seq<string>) {
    forall v, w :: v in words && w in words && v <= w ==> v == w
  }

  lemma FrontOfBlock(words: seq<string>, w: string, b: string, rest: string)
    requires IsBlock(words, b) && w <= b + rest
    ensures b <= w || exists v :: v in words && ProperPrefix(w, v)
  {
    var u := b + rest;
    if |w| >= |b| {
      assert w[..|b|] == u[..|b|] == b;
    } else {
      assert w == u[..|w|] == b[..|w|];
      InsideBlock(words, w, b);
    }
  }

  lemma WordNotInFrontOfBlock(words: seq<string>, w: string, b: string, rest: string)
    requires PrefixFree(words) && w in words && IsBlock(words, b)
    ensures !(w <= b + rest)
  {
    if w <= b + rest {
      FrontOfBlock(words, w, b, rest);
    }
  }

  /** For a prefix-free set no forbidden word starts at a block boundary of an accepted string. */
  lemma NoWordAtBoundary(words: seq<string>, bs: seq<string>, k: nat, w: string)
    requires PrefixFree(words) && w in words && w != "" && Blocks(words, bs) && k <= |bs|
    ensures !(w <= Concat(bs[k..]))
  {
    hide IsBlock;
    if k < |bs| {
      WordNotInFrontOfBlock(words, w, bs[k], Concat(bs[k..][1..]));
    }
  }

  // ---------- what the comment promises, and when it holds ----------

  ghost predicate Contains(s: string, w: string) {
    exists i: nat :: MatchAt(s, i, w)
  }

  ghost predicate ContainsAny(s: string, words: seq<string>) {
    exists w :: w in words && Contains(s, w)
  }

  predicate AllSame(w: string) {
    forall i :: 0 <= i < |w| ==> w[i] == w[0]
  }

  /** Forbidding "ab" still admits "aab": "aa" is one block. */
  lemma ForbiddenWordSlipsThrough()
    ensures Accepts(MakeExcluding(["ab"]), "aab") && Contains("aab", "ab")
  {
    hide Accepts, MakeExcluding;
    var words, bs := ["ab"], ["aa", "b"];
    SingleBlock("ab", 1, "aa", 'a');
    SingleBlock("ab", 0, "b", 'b');
    assert bs[1..] == ["b"] && ["b"][1..] == [];
    assert Concat(["b"]) == "b" + Concat([]);
    assert Concat(bs) == "aa" + "b";
    assert Blocks(words, bs);
    assert Factors(words, "aab");
    ExcludingLanguage(words, "aab");
    assert "aab"[1..3] == "ab";
    assert MatchAt("aab", 1, "ab");
  }

  /** Any text shorter than the word can be completed to one that falls into blocks. */
  lemma {:induction false} Completable(w: string, r: string) returns (bs: seq<string>)
    requires |r| < |w|
    ensures Blocks([w], bs) && r <= Concat(bs)
    decreases |r|
  {
    if r == "" {
      bs := [];
    } else {
      var k := 0;
      while k < |r| && r[k] == w[k]
        invariant 0 <= k <= |r| && r[..k] == w[..k]
      {
        k := k + 1;
      }
      if k == |r| {
        var c := if w[k] == 'a' then 'b' else 'a';
        var b := r + [c];
        SingleBlock(w, k, b, c);
        bs := [b];
        assert Concat(bs) == b + Concat([]) == b;
      } else {
        SingleBlock(w, k, r[..k + 1], r[k]);
        var rest := Completable(w, r[k + 1..]);
        bs := [r[..k + 1]] + rest;
        assert bs[1..] == rest;
        assert r == r[..k + 1] + r[k + 1..];
      }
    }
  }

  lemma SingleBlock(w: string, k: nat, b: string, c: char)
    requires k < |w| && b == w[..k] + [c] && c != w[k]
    ensures IsBlock([w], b)
  {
    assert b[..|b| - 1] == w[..k];
    assert w in [w] && ProperPrefix(b[..|b| - 1], w);
    LastCharDecides(b, w);
  }

  lemma LastCharDecides(b: string, w: string)
    requires 0 < |b| <= |w| && b[..|b| - 1] == w[..|b| - 1]
    ensures b <= w <==> b[|b| - 1] == w[|b| - 1]
  {
    if b[|b| - 1] == w[|b| - 1] {
      assert b == b[..|b| - 1] + [b[|b| - 1]] == w[..|b|];
    }
  }

  lemma SingleBlockIs(w: string, b: string)
    requires IsBlock([w], b)
    ensures 0 < |b| <= |w| && b[..|b| - 1] == w[..|b| - 1] && b[|b| - 1] != w[|b| - 1]
  {
    assert ProperPrefix(b[..|b| - 1], w);
    LastCharDecides(b, w);
  }

  /** A word of one repeated character never occurs in an accepted string. */
  lemma {:induction false} RepeatedCharExcluded(w: string, bs: seq<string>, i: nat)
    requires w != "" && AllSame(w) && Blocks([w], bs)
    ensures !MatchAt(Concat(bs), i, w)
    decreases |bs|
  {
    hide IsBlock, Blocks;
    if bs != [] {
      BlocksSplit([w], bs);
      SingleBlockIs(w, bs[0]);
      var s, n := Concat(bs), |bs[0]|;
      var rest := Concat(bs[1..]);
      if i >= n {
        RepeatedCharExcluded(w, bs[1..], i - n);
        assert i + |w| <= |s| ==> s[i..i + |w|] == rest[i - n..i - n + |w|];
      } else {
        assert s[n - 1] == bs[0][n - 1] != w[0];
        MatchChars(s, i, w);
      }
    }
  }

  /** The first place where a mixed word leaves its first character. */
  lemma FirstChange(w: string) returns (m: nat)
    requires !AllSame(w)
    ensures 1 <= m < |w| && w[m] != w[0] && forall j :: 0 <= j < m ==> w[j] == w[0]
  {
    m := 1;
    while w[m] == w[0]
      invariant 1 <= m < |w| && forall j :: 0 <= j < m ==> w[j] == w[0]
      decreases |w| - m
    {
      assert m + 1 >= |w| ==> AllSame(w);
      m := m + 1;
    }
  }

  /** A word with two different characters occurs in some accepted string. */
  lemma MixedWordAdmitted(w: string) returns (s: string)
    requires !AllSame(w)
    ensures Accepts(MakeExcluding([w]), s) && Contains(s, w)
  {
    hide Accepts, MakeExcluding, IsBlock, AllSame;
    var m := FirstChange(w);
    var b := w[..m] + [w[0]];
    SingleBlock(w, m, b, w[0]);
    var rest := Completable(w, w[m..]);
    var bs := [b] + rest;
    assert bs[1..] == rest;
    BlocksSplit([w], bs);
    s := Concat(bs);
    assert Factors([w], s);
    ExcludingLanguage([w], s);
    RepeatedFront(w, m, Concat(rest));
  }

  lemma RepeatedFront(w: string, m: nat, rest: string)
    requires 1 <= m < |w| && (forall j :: 0 <= j < m ==> w[j] == w[0]) && w[m..] <= rest
    ensures Contains(w[..m] + [w[0]] + rest, w)
  {
    var s := w[..m] + [w[0]] + rest;
    forall k | 1 <= k < 1 + |w| ensures s[k] == w[k - 1] {
      if k > m {
        assert s[k] == rest[k - m - 1] == w[m..][k - m - 1];
      }
    }
    MatchChars(s, 1, w);
    assert MatchAt(s, 1, w);
  }

  /** The promise, one half: for a single word, accepted strings never contain it if and only if
      all its characters are equal. */
  lemma SingleWordExcludedIff(w: string)
    requires w != ""
    ensures (forall s :: Accepts(MakeExcluding([w]), s) ==> !Contains(s, w)) <==> AllSame(w)
  {
    hide Accepts, MakeExcluding;
    if AllSame(w) {
      forall s | Accepts(MakeExcluding([w]), s) ensures !Contains(s, w) {
        ExcludingLanguage([w], s);
        assert [w][0] == w && w in [w];
        var bs :| Blocks([w], bs) && Concat(bs) == s;
        forall i: nat ensures !MatchAt(s, i, w) {
          RepeatedCharExcluded(w, bs, i);
        }
      }
    } else {
      var s := MixedWordAdmitted(w);
    }
  }

  lemma MatchInOneChar(s: string, i: nat, w: string)
    requires |s| == 1 && w != "" && MatchAt(s, i, w)
    ensures w == s
  {
    assert w == s[0..1];
  }

  lemma OneCharFactor(words: seq<string>, s: string)
    requires |s| == 1 && Factors(words, s)
    ensures IsBlock(words, s)
  {
    hide IsBlock, Blocks;
    var bs :| Blocks(words, bs) && Concat(bs) == s;
    BlocksSplit(words, bs);
    BlockNotEmpty(words, bs[0]);
    assert bs[0] == s[..|bs[0]|] == s;
  }

  lemma OneCharHoldsNoLongerWord(words: seq<string>, v: string)
    requires PrefixFree(words) && v in words && |v| > 1 && (forall w :: w in words ==> w != "")
    ensures !ContainsAny(v[..1], words) && !Factors(words, v[..1])
  {
    hide Factors;
    var s := v[..1];
    forall w, i: nat | w in words ensures !MatchAt(s, i, w) {
      if MatchAt(s, i, w) {
        MatchInOneChar(s, i, w);
      }
    }
    if Factors(words, s) {
      OneCharFactor(words, s);
    }
  }

  /** One-character words: a block is any other character. */
  lemma {:induction false} CharsFactor(words: seq<string>, s: string)
    requires words != [] && (forall w :: w in words ==> |w| == 1)
    ensures Factors(words, s) <==> forall k :: 0 <= k < |s| ==> [s[k]] !in words
    decreases |s|
  {
    if s == "" {
      assert Blocks(words, []) && Concat([]) == s;
    } else {
      CharsFactor(words, s[1..]);
      CharBlock(words, s[0]);
      if Factors(words, s) {
        var bs :| Blocks(words, bs) && Concat(bs) == s;
        BlocksSplit(words, bs);
        OneCharBlock(words, bs[0]);
        assert bs[0] == [s[0]] && Concat(bs[1..]) == s[1..];
        assert Factors(words, s[1..]);
        assert forall k :: 1 <= k < |s| ==> s[k] == s[1..][k - 1];
      }
      if forall k :: 0 <= k < |s| ==> [s[k]] !in words {
        assert forall k :: 0 <= k < |s[1..]| ==> s[1..][k] == s[k + 1];
        var bs :| Blocks(words, bs) && Concat(bs) == s[1..];
        var more := [[s[0]]] + bs;
        assert more[1..] == bs;
        BlocksSplit(words, more);
        assert Concat(more) == s;
      }
    }
  }

  lemma CharBlock(words: seq<string>, c: char)
    requires words != [] && (forall w :: w in words ==> |w| == 1)
    ensures IsBlock(words, [c]) <==> [c] !in words
  {
    var b := [c];
    assert b[..|b| - 1] == "";
    assert words[0] in words && ProperPrefix("", words[0]);
    assert forall w :: w in words && b <= w ==> w == b;
    assert b <= b;
  }

  lemma OneCharBlock(words: seq<string>, b: string)
    requires (forall w :: w in words ==> |w| == 1) && IsBlock(words, b)
    ensures |b| == 1
  {
  }

  lemma CharsContained(words: seq<string>, s: string)
    requires forall w :: w in words ==> |w| == 1
    ensures ContainsAny(s, words) <==> exists k :: 0 <= k < |s| && [s[k]] in words
  {
    forall k | 0 <= k < |s| && [s[k]] in words ensures ContainsAny(s, words) {
      assert s[k..k + 1] == [s[k]];
      assert MatchAt(s, k, [s[k]]);
      assert Contains(s, [s[k]]);
    }
    if ContainsAny(s, words) {
      var w :| w in words && Contains(s, w);
      var i: nat :| MatchAt(s, i, w);
      assert s[i..i + 1] == [s[i]] == w;
    }
  }

  /** The whole promise: for a prefix-free set of non-empty words, the accepted strings are exactly
      those without any forbidden word if and only if every word is a single character. */
  lemma PromiseHoldsIff(words: seq<string>)
    requires words != [] && PrefixFree(words) && (forall w :: w in words ==> w != "")
    ensures (forall s :: Accepts(MakeExcluding(words), s) <==> !ContainsAny(s, words))
            <==> (forall w :: w in words ==> |w| == 1)
  {
    hide Accepts, MakeExcluding, Factors, ContainsAny;
    assert words[0] in words;
    forall s ensures Accepts(MakeExcluding(words), s) <==> Factors(words, s) {
      ExcludingLanguage(words, s);
    }
    if forall w :: w in words ==> |w| == 1 {
      forall s ensures Factors(words, s) <==> !ContainsAny(s, words) {
        CharsFactor(words, s);
        CharsContained(words, s);
      }
    } else {
      var v :| v in words && |v| != 1;
      OneCharHoldsNoLongerWord(words, v);
      assert Accepts(MakeExcluding(words), v[..1]) <==> Factors(words, v[..1]);
    }
  }

  // ---------- a forbidden word across block boundaries ----------

  /** The text begins some accepted string. */
  ghost predicate Reach(words: seq<string>, r: string) {
    exists bs :: Blocks(words, bs) && r <= Concat(bs)
  }

  /** The word `w` is met again from within the beginning u[..k] of a word: it ends in there, or it leaves
      that word one character later and the rest of it is let through. */
  ghost predicate Clashes(words: seq<string>, w: string, u: string, k: nat, j: nat)
    requires w in words && u in words && 1 <= j <= k < |u|
  {
    var p := u[..k];
    || (w <= p[j..] && Reach(words, p))
    || (ProperPrefix(p[j..], w) && IsBlock(words, p + [w[k - j]]) && Reach(words, w[k - j + 1..]))
  }

  ghost predicate Clash(words: seq<string>) {
    exists w, u, k: nat, j: nat :: w in words && u in words && 1 <= j <= k < |u| && Clashes(words, w, u, k, j)
  }

  lemma {:induction false} BlockAt(words: seq<string>, bs: seq<string>, i: nat) returns (t: nat, j: nat)
    requires Blocks(words, bs) && i < |Concat(bs)|
    ensures j <= i && t < |bs| && j < |bs[t]| && Concat(bs)[i - j..] == Concat(bs[t..])
    decreases |bs|
  {
    BlocksSplit(words, bs);
    var n := |bs[0]|;
    if i < n {
      t, j := 0, i;
      assert bs[0..] == bs;
    } else {
      var more, inner := BlockAt(words, bs[1..], i - n);
      t, j := more + 1, inner;
      assert bs[t..] == bs[1..][more..];
      assert Concat(bs)[i - j..] == Concat(bs[1..])[i - n - j..];
    }
  }

  lemma MatchShift(s: string, d: nat, i: nat, w: string)
    requires d <= |s|
    ensures MatchAt(s[d..], i, w) <==> MatchAt(s, d + i, w)
  {
    if d + i + |w| <= |s| {
      assert s[d..][i..i + |w|] == s[d + i..d + i + |w|];
    }
  }

  lemma AllOfMatch(p: string, c: char, rest: string, j: nat, w: string)
    requires j + |w| <= |p| && MatchAt(p + [c] + rest, j, w)
    ensures w <= p[j..]
  {
    assert (p + [c] + rest)[j..j + |w|] == p[j..][..|w|];
  }

  lemma PartsOfMatch(p: string, c: char, rest: string, j: nat, w: string)
    requires j <= |p| < j + |w| && MatchAt(p + [c] + rest, j, w)
    ensures ProperPrefix(p[j..], w) && w[|p| - j] == c && w[|p| - j + 1..] <= rest
  {
    var s, k := p + [c] + rest, |p|;
    assert w == s[j..j + |w|];
    assert w[..k - j] == p[j..];
    assert w[k - j + 1..] == s[k + 1..j + |w|] == rest[..j + |w| - k - 1];
  }

  /** A word found at offset `j` of a block and what follows it. */
  lemma ClashFound(words: seq<string>, w: string, b: string, rest: seq<string>, j: nat) returns (u: string, k: nat)
    requires w in words && w != "" && IsBlock(words, b) && Blocks(words, rest) && 1 <= j < |b|
    requires MatchAt(b + Concat(rest), j, w)
    ensures u in words && 1 <= j <= k < |u| && Clashes(words, w, u, k, j)
  {
    k := |b| - 1;
    u :| u in words && ProperPrefix(b[..k], u);
    var p, c := b[..k], b[k];
    assert p == u[..k] && b == p + [c];
    if j + |w| <= k {
      AllOfMatch(p, c, Concat(rest), j, w);
      assert [b][1..] == [] && Concat([b]) == b + Concat([]) == b;
      assert Blocks(words, [b]) && p <= b;
    } else {
      PartsOfMatch(p, c, Concat(rest), j, w);
    }
  }

  /** A clash shows in some accepted string. */
  lemma ClashShows(words: seq<string>, w: string, u: string, k: nat, j: nat) returns (s: string)
    requires w in words && u in words && 1 <= j <= k < |u| && Clashes(words, w, u, k, j)
    ensures Factors(words, s) && Contains(s, w)
  {
    hide IsBlock, Blocks;
    var p := u[..k];
    if w <= p[j..] && Reach(words, p) {
      var bs :| Blocks(words, bs) && p <= Concat(bs);
      s := Concat(bs);
      assert s[j..j + |w|] == p[j..][..|w|] == w;
    } else {
      var b, tail := p + [w[k - j]], w[k - j + 1..];
      var rest :| Blocks(words, rest) && tail <= Concat(rest);
      var bs := [b] + rest;
      assert bs[1..] == rest;
      BlocksSplit(words, bs);
      s := Concat(bs);
      assert s == b + Concat(rest) && w == p[j..] + [w[k - j]] + tail;
      assert s[j..j + |w|] == w;
    }
    assert MatchAt(s, j, w);
  }

  /** For a prefix-free set, no accepted string contains a forbidden word if and only if no word is met
      again from within a word. */
  lemma ExcludedIffNoClash(words: seq<string>)
    requires words != [] && PrefixFree(words) && (forall w :: w in words ==> w != "")
    ensures (forall s :: Accepts(MakeExcluding(words), s) ==> !ContainsAny(s, words)) <==> !Clash(words)
  {
    hide Accepts, MakeExcluding, Clashes;
    if Clash(words) {
      var w, u, k: nat, j: nat :| w in words && u in words && 1 <= j <= k < |u| && Clashes(words, w, u, k, j);
      var s := ClashShows(words, w, u, k, j);
      ExcludingLanguage(words, s);
    } else {
      forall s | Accepts(MakeExcluding(words), s) ensures !ContainsAny(s, words) {
        ExcludingLanguage(words, s);
        var bs :| Blocks(words, bs) && Concat(bs) == s;
        forall w, i: nat | w in words ensures !MatchAt(s, i, w) {
          if MatchAt(s, i, w) {
            var u, k, j := OccurrenceClashes(words, bs, w, i);
          }
        }
      }
    }
  }

  lemma OccurrenceClashes(words: seq<string>, bs: seq<string>, w: string, i: nat) returns (u: string, k: nat, j: nat)
    requires PrefixFree(words) && w in words && w != "" && Blocks(words, bs) && MatchAt(Concat(bs), i, w)
    ensures u in words && 1 <= j <= k < |u| && Clashes(words, w, u, k, j)
  {
    hide Clashes, IsBlock, Blocks;
    var t: nat;
    t, j := BlockAt(words, bs, i);
    MatchShift(Concat(bs), i - j, j, w);
    BlocksFrom(words, bs, t);
    NoWordAtBoundary(words, bs, t, w);
    assert bs[t..][1..] == bs[t + 1..] && bs[t..][0] == bs[t];
    FrontMatch(Concat(bs[t..]), w);
    u, k := ClashFound(words, w, bs[t], bs[t + 1..], j);
  }

  lemma FrontMatch(s: string, w: string)
    ensures MatchAt(s, 0, w) ==> w <= s
  {
  }

  lemma BlocksFrom(words: seq<string>, bs: seq<string>, t: nat)
    requires Blocks(words, bs) && t < |bs|
    ensures IsBlock(words, bs[t]) && Blocks(words, bs[t + 1..])
  {
    hide IsBlock;
  }

  // ---------- with a character to spare ----------

  /** The word contains no other. */
  ghost predicate Minimal(words: seq<string>, w: string) {
    forall v :: v in words && Contains(w, v) ==> v == w
  }

  /** The beginning u[..k] of a word ends, from `j` on, in the beginning of the word `w`, and the next
      character of `w` leaves all words there; or it holds all of `w`. */
  predicate Meets(words: seq<string>, w: string, u: string, k: nat, j: nat)
    requires 1 <= j <= k < |u|
  {
    var p := u[..k];
    || w <= p[j..]
    || (ProperPrefix(p[j..], w) && forall v :: v in words ==> !(p + [w[k - j]] <= v))
  }

  ghost predicate Meeting(words: seq<string>) {
    exists w, u, k: nat, j: nat ::
      w in words && Minimal(words, w) && u in words && 1 <= j <= k < |u| && Meets(words, w, u, k, j)
  }

  lemma ContainsTrans(s: string, w: string, v: string)
    requires Contains(s, w) && Contains(w, v)
    ensures Contains(s, v)
  {
    var i: nat :| MatchAt(s, i, w);
    var j: nat :| MatchAt(w, j, v);
    MatchChars(s, i, w);
    MatchChars(w, j, v);
    assert forall k :: i + j <= k < i + j + |v| ==> s[k] == w[k - i] == v[k - i - j];
    MatchChars(s, i + j, v);
  }

  lemma ContainsItself(w: string)
    ensures Contains(w, w)
  {
    assert w[0..|w|] == w;
    assert MatchAt(w, 0, w);
  }

  lemma {:induction false} MinimalWithin(words: seq<string>, w: string) returns (v: string)
    requires w in words
    ensures v in words && Minimal(words, v) && Contains(w, v)
    decreases |w|
  {
    ContainsItself(w);
    if Minimal(words, w) {
      v := w;
    } else {
      var x :| x in words && Contains(w, x) && x != w;
      var i: nat :| MatchAt(w, i, x);
      assert w[0..|w|] == w && |x| < |w|;
      v := MinimalWithin(words, x);
      ContainsTrans(w, x, v);
    }
  }

  /** A character that no word has leaves them all. */
  lemma SpareBlock(words: seq<string>, p: string, u: string, z: char)
    requires u in words && ProperPrefix(p, u) && forall w :: w in words ==> z !in w
    ensures IsBlock(words, p + [z])
  {
    var b := p + [z];
    assert b[..|b| - 1] == p;
    forall w | w in words
      ensures !(b <= w)
    {
      assert |w| > |p| ==> w[|p|] != z == b[|p|];
    }
  }

  /** A text without any word begins some accepted string. */
  lemma {:induction false} FreeReaches(words: seq<string>, r: string, z: char) returns (bs: seq<string>)
    requires words != [] && (forall w :: w in words ==> w != "" && z !in w) && !ContainsAny(r, words)
    ensures Blocks(words, bs) && r <= Concat(bs)
    decreases |r|
  {
    var k := 0;
    var u := words[0];
    while k < |r| && exists w :: w in words && r[..k + 1] <= w
      invariant 0 <= k <= |r| && u in words && ProperPrefix(r[..k], u)
    {
      u :| u in words && r[..k + 1] <= u;
      k := k + 1;
      assert MatchAt(r, 0, r[..k]) by { assert r[0..k] == r[..k]; }
      assert u != r[..k] by { assert u == r[..k] ==> Contains(r, u); }
    }
    if k == |r| {
      assert r[..k] == r;
      SpareBlock(words, r, u, z);
      bs := [r + [z]];
      assert Concat(bs) == r + [z] + Concat([]) == r + [z];
    } else {
      var b := r[..k + 1];
      assert b[..k] == r[..k] && IsBlock(words, b);
      FreeTail(r, k + 1, words);
      var rest := FreeReaches(words, r[k + 1..], z);
      bs := [b] + rest;
      assert bs[1..] == rest && r == b + r[k + 1..];
    }
  }

  lemma FreeTail(r: string, k: nat, words: seq<string>)
    requires k <= |r| && !ContainsAny(r, words)
    ensures !ContainsAny(r[k..], words)
  {
    forall w, i: nat | w in words
      ensures !MatchAt(r[k..], i, w)
    {
      assert !Contains(r, w);
      MatchShift(r, k, i, w);
    }
  }

  lemma ProperTailFree(words: seq<string>, w: string, d: nat)
    requires w in words && Minimal(words, w) && 0 < d <= |w|
    ensures !ContainsAny(w[d..], words)
  {
    forall v, i: nat | v in words
      ensures !MatchAt(w[d..], i, v)
    {
      MatchShift(w, d, i, v);
      assert Contains(w, v) ==> v == w;
    }
  }

  /** A meeting is a clash when there is a character to spare. */
  lemma MeetingClashes(words: seq<string>, z: char, w: string, u: string, k: nat, j: nat)
    requires words != [] && (forall v :: v in words ==> v != "" && z !in v)
    requires w in words && Minimal(words, w) && u in words && 1 <= j <= k < |u| && Meets(words, w, u, k, j)
    ensures Clashes(words, w, u, k, j)
  {
    var p := u[..k];
    if w <= p[j..] {
      SpareBlock(words, p, u, z);
      var bs := [p + [z]];
      assert Blocks(words, bs) && Concat(bs) == p + [z] + Concat([]) == p + [z] by { assert bs[1..] == []; }
    } else {
      var b := p + [w[k - j]];
      assert b[..|b| - 1] == p && ProperPrefix(p, u);
      assert IsBlock(words, b);
      ProperTailFree(words, w, k - j + 1);
      var bs := FreeReaches(words, w[k - j + 1..], z);
    }
  }

  lemma ClashMeets(words: seq<string>, w: string, u: string, k: nat, j: nat)
    requires w in words && u in words && 1 <= j <= k < |u| && Clashes(words, w, u, k, j)
    ensures Meets(words, w, u, k, j)
  {
  }

  /** With a character that occurs in no word, a prefix-free set is kept out of every accepted string if and
      only if, from within the beginning of a word, no word that contains no other is met by its own
      beginning and left there by its next character, or met whole. */
  lemma ExcludedIffNoMeeting(words: seq<string>, z: char)
    requires words != [] && PrefixFree(words) && (forall w :: w in words ==> w != "" && z !in w)
    ensures (forall s :: Accepts(MakeExcluding(words), s) ==> !ContainsAny(s, words)) <==> !Meeting(words)
  {
    hide Accepts, MakeExcluding, Clashes, Meets, Minimal;
    if Meeting(words) {
      var w, u, k: nat, j: nat :|
        w in words && Minimal(words, w) && u in words && 1 <= j <= k < |u| && Meets(words, w, u, k, j);
      MeetingClashes(words, z, w, u, k, j);
      ExcludedIffNoClash(words);
    } else {
      forall s | Accepts(MakeExcluding(words), s) ensures !ContainsAny(s, words) {
        ExcludingLanguage(words, s);
        var bs :| Blocks(words, bs) && Concat(bs) == s;
        if ContainsAny(s, words) {
          NoMeetingNone(words, bs);
        }
      }
    }
  }

  lemma NoMeetingNone(words: seq<string>, bs: seq<string>)
    requires PrefixFree(words) && (forall w :: w in words ==> w != "") && Blocks(words, bs)
    requires ContainsAny(Concat(bs), words)
    ensures Meeting(words)
  {
    hide Meets, Minimal, Clashes;
    var w :| w in words && Contains(Concat(bs), w);
    var v := MinimalWithin(words, w);
    ContainsTrans(Concat(bs), w, v);
    var i: nat :| MatchAt(Concat(bs), i, v);
    var u, k, j := OccurrenceClashes(words, bs, v, i);
    ClashMeets(words, v, u, k, j);
  }
}
