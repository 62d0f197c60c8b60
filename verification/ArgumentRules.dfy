/** The argument-order rules of build_grammar_xml_tool_call.

    The rules are built right to left over the declared parameters. A rule is a small grammar
    expression over tokens; its meaning is the set of token strings it derives. */
module ArgumentRules {

  /** `Arg(i)` is the rule of parameter i, `Sep` the literal val_end, `End` the last-argument end. */
  datatype Token = Arg(i: nat) | Sep | End

  datatype Rule = Empty | One(t: Token) | Cat(a: Rule, b: Rule) | Or(a: Rule, b: Rule)

  predicate Derives(r: Rule, w: seq<Token>) {
    match r
    case Empty => w == []
    case One(t) => w == [t]
    case Cat(a, b) => exists k :: 0 <= k <= |w| && Derives(a, w[..k]) && Derives(b, w[k..])
    case Or(a, b) => Derives(a, w) || Derives(b, w)
  }

  // ---------- the two rules built for each parameter ----------

  /** "arg-after-i-with-sep". */
  function WithSep(required: seq<bool>, i: nat): Rule
    requires i <= |required|
    decreases |required| - i
  {
    if i == |required| then One(End)
    else
      var this_ := Cat(One(Sep), Cat(One(Arg(i)), WithSep(required, i + 1)));
      if required[i] then this_ else Or(this_, WithSep(required, i + 1))
  }

  /** "arg-after-i". */
  function After(required: seq<bool>, i: nat): Rule
    requires i <= |required|
    decreases |required| - i
  {
    if i == |required| then Empty
    else
      var this_ := Cat(One(Arg(i)), WithSep(required, i + 1));
      if required[i] then this_ else Or(this_, After(required, i + 1))
  }

  const SIZE_T := 0x1_0000_0000_0000_0000

  /** size_t subtraction of one. */
  function Pred(x: nat): nat {
    (x + SIZE_T - 1) % SIZE_T
  }

  /** The countdown loop. It stops because the counter wraps around below zero, for no
      parameters already on entry. */
  method BuildArgumentRules(required: seq<bool>) returns (nextArg: Rule)
    requires |required| < SIZE_T
    ensures nextArg == After(required, 0)
  {
    var nextArgWithSep := One(End);
    nextArg := Empty;
    ghost var done: nat := |required|;
    var i := Pred(|required|);
    while i < |required|
      invariant done <= |required| && i == Pred(done)
      invariant nextArg == After(required, done) && nextArgWithSep == WithSep(required, done)
      decreases done
    {
      var includeThisArg := Cat(One(Arg(i)), nextArgWithSep);
      nextArg := if required[i] then includeThisArg else Or(includeThisArg, nextArg);
      includeThisArg := Cat(One(Sep), includeThisArg);
      nextArgWithSep := if required[i] then includeThisArg else Or(includeThisArg, nextArgWithSep);
      i, done := Pred(i), i;
    }
  }

  // ---------- what they accept ----------

  /** An in-order choice of parameters from `i` on that leaves out no required one. */
  predicate Choice(required: seq<bool>, i: nat, chosen: seq<nat>) {
    && (forall k :: 0 <= k < |chosen| ==> i <= chosen[k] < |required|)
    && (forall j, k :: 0 <= j < k < |chosen| ==> chosen[j] < chosen[k])
    && (forall p :: i <= p < |required| && required[p] ==> p in chosen)
  }

  /** Every chosen argument behind a separator, and the end. */
  function Separated(chosen: seq<nat>): seq<Token> {
    if chosen == [] then [End] else [Sep, Arg(chosen[0])] + Separated(chosen[1..])
  }

  /** The arguments with separators between them and the end after the last; nothing for none. */
  function Listed(chosen: seq<nat>): seq<Token> {
    if chosen == [] then [] else [Arg(chosen[0])] + Separated(chosen[1..])
  }

  lemma DerivesOne(t: Token, r: Rule, w: seq<Token>)
    ensures Derives(Cat(One(t), r), w) <==> w != [] && w[0] == t && Derives(r, w[1..])
  {
    if w != [] && w[0] == t && Derives(r, w[1..]) {
      assert w[..1] == [t];
    }
  }

  lemma ChoiceFirst(required: seq<bool>, i: nat, chosen: seq<nat>)
    requires i < |required| && Choice(required, i, chosen)
    ensures if chosen != [] && chosen[0] == i then Choice(required, i + 1, chosen[1..])
            else !required[i] && Choice(required, i + 1, chosen)
  {
    if chosen != [] && chosen[0] == i {
      forall p | i + 1 <= p < |required| && required[p] ensures p in chosen[1..] {
        var k :| 0 <= k < |chosen| && chosen[k] == p;
        assert chosen[1..][k - 1] == p;
      }
    } else {
      assert forall k :: 0 <= k < |chosen| ==> chosen[k] > i;
    }
  }

  lemma ChoiceMore(required: seq<bool>, i: nat, chosen: seq<nat>)
    requires i < |required| && Choice(required, i + 1, chosen)
    ensures Choice(required, i, [i] + chosen)
    ensures !required[i] ==> Choice(required, i, chosen)
  {
    var more := [i] + chosen;
    forall p | i <= p < |required| && required[p] ensures p in more {
      if p > i {
        assert p in chosen;
      }
    }
  }

  lemma LastChoice(required: seq<bool>, chosen: seq<nat>)
    ensures Choice(required, |required|, chosen) <==> chosen == []
  {
    if chosen != [] {
      var first := chosen[0];
      assert !(|required| <= first < |required|);
    }
  }

  /** The text of some choice of the parameters from `i` on, each behind a separator. */
  ghost predicate SeparatedText(required: seq<bool>, i: nat, w: seq<Token>) {
    exists c :: Choice(required, i, c) && w == Separated(c)
  }

  ghost predicate ListedText(required: seq<bool>, i: nat, w: seq<Token>) {
    exists c :: Choice(required, i, c) && w == Listed(c)
  }

  lemma SeparatedStep(required: seq<bool>, i: nat, w: seq<Token>)
    requires i < |required|
    ensures SeparatedText(required, i, w) <==>
            || (|w| >= 2 && w[0] == Sep && w[1] == Arg(i) && SeparatedText(required, i + 1, w[2..]))
            || (!required[i] && SeparatedText(required, i + 1, w))
  {
    hide Choice;
    if SeparatedText(required, i, w) {
      var c :| Choice(required, i, c) && w == Separated(c);
      ChoiceFirst(required, i, c);
      if c != [] && c[0] == i {
        assert w[2..] == Separated(c[1..]);
      }
    }
    if |w| >= 2 && w[0] == Sep && w[1] == Arg(i) && SeparatedText(required, i + 1, w[2..]) {
      var c :| Choice(required, i + 1, c) && w[2..] == Separated(c);
      ChoiceMore(required, i, c);
      assert ([i] + c)[1..] == c;
      assert w == [Sep, Arg(i)] + w[2..] == Separated([i] + c);
    }
    if !required[i] && SeparatedText(required, i + 1, w) {
      var c :| Choice(required, i + 1, c) && w == Separated(c);
      ChoiceMore(required, i, c);
    }
  }

  lemma ListedStep(required: seq<bool>, i: nat, w: seq<Token>)
    requires i < |required|
    ensures ListedText(required, i, w) <==>
            || (|w| >= 1 && w[0] == Arg(i) && SeparatedText(required, i + 1, w[1..]))
            || (!required[i] && ListedText(required, i + 1, w))
  {
    hide Choice;
    if ListedText(required, i, w) {
      var c :| Choice(required, i, c) && w == Listed(c);
      ChoiceFirst(required, i, c);
      if c != [] && c[0] == i {
        assert w[1..] == Separated(c[1..]);
      }
    }
    if |w| >= 1 && w[0] == Arg(i) && SeparatedText(required, i + 1, w[1..]) {
      var c :| Choice(required, i + 1, c) && w[1..] == Separated(c);
      ChoiceMore(required, i, c);
      assert ([i] + c)[1..] == c;
      assert w == [Arg(i)] + w[1..] == Listed([i] + c);
    }
    if !required[i] && ListedText(required, i + 1, w) {
      var c :| Choice(required, i + 1, c) && w == Listed(c);
      ChoiceMore(required, i, c);
    }
  }

  /** Which strings a separated rule derives. */
  lemma {:induction false} WithSepDerives(required: seq<bool>, i: nat, w: seq<Token>)
    requires i <= |required|
    ensures Derives(WithSep(required, i), w) <==> SeparatedText(required, i, w)
    decreases |required| - i
  {
    hide Choice;
    if i == |required| {
      forall c ensures Choice(required, i, c) <==> c == [] {
        LastChoice(required, c);
      }
      assert Separated([]) == [End];
      assert w == [End] ==> Choice(required, i, []) && w == Separated([]);
    } else {
      hide SeparatedText;
      var rest := WithSep(required, i + 1);
      SeparatedStep(required, i, w);
      WithSepDerives(required, i + 1, w);
      DerivesOne(Sep, Cat(One(Arg(i)), rest), w);
      if |w| >= 1 { DerivesOne(Arg(i), rest, w[1..]); }
      if |w| >= 2 {
        assert w[1..][1..] == w[2..];
        WithSepDerives(required, i + 1, w[2..]);
      }
    }
  }

  lemma {:induction false} AfterDerives(required: seq<bool>, i: nat, w: seq<Token>)
    requires i <= |required|
    ensures Derives(After(required, i), w) <==> ListedText(required, i, w)
    decreases |required| - i
  {
    hide Choice;
    if i == |required| {
      forall c ensures Choice(required, i, c) <==> c == [] {
        LastChoice(required, c);
      }
      assert Listed([]) == [];
      assert w == [] ==> Choice(required, i, []) && w == Listed([]);
    } else {
      hide SeparatedText, ListedText;
      ListedStep(required, i, w);
      AfterDerives(required, i + 1, w);
      DerivesOne(Arg(i), WithSep(required, i + 1), w);
      if |w| >= 1 { WithSepDerives(required, i + 1, w[1..]); }
    }
  }

  /** The rules accept exactly the in-order choices of the declared parameters that contain every
      required one, with val_end between consecutive arguments and the last end after the final
      one; and the empty string when nothing is required. */
  lemma RulesAcceptChoices(required: seq<bool>, w: seq<Token>)
    ensures Derives(After(required, 0), w) <==> exists c :: Choice(required, 0, c) && w == Listed(c)
    ensures Derives(After(required, 0), []) <==> forall p :: 0 <= p < |required| ==> !required[p]
  {
    AfterDerives(required, 0, w);
    AfterDerives(required, 0, []);
    if forall p :: 0 <= p < |required| ==> !required[p] {
      assert Choice(required, 0, []) && [] == Listed([]);
    }
  }

  /** The accepted text tells which parameters were chosen. */
  lemma {:induction false} ListedInjective(a: seq<nat>, b: seq<nat>)
    requires Listed(a) == Listed(b)
    ensures a == b
  {
    if a != [] && b != [] {
      assert Listed(a)[1..] == Separated(a[1..]) && Listed(b)[1..] == Separated(b[1..]);
      SeparatedInjective(a[1..], b[1..]);
      assert a == [a[0]] + a[1..] && b == [b[0]] + b[1..];
    }
  }

  lemma {:induction false} SeparatedInjective(a: seq<nat>, b: seq<nat>)
    requires Separated(a) == Separated(b)
    ensures a == b
  {
    if a != [] && b != [] {
      assert Separated(a)[1] == Arg(a[0]) && Separated(b)[1] == Arg(b[0]);
      assert Separated(a)[2..] == Separated(a[1..]) && Separated(b)[2..] == Separated(b[1..]);
      SeparatedInjective(a[1..], b[1..]);
      assert a == [a[0]] + a[1..] && b == [b[0]] + b[1..];
    } else {
      assert Separated([]) == [End];
    }
  }
}
