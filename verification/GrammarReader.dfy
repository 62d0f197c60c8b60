/** The generated grammar as text, and what the reader of llama-grammar.cpp makes of it: what is printed is read
    back and accepts the same strings, unless a forbidden word has one of two characters. */
module GrammarReader {
  import opened Text
  import opened GrammarExcluding
  import opened GrammarText
  import Utf8

  // ---------- the reader ----------

  /** What a rule holds: literals, classes, the dot, alternatives in brackets, each a row of items, and the
      star. */
  datatype Item =
    | Lit(cs: seq<int>)
    | Class(neg: bool, ms: seq<(int, int)>)
    | Any
    | Group(alts: seq<Item>)
    | Row(items: seq<Item>)
    | Many(item: Item)

  function Line(s: string): (r: string)
    ensures |r| <= |s|
  {
    if s == "" || s[0] == '\r' || s[0] == '\n' then s else Line(s[1..])
  }

  /** parse_space. */
  function Space(s: string, newline: bool): (r: string)
    ensures |r| <= |s|
    decreases |s|
  {
    if s == "" then s
    else if s[0] == ' ' || s[0] == '\t' || (newline && (s[0] == '\r' || s[0] == '\n')) then Space(s[1..], newline)
    else if s[0] == '#' then Space(Line(s[1..]), newline)
    else s
  }

  /** No element is pushed for it. */
  predicate Hollow(i: Item) {
    (i.Lit? && i.cs == []) || (i.Class? && i.ms == [])
  }

  /** Repetitions other than the star, tokens and names: not part of this model, and not generated. */
  predicate OtherItem(c: char) {
    c in "+?{<!-" || 'a' <= c <= 'z' || 'A' <= c <= 'Z' || '0' <= c <= '9'
  }

  /** One item of parse_sequence; none when the reader throws. */
  function ReadItem(s: string, nested: bool): (r: Option<(Item, string)>)
    requires s != ""
    ensures r.Some? ==> |r.value.1| < |s|
    decreases |s|, 0
  {
    if s[0] == '"' then
      match ReadLiteral(s[1..])
      case None => None
      case Some((cs, t)) => Some((Lit(cs), Space(t, nested)))
    else if s[0] == '[' then
      var neg := |s| > 1 && s[1] == '^';
      match ReadMembers(if neg then s[2..] else s[1..])
      case None => None
      case Some((ms, t)) => Some((Class(neg, ms), Space(t, nested)))
    else if s[0] == '(' then
      match ReadAlternates(Space(s[1..], true), true)
      case None => None
      case Some((alts, t)) => if t == "" || t[0] != ')' then None else Some((Group(alts), Space(t[1..], nested)))
    else if s[0] == '.' then Some((Any, Space(s[1..], nested)))
    else None
  }

  /** parse_sequence, behind a row of items. */
  function ReadRow(s: string, nested: bool, row: seq<Item>): (r: Option<(seq<Item>, string)>)
    ensures r.Some? ==> |r.value.1| <= |s|
    decreases |s|, 1
  {
    if s == "" then Some((row, s))
    else if s[0] in "\"[(." then
      match ReadItem(s, nested)
      case None => None
      case Some((i, t)) => ReadRow(t, nested, row + [i])
    else if s[0] == '*' then
      if row == [] || Hollow(row[|row| - 1]) then None
      else ReadRow(Space(s[1..], nested), nested, row[..|row| - 1] + [Many(row[|row| - 1])])
    else if OtherItem(s[0]) then None
    else Some((row, s))
  }

  /** parse_alternates. */
  function ReadAlternates(s: string, nested: bool): (r: Option<(seq<Item>, string)>)
    ensures r.Some? ==> |r.value.1| <= |s|
    decreases |s|, 2
  {
    match ReadRow(s, nested, [])
    case None => None
    case Some((row, t)) =>
      if t == "" || t[0] != '|' then Some(([Row(row)], t))
      else
        match ReadAlternates(Space(t[1..], true), nested)
        case None => None
        case Some((alts, u)) => Some(([Row(row)] + alts, u))
  }

  // ---------- what the items stand for ----------

  predicate InRanges(c: int, ms: seq<(int, int)>) {
    exists k :: 0 <= k < |ms| && ms[k].0 <= c <= ms[k].1
  }

  /** The strings of code points that an item accepts. */
  predicate Means(i: Item, s: string)
    decreases i, |s| + (if i.Row? then |i.items| + 1 else 0)
  {
    match i
    case Lit(cs) => |s| == |cs| && forall k :: 0 <= k < |s| ==> s[k] as int == cs[k]
    case Class(neg, ms) => if ms == [] then s == "" else |s| == 1 && InRanges(s[0] as int, ms) != neg
    case Any => |s| == 1
    case Group(alts) => exists k :: 0 <= k < |alts| && Means(alts[k], s)
    case Row(_) => RowMeans(i, 0, s)
    case Many(j) => s == "" || exists k :: 0 < k <= |s| && Means(j, s[..k]) && Means(i, s[k..])
  }

  /** The items of a row from `j` on, one after another. */
  predicate RowMeans(i: Item, j: nat, s: string)
    requires i.Row? && j <= |i.items|
    decreases i, |s| + |i.items| - j
  {
    if j == |i.items| then s == ""
    else exists k :: 0 <= k <= |s| && Means(i.items[j], s[..k]) && RowMeans(i, j + 1, s[k..])
  }

  // ---------- the printer ----------

  predicate Bytes(s: string) {
    forall k :: 0 <= k < |s| ==> s[k] as int < 256
  }

  /** What the trie gives: bytes, and at least one branch everywhere. */
  predicate Printed(e: Expr) {
    match e
    case NoneOf(cs) => Bytes(cs)
    case Then(c, f) => c as int < 256 && Printed(f)
    case Alts(es) => es != [] && forall k :: 0 <= k < |es| ==> Printed(es[k])
  }

  /** build_expr's text. */
  function Print(e: Expr): (s: string)
    requires Printed(e)
    ensures s != "" && s[0] in "\"[("
    decreases e, if e.Alts? then |e.es| + 1 else 0
  {
    match e
    case NoneOf(cs) => "[^" + (ClassText(cs) + "]")
    case Then(c, f) => Quoted(c) + (" " + Print(f))
    case Alts(es) => "( " + PrintFrom(e, 0)
  }

  /** The branches from the k-th on, and the closing bracket. */
  function PrintFrom(e: Expr, k: nat): (s: string)
    requires Printed(e) && e.Alts? && k < |e.es|
    ensures s != "" && s[0] in "\"[("
    decreases e, |e.es| - k
  {
    Print(e.es[k]) + (if k + 1 == |e.es| then " )" else " | " + PrintFrom(e, k + 1))
  }

  /** The text of make_gbnf_excluding. */
  function Gbnf(forbids: seq<string>): string
    requires var g := MakeExcluding(forbids); g.Star? ==> Printed(g.e)
  {
    match MakeExcluding(forbids)
    case AnyText => "( . )*"
    case Star(e) => if |forbids| == 1 then Print(e) + "*" else "( " + (Print(e) + " )*")
  }

  // ---------- what is printed is read ----------

  /** The items an expression is read as. */
  function ItemsOf(e: Expr): (items: seq<Item>)
    requires Printed(e)
    ensures items != []
    decreases e, if e.Alts? then |e.es| + 1 else 0
  {
    match e
    case NoneOf(cs) => [Class(true, Singles(cs))]
    case Then(c, f) => [Lit([c as int])] + ItemsOf(f)
    case Alts(es) => [Group(RowsFrom(e, 0))]
  }

  /** The branches from the k-th on. */
  function RowsFrom(e: Expr, k: nat): (rows: seq<Item>)
    requires Printed(e) && e.Alts? && k <= |e.es|
    ensures |rows| == |e.es| - k
    decreases e, |e.es| - k
  {
    if k == |e.es| then [] else [Row(ItemsOf(e.es[k]))] + RowsFrom(e, k + 1)
  }

  lemma OneSpace(s: string, newline: bool)
    requires s != "" && s[0] in "\"[(.)|*"
    ensures Space(s, newline) == s && Space(" " + s, newline) == s
  {
    assert (" " + s)[1..] == s;
  }

  lemma ClassItemReads(cs: string, tail: string, nested: bool, row: seq<Item>)
    requires Bytes(cs)
    ensures ReadRow(Print(NoneOf(cs)) + tail, nested, row) ==
            if Readable(NoneOf(cs)) then ReadRow(Space(tail, nested), nested, row + [Class(true, Singles(cs))])
            else None
  {
    ClassReads(cs, tail);
    ClassPrinted(cs, tail);
    ClassItem(ClassText(cs) + "]" + tail, nested);
    ReadRowItem("[^" + (ClassText(cs) + "]" + tail), nested, row);
    hide ReadMembers, ClassText, Singles, Space, ReadRow, Print, ReadItem;
  }

  lemma ClassPrinted(cs: string, tail: string)
    requires Bytes(cs)
    ensures Print(NoneOf(cs)) + tail == "[^" + (ClassText(cs) + "]" + tail)
  {
    hide ClassText;
  }

  lemma ClassItem(members: string, nested: bool)
    ensures var r := ReadMembers(members);
      ReadItem("[^" + members, nested) ==
      if r.None? then None else Some((Class(true, r.value.0), Space(r.value.1, nested)))
  {
    hide ReadMembers, Space;
    var s := "[^" + members;
    assert s[0] == '[' && s[1] == '^' && s[2..] == members;
  }

  /** A row that goes on with an item. */
  lemma ReadRowItem(s: string, nested: bool, row: seq<Item>)
    requires s != "" && s[0] in "\"[(."
    ensures var r := ReadItem(s, nested);
      ReadRow(s, nested, row) == if r.None? then None else ReadRow(r.value.1, nested, row + [r.value.0])
  {
    hide ReadItem;
  }

  /** A row that is over. */
  lemma ReadRowEnds(s: string, nested: bool, row: seq<Item>)
    requires s != "" && (s[0] == ')' || s[0] == '|')
    ensures ReadRow(s, nested, row) == Some((row, s))
  {
  }

  lemma LiteralItemReads(c: Byte, rest: string, nested: bool, row: seq<Item>)
    requires rest != "" && rest[0] in "\"[("
    ensures ReadRow(Quoted(c) + (" " + rest), nested, row) == ReadRow(rest, nested, row + [Lit([c as int])])
  {
    var s := Quoted(c) + (" " + rest);
    QuotedReads(c, " " + rest);
    OneSpace(rest, nested);
    assert s[0] == '"';
    ReadRowItem(s, nested, row);
    hide ReadLiteral, Quoted, Space, ReadRow;
  }

  /** All branches from the k-th on. */
  predicate ReadableFrom(e: Expr, k: nat)
    requires e.Alts?
  {
    forall j :: k <= j < |e.es| ==> Readable(e.es[j])
  }

  /** Behind the last row comes the bracket. */
  lemma LastRead(s: string, items: seq<Item>, ok: bool, tail: string)
    requires ReadRow(s + (" )" + tail), true, []) ==
             if ok then ReadRow(Space(" )" + tail, true), true, [] + items) else None
    ensures ReadAlternates(s + (" )" + tail), true) == if ok then Some(([Row(items)], ")" + tail)) else None
  {
    OneSpace(")" + tail, true);
    ReadRowEnds(")" + tail, true, items);
    assert " )" + tail == " " + (")" + tail) && [] + items == items;
    hide Space, ReadRow;
  }

  /** Behind any other row comes the bar. */
  lemma NextRead(s: string, items: seq<Item>, ok: bool, more: string)
    requires more != "" && more[0] in "\"[("
    requires ReadRow(s + (" | " + more), true, []) ==
             if ok then ReadRow(Space(" | " + more, true), true, [] + items) else None
    ensures ReadAlternates(s + (" | " + more), true) ==
            if !ok then None
            else
              match ReadAlternates(more, true)
              case None => None
              case Some((alts, u)) => Some(([Row(items)] + alts, u))
  {
    var bar := "| " + more;
    OneSpace(bar, true);
    OneSpace(more, true);
    ReadRowEnds(bar, true, items);
    assert " | " + more == " " + bar && bar[1..] == " " + more && [] + items == items;
    AlternatesGoOn(s + (" | " + more), bar, items, ok);
    hide Space, ReadRow, ReadAlternates;
  }

  lemma AlternatesGoOn(s: string, bar: string, items: seq<Item>, ok: bool)
    requires bar != "" && bar[0] == '|' && ReadRow(s, true, []) == if ok then Some((items, bar)) else None
    ensures ReadAlternates(s, true) ==
            if !ok then None
            else
              match ReadAlternates(Space(bar[1..], true), true)
              case None => None
              case Some((alts, u)) => Some(([Row(items)] + alts, u))
  {
    hide Space, ReadRow;
  }

  lemma PrintFromIs(e: Expr, k: nat, tail: string)
    requires Printed(e) && e.Alts? && k < |e.es|
    ensures k + 1 == |e.es| ==> PrintFrom(e, k) + tail == Print(e.es[k]) + (" )" + tail)
    ensures k + 1 < |e.es| ==> PrintFrom(e, k) + tail == Print(e.es[k]) + (" | " + (PrintFrom(e, k + 1) + tail))
    ensures ReadableFrom(e, k) <==> Readable(e.es[k]) && ReadableFrom(e, k + 1)
    ensures RowsFrom(e, k) == [Row(ItemsOf(e.es[k]))] + RowsFrom(e, k + 1) && RowsFrom(e, |e.es|) == []
    ensures k + 1 == |e.es| ==> ReadableFrom(e, k + 1)
  {
    hide Print, Readable, ItemsOf;
    var f := e.es[k];
    if k + 1 < |e.es| {
      assert Print(f) + (" | " + PrintFrom(e, k + 1)) + tail == Print(f) + (" | " + (PrintFrom(e, k + 1) + tail));
    } else {
      assert Print(f) + " )" + tail == Print(f) + (" )" + tail);
    }
  }

  /** The branches from the k-th on are read one by one, up to the closing bracket. */
  lemma {:induction false} AltsRead(e: Expr, k: nat, tail: string)
    requires Printed(e) && e.Alts? && k < |e.es|
    ensures ReadAlternates(PrintFrom(e, k) + tail, true) ==
            if ReadableFrom(e, k) then Some((RowsFrom(e, k), ")" + tail)) else None
    decreases e, |e.es| - k
  {
    var f := e.es[k];
    PrintFromIs(e, k, tail);
    hide Readable, ReadableFrom, Print, PrintFrom, ItemsOf, ReadRow, ReadAlternates, Space, RowsFrom;
    if k + 1 == |e.es| {
      ExprReads(f, " )" + tail, true, []);
      LastRead(Print(f), ItemsOf(f), Readable(f), tail);
      assert [Row(ItemsOf(f))] + [] == [Row(ItemsOf(f))];
    } else {
      var more := PrintFrom(e, k + 1) + tail;
      ExprReads(f, " | " + more, true, []);
      AltsRead(e, k + 1, tail);
      NextRead(Print(f), ItemsOf(f), Readable(f), more);
    }
  }

  /** Alternatives in brackets are one item. */
  lemma GroupItemReads(inner: string, rows: seq<Item>, ok: bool, tail: string, nested: bool, row: seq<Item>)
    requires inner != "" && inner[0] in "\"[(."
    requires ReadAlternates(inner, true) == if ok then Some((rows, ")" + tail)) else None
    ensures ReadRow("( " + inner, nested, row) ==
            if ok then ReadRow(Space(tail, nested), nested, row + [Group(rows)]) else None
  {
    var s := "( " + inner;
    OneSpace(inner, true);
    assert s[0] == '(' && s[1..] == " " + inner && (")" + tail)[1..] == tail;
    ReadRowItem(s, nested, row);
    hide Space, ReadAlternates, ReadRow;
  }

  lemma GroupIs(e: Expr, tail: string)
    requires Printed(e) && e.Alts?
    ensures Print(e) + tail == "( " + (PrintFrom(e, 0) + tail)
    ensures Readable(e) <==> ReadableFrom(e, 0)
    ensures ItemsOf(e) == [Group(RowsFrom(e, 0))]
  {
    hide PrintFrom;
    assert "( " + PrintFrom(e, 0) + tail == "( " + (PrintFrom(e, 0) + tail);
  }

  lemma ThenUnfolds(c: char, f: Expr)
    requires Printed(Then(c, f))
    ensures Print(Then(c, f)) == Quoted(c) + (" " + Print(f))
    ensures Readable(Then(c, f)) <==> Readable(f)
    ensures ItemsOf(Then(c, f)) == [Lit([c as int])] + ItemsOf(f)
  {
    hide Quoted;
  }

  lemma Joined(a: string, b: string, c: string)
    ensures a + (" " + b) + c == a + (" " + (b + c))
  {
  }

  lemma ThenIs(c: char, f: Expr, tail: string, row: seq<Item>)
    requires Printed(Then(c, f))
    ensures Print(Then(c, f)) + tail == Quoted(c) + (" " + (Print(f) + tail))
    ensures Readable(Then(c, f)) <==> Readable(f)
    ensures row + ItemsOf(Then(c, f)) == row + [Lit([c as int])] + ItemsOf(f)
  {
    ThenUnfolds(c, f);
    hide Quoted, Print, ItemsOf, Readable;
    Joined(Quoted(c), Print(f), tail);
    assert row + ([Lit([c as int])] + ItemsOf(f)) == row + [Lit([c as int])] + ItemsOf(f);
  }

  /** A printed expression is read item by item, or the reader throws. */
  lemma {:induction false} ExprReads(e: Expr, tail: string, nested: bool, row: seq<Item>)
    requires Printed(e)
    ensures ReadRow(Print(e) + tail, nested, row) ==
            if Readable(e) then ReadRow(Space(tail, nested), nested, row + ItemsOf(e)) else None
    decreases e, if e.Alts? then |e.es| + 1 else 0
  {
    hide Print, PrintFrom, Readable, ReadableFrom, ItemsOf, ReadRow, Space, RowsFrom, ReadAlternates;
    match e
    case NoneOf(cs) =>
      ClassItemReads(cs, tail, nested, row);
      ClassIs(cs);
    case Then(c, f) =>
      ThenIs(c, f, tail, row);
      LiteralItemReads(c, Print(f) + tail, nested, row);
      ExprReads(f, tail, nested, row + [Lit([c as int])]);
    case Alts(es) =>
      GroupIs(e, tail);
      AltsRead(e, 0, tail);
      GroupItemReads(PrintFrom(e, 0) + tail, RowsFrom(e, 0), ReadableFrom(e, 0), tail, nested, row);
  }

  lemma ClassIs(cs: string)
    requires Bytes(cs)
    ensures ItemsOf(NoneOf(cs)) == [Class(true, Singles(cs))]
  {
  }

  // ---------- what is read accepts the same strings ----------

  lemma {:induction false} RowShifts(x: Item, items: seq<Item>, j: nat, s: string)
    requires j <= |items|
    ensures RowMeans(Row([x] + items), j + 1, s) <==> RowMeans(Row(items), j, s)
    decreases |items| - j
  {
    hide Means;
    if j < |items| {
      forall k | 0 <= k <= |s|
        ensures RowMeans(Row([x] + items), j + 2, s[k..]) <==> RowMeans(Row(items), j + 1, s[k..])
      {
        RowShifts(x, items, j + 1, s[k..]);
      }
      assert ([x] + items)[j + 1] == items[j];
    }
  }

  /** An item before a row. */
  lemma RowBegins(x: Item, items: seq<Item>, s: string)
    ensures Means(Row([x] + items), s) <==>
            exists k :: 0 <= k <= |s| && Means(x, s[..k]) && Means(Row(items), s[k..])
  {
    var row := [x] + items;
    assert row[0] == x;
    forall k | 0 <= k <= |s|
      ensures RowMeans(Row(row), 1, s[k..]) <==> Means(Row(items), s[k..])
    {
      RowShifts(x, items, 0, s[k..]);
    }
    assert Means(Row(row), s) <==> RowMeans(Row(row), 0, s);
  }

  lemma RowEnds(s: string)
    ensures Means(Row([]), s) <==> s == ""
  {
  }

  lemma OneItem(x: Item, s: string)
    ensures Means(Row([x]), s) <==> Means(x, s)
  {
    assert [x] + [] == [x];
    RowBegins(x, [], s);
    forall k | 0 <= k <= |s| ensures Means(Row([]), s[k..]) <==> k == |s| {
      RowEnds(s[k..]);
    }
    assert s[..|s|] == s;
    hide Means;
  }

  lemma ClassMeans(cs: string, s: string)
    requires Bytes(cs)
    ensures Means(Class(true, Singles(cs)), s) <==> Matches(NoneOf(cs), s)
  {
    var ms := Singles(cs);
    assert forall k :: 0 <= k < |cs| ==> ms[k] == (cs[k] as int, cs[k] as int);
    if |s| == 1 {
      assert s[0] in cs <==> InRanges(s[0] as int, ms);
    }
  }

  lemma LitMeans(c: char, s: string)
    ensures Means(Lit([c as int]), s) <==> s == [c]
  {
  }

  /** A quoted character and what follows it. */
  lemma ThenMeans(c: char, items: seq<Item>, s: string)
    ensures Means(Row([Lit([c as int])] + items), s) <==> s != "" && s[0] == c && Means(Row(items), s[1..])
  {
    RowBegins(Lit([c as int]), items, s);
    forall k | 0 <= k <= |s| ensures Means(Lit([c as int]), s[..k]) <==> k == 1 && s[0] == c {
      LitMeans(c, s[..k]);
    }
    hide Means;
  }

  lemma {:induction false} RowAt(e: Expr, k: nat, j: nat)
    requires Printed(e) && e.Alts? && k + j < |e.es|
    ensures RowsFrom(e, k)[j] == Row(ItemsOf(e.es[k + j]))
    decreases j
  {
    hide ItemsOf;
    if j > 0 {
      RowAt(e, k + 1, j - 1);
    }
  }

  lemma GroupMeans(alts: seq<Item>, s: string)
    ensures Means(Group(alts), s) <==> exists k :: 0 <= k < |alts| && Means(alts[k], s)
  {
  }

  lemma AltsMatches(es: seq<Expr>, s: string)
    ensures Matches(Alts(es), s) <==> exists k :: 0 <= k < |es| && Matches(es[k], s)
  {
  }

  /** What is read of a printed expression accepts what the expression matches. */
  lemma {:induction false} ItemsMean(e: Expr, s: string)
    requires Printed(e)
    ensures Means(Row(ItemsOf(e)), s) <==> Matches(e, s)
    decreases e
  {
    match e
    case NoneOf(cs) =>
      ClassIs(cs);
      OneItem(Class(true, Singles(cs)), s);
      ClassMeans(cs, s);
    case Then(c, f) =>
      ThenUnfolds(c, f);
      ThenMeans(c, ItemsOf(f), s);
      if s != "" {
        ItemsMean(f, s[1..]);
      }
    case Alts(es) =>
      var rows := RowsFrom(e, 0);
      OneItem(Group(rows), s);
      GroupMeans(rows, s);
      AltsMatches(es, s);
      forall k | 0 <= k < |es| ensures Means(rows[k], s) <==> Matches(es[k], s) {
        RowAt(e, 0, k);
        ItemsMean(es[k], s);
      }
      assert ItemsOf(e) == [Group(rows)];
  }

  lemma {:induction false} ManyMeans(x: Item, e: Expr, s: string)
    requires forall t :: Means(x, t) <==> Matches(e, t)
    ensures Means(Many(x), s) <==> MatchesStar(e, s)
    decreases |s|
  {
    hide Matches;
    forall k | 0 < k <= |s| ensures Means(Many(x), s[k..]) <==> MatchesStar(e, s[k..]) {
      ManyMeans(x, e, s[k..]);
    }
  }

  // ---------- the whole text ----------

  /** A starred item at the end of the text. */
  lemma StarRead(x: Item, nested: bool)
    requires !Hollow(x)
    ensures ReadRow("*", nested, [x]) == Some(([Many(x)], ""))
  {
    var row := [x];
    assert "*"[1..] == "" && Space("", nested) == "";
    assert row[..|row| - 1] + [Many(row[|row| - 1])] == [Many(x)];
    assert ReadRow("", nested, [Many(x)]) == Some(([Many(x)], ""));
  }

  lemma OneRow(s: string, nested: bool, row: seq<Item>)
    requires ReadRow(s, nested, []) == Some((row, ""))
    ensures ReadAlternates(s, nested) == Some(([Row(row)], ""))
  {
    hide ReadRow;
  }

  lemma NoRow(s: string, nested: bool)
    requires ReadRow(s, nested, []) == None
    ensures ReadAlternates(s, nested) == None
  {
    hide ReadRow;
  }

  /** The reader takes the whole text for one starred item. */
  predicate ReadsAs(text: string, x: Item) {
    ReadAlternates(text, false) == Some(([Row([Many(x)])], ""))
  }

  lemma BareReads(e: Expr)
    requires Printed(e) && e.Alts?
    ensures if Readable(e) then ReadsAs(Print(e) + "*", ItemsOf(e)[0]) else ReadAlternates(Print(e) + "*", false).None?
  {
    ExprReads(e, "*", false, []);
    var x, text := ItemsOf(e)[0], Print(e) + "*";
    assert ItemsOf(e) == [x] && !Hollow(x) && [] + ItemsOf(e) == [x];
    hide Print, Readable, ReadRow, Space, ItemsOf, ReadAlternates;
    OneSpace("*", false);
    StarRead(x, false);
    if Readable(e) {
      OneRow(text, false, [Many(x)]);
    } else {
      NoRow(text, false);
    }
  }

  lemma BracketedReads(e: Expr)
    requires Printed(e)
    ensures var text := "( " + (Print(e) + " )*");
      if Readable(e) then ReadsAs(text, Group([Row(ItemsOf(e))])) else ReadAlternates(text, false).None?
  {
    var rows, inner := [Row(ItemsOf(e))], Print(e) + " )*";
    hide Print, Readable, ReadRow, Space, ItemsOf, ReadAlternates;
    assert " )" + "*" == " )*" && [] + [Group(rows)] == [Group(rows)];
    ExprReads(e, " )*", true, []);
    LastRead(Print(e), ItemsOf(e), Readable(e), "*");
    GroupItemReads(inner, rows, Readable(e), "*", false, []);
    OneSpace("*", false);
    StarRead(Group(rows), false);
    if Readable(e) {
      OneRow("( " + inner, false, [Many(Group(rows))]);
    } else {
      NoRow("( " + inner, false);
    }
  }

  /** The starred dot. */
  lemma DotReads()
    ensures ReadsAs("( . )*", Group([Row([Any])]))
  {
    var inner, row := ". )*", [Any];
    OneSpace(")*", true);
    assert inner[1..] == " )*" == " " + ")*" && [] + row == row;
    assert ReadItem(inner, true) == Some((Any, ")*"));
    ReadRowItem(inner, true, []);
    ReadRowEnds(")*", true, row);
    assert ReadAlternates(inner, true) == Some(([Row(row)], ")" + "*")) by {
      hide ReadRow, ReadItem;
      assert ")*" == ")" + "*";
    }
    hide ReadRow, ReadItem, ReadAlternates, Space;
    assert "( . )*" == "( " + inner && [] + [Group([Row(row)])] == [Group([Row(row)])];
    GroupItemReads(inner, [Row(row)], true, "*", false, []);
    OneSpace("*", false);
    StarRead(Group([Row(row)]), false);
    OneRow("( . )*", false, [Many(Group([Row(row)]))]);
  }

  lemma {:induction false} DotsMean(s: string)
    ensures Means(Many(Group([Row([Any])])), s)
    decreases |s|
  {
    if s != "" {
      var x := Group([Row([Any])]);
      OneItem(Any, s[..1]);
      GroupMeans([Row([Any])], s[..1]);
      assert [Row([Any])][0] == Row([Any]);
      DotsMean(s[1..]);
    }
  }

  lemma WholeMeans(x: Item, s: string)
    ensures Means(Group([Row([Many(x)])]), s) <==> Means(Many(x), s)
  {
    GroupMeans([Row([Many(x)])], s);
    OneItem(Many(x), s);
    hide Means;
    assert [Row([Many(x)])][0] == Row([Many(x)]);
  }

  // ---------- the trie's expressions are printable ----------

  predicate ByteWords(ws: seq<string>) {
    forall x :: 0 <= x < |ws| ==> Bytes(ws[x])
  }

  lemma {:induction false} NodePrinted(ws: seq<string>, l: nat, r: nat, depth: nat)
    requires l <= r <= |ws| && ByteWords(ws) && forall x :: l <= x < r ==> |ws[x]| >= depth
    ensures var e := BuildExpr(ws, l, r, depth); e.Some? ==> Printed(e.value)
    decreases Longest(ws) - depth, r - l + 1
  {
    hide Children, Branches, Printed;
    var cs := Children(ws, l, r, depth);
    if cs != [] {
      FirstsPrinted(ws, l, r, depth, cs);
      BranchesPrinted(ws, cs, depth, l, r);
      AltsPrinted(NoneOf(FirstsOf(cs)), Branches(ws, cs, depth, l, r));
    }
  }

  lemma FirstsPrinted(ws: seq<string>, l: nat, r: nat, depth: nat, cs: seq<Child>)
    requires l <= r <= |ws| && ByteWords(ws) && forall k :: 0 <= k < |cs| ==> l <= cs[k].i < cs[k].j <= r
    requires forall k, x :: 0 <= k < |cs| && cs[k].i <= x < cs[k].j ==> |ws[x]| > depth && ws[x][depth] == cs[k].c
    ensures Printed(NoneOf(FirstsOf(cs))) && forall k :: 0 <= k < |cs| ==> cs[k].c as int < 256
  {
    forall k | 0 <= k < |cs| ensures FirstsOf(cs)[k] == cs[k].c && cs[k].c as int < 256 {
      assert ws[cs[k].i][depth] == cs[k].c && Bytes(ws[cs[k].i]);
    }
  }

  predicate AllPrinted(es: seq<Expr>) {
    forall k :: 0 <= k < |es| ==> Printed(es[k])
  }

  lemma AltsPrinted(e: Expr, es: seq<Expr>)
    requires Printed(e) && AllPrinted(es)
    ensures Printed(Alts([e] + es))
  {
  }

  lemma JoinedPrinted(a: seq<Expr>, b: seq<Expr>)
    requires AllPrinted(a) && AllPrinted(b)
    ensures AllPrinted(a + b)
  {
    hide Printed;
  }

  lemma {:induction false} BranchesPrinted(ws: seq<string>, cs: seq<Child>, depth: nat, l: nat, r: nat)
    requires l <= r <= |ws| && ByteWords(ws) && forall k :: 0 <= k < |cs| ==> l <= cs[k].i < cs[k].j <= r
    requires forall k, x :: 0 <= k < |cs| && cs[k].i <= x < cs[k].j ==> |ws[x]| > depth && ws[x][depth] == cs[k].c
    ensures AllPrinted(Branches(ws, cs, depth, l, r))
    decreases Longest(ws) - depth, 0, |cs|
  {
    hide BuildExpr;
    if cs != [] {
      var c := cs[0];
      FirstsPrinted(ws, l, r, depth, cs);
      LongestBounds(ws, c.i);
      BranchesPrinted(ws, cs[1..], depth, l, r);
      NodePrinted(ws, c.i, c.j, depth + 1);
      var e := BuildExpr(ws, c.i, c.j, depth + 1);
      var head := if e.Some? then [Then(c.c, e.value)] else [];
      assert e.Some? ==> Printed(head[0]);
      JoinedPrinted(head, Branches(ws, cs[1..], depth, l, r));
    }
  }

  lemma ExcludingPrinted(words: seq<string>)
    requires ByteWords(words)
    ensures var g := MakeExcluding(words); g.Star? ==> Printed(g.e) && g.e.Alts?
  {
    hide Sort, Bytes;
    if words != [] {
      var ws := Sort(words);
      forall x | 0 <= x < |ws| ensures Bytes(ws[x]) {
        assert ws[x] in ws;
        SortKeeps(words, ws[x]);
      }
      NodePrinted(ws, 0, |ws|, 0);
      BuildsAlts(ws);
      RootHasChildren(words);
      if BuildExpr(ws, 0, |ws|, 0).None? {
        forall w ensures w in ws <==> w in words {
          SortKeeps(words, w);
        }
        NoFirsts(ws);
        EmptyPrinted();
      }
    }
  }

  lemma BuildsAlts(ws: seq<string>)
    ensures var e := BuildExpr(ws, 0, |ws|, 0); e.Some? ==> e.value.Alts?
  {
    hide Children, Branches;
  }

  lemma EmptyPrinted()
    ensures Printed(Alts([NoneOf("")]))
  {
  }

  // ---------- the grammar as it is read ----------

  /** The text that make_gbnf_excluding generates, for any list of byte strings, is read to its end as a grammar
      that accepts exactly the strings that fall into blocks (every string for an empty list), if and only
      if no forbidden word has the character ^ or -; otherwise the reader throws. */
  lemma GbnfReads(words: seq<string>)
    requires ByteWords(words)
    ensures var g := MakeExcluding(words); g.Star? ==> Printed(g.e)
    ensures var r := ReadAlternates(Gbnf(words), false);
      if forall w :: w in words ==> '^' !in w && '-' !in w
      then r.Some? && r.value.1 == "" && forall s :: Means(Group(r.value.0), s) <==> words == [] || Factors(words, s)
      else r.None?
  {
    ExcludingPrinted(words);
    ExcludingReadable(words);
    GbnfIs(words);
    hide *;
    var g := MakeExcluding(words);
    if g.AnyText? {
      DotReads();
      var x := Group([Row([Any])]);
      ReadsMeans(Gbnf(words), x);
      forall s ensures Means(Many(x), s) <==> words == [] || Factors(words, s) {
        DotsMean(s);
        ExcludingLanguage(words, s);
        AnyAccepts(s);
      }
    } else {
      var e := g.e;
      BareReads(e);
      BracketedReads(e);
      GrammarReadable(g);
      var x := if |words| == 1 then ItemsOf(e)[0] else Group([Row(ItemsOf(e))]);
      if Readable(e) {
        ReadsMeans(Gbnf(words), x);
        StarMeans(e);
        forall s ensures Means(Many(x), s) <==> words == [] || Factors(words, s) {
          ManyMeans(x, e, s);
          ExcludingLanguage(words, s);
          StarAccepts(e, s);
        }
      }
    }
  }

  lemma GbnfIs(words: seq<string>)
    requires var g := MakeExcluding(words); g.Star? ==> Printed(g.e)
    ensures var g := MakeExcluding(words);
      Gbnf(words) == if g.AnyText? then "( . )*"
                     else if |words| == 1 then Print(g.e) + "*" else "( " + (Print(g.e) + " )*")
  {
    hide MakeExcluding, Print;
  }

  lemma ReadsMeans(text: string, x: Item)
    requires ReadsAs(text, x)
    ensures var r := ReadAlternates(text, false);
      r.Some? && r.value.1 == "" && forall s :: Means(Group(r.value.0), s) <==> Means(Many(x), s)
  {
    hide ReadAlternates;
    forall s ensures Means(Group([Row([Many(x)])]), s) <==> Means(Many(x), s) {
      WholeMeans(x, s);
    }
  }

  lemma AnyAccepts(s: string)
    ensures Accepts(AnyText, s)
  {
  }

  lemma StarAccepts(e: Expr, s: string)
    ensures Accepts(Star(e), s) <==> MatchesStar(e, s)
  {
  }

  lemma GrammarReadable(g: Grammar)
    ensures g.Star? ==> (ReadableGrammar(g) <==> Readable(g.e))
  {
  }

  lemma StarMeans(e: Expr)
    requires Printed(e) && e.Alts?
    ensures forall s :: Means(ItemsOf(e)[0], s) <==> Matches(e, s)
    ensures forall s :: Means(Group([Row(ItemsOf(e))]), s) <==> Matches(e, s)
  {
    var x, rows := ItemsOf(e)[0], [Row(ItemsOf(e))];
    assert ItemsOf(e) == [x] && rows[0] == Row(ItemsOf(e));
    hide Means, Matches, ItemsOf;
    forall s ensures (Means(x, s) <==> Matches(e, s)) && (Means(Group(rows), s) <==> Matches(e, s)) {
      ItemsMean(e, s);
      OneItem(x, s);
      GroupMeans(rows, s);
    }
  }

  // ---------- inputs at which it fails ----------

  /** Forbidding a hyphen gives a grammar that the reader refuses. */
  lemma HyphenThrows()
    ensures var g := MakeExcluding(["-"]); g.Star? ==> Printed(g.e)
    ensures Gbnf(["-"]) == "( [^\\-] )*" && ReadAlternates("( [^\\-] )*", false).None?
  {
    HyphenWord();
    hide *;
    HyphenTree();
    HyphenText();
    GbnfIs(["-"]);
    GbnfReads(["-"]);
  }

  lemma HyphenWord()
    ensures ByteWords(["-"]) && (exists w :: w in ["-"] && '-' in w) && |["-"]| == 1
  {
    assert "-" in ["-"] && '-' in "-";
  }

  lemma HyphenTree()
    ensures MakeExcluding(["-"]) == Star(Alts([NoneOf("-")]))
  {
    var ws := ["-"];
    HyphenChildren();
    OneWordSorted(ws);
    OneCharTree(ws, '-');
    hide BuildExpr, Sort;
  }

  lemma OneWordSorted(ws: seq<string>)
    requires |ws| == 1
    ensures Sort(ws) == ws
  {
    assert ws[1..] == [] && [ws[0]] == ws;
  }

  lemma OneCharTree(ws: seq<string>, c: char)
    requires |ws| == 1 && |ws[0]| == 1 && Children(ws, 0, 1, 0) == [Child(c, 0, 1)] && Children(ws, 0, 1, 1) == []
    ensures BuildExpr(ws, 0, 1, 0) == Some(Alts([NoneOf([c])]))
  {
    hide Children;
    var cs := [Child(c, 0, 1)];
    assert BuildExpr(ws, 0, 1, 1) == None;
    assert cs[1..] == [] && Branches(ws, cs[1..], 0, 0, 1) == [] && Branches(ws, cs, 0, 0, 1) == [];
    assert FirstsOf(cs) == [c] && [NoneOf([c])] + [] == [NoneOf([c])];
  }

  lemma HyphenChildren()
    ensures Children(["-"], 0, 1, 0) == [Child('-', 0, 1)] && Children(["-"], 0, 1, 1) == []
  {
    var ws := ["-"];
    assert RunEnd(ws, 1, 1, 0, '-') == 1;
    assert RunEnd(ws, 0, 1, 0, '-') == 1;
    assert Children(ws, 1, 1, 0) == [] && Children(ws, 1, 1, 1) == [];
  }

  lemma HyphenText()
    ensures Printed(Alts([NoneOf("-")])) && Print(Alts([NoneOf("-")])) + "*" == "( [^\\-] )*"
  {
    var e := Alts([NoneOf("-")]);
    assert Bytes("-") && "-"[1..] == "";
    assert ClassText("-") == ClassEscape('-') + ClassText("") == "\\-";
    hide ClassText;
    assert Print(NoneOf("-")) == "[^\\-]";
    hide Bytes;
    assert PrintFrom(e, 0) == Print(e.es[0]) + " )";
  }

  // ---------- words beyond ASCII ----------

  /** Code points as characters. */
  function Characters(cps: seq<Utf8.CodePoint>): (s: string)
    requires Utf8.Scalars(cps)
    ensures |s| == |cps|
  {
    seq(|cps|, k requires 0 <= k < |cps| => cps[k] as char)
  }

  /** The bytes of a word stand in the grammar as code points of their own. So a forbidden word that is not
      plain ASCII is not kept out: it begins a text that the grammar, as it is read, accepts. */
  lemma BeyondAsciiSlipsThrough(word: seq<Utf8.CodePoint>) returns (s: string)
    requires Utf8.Scalars(word) && exists k :: 0 <= k < |word| && word[k] > 0x7F
    ensures Characters(word) <= s && Accepts(MakeExcluding([Utf8.Encode(word)]), s)
  {
    hide Accepts, MakeExcluding;
    var w := Utf8.Encode(word);
    LongerThanCharacters(word);
    var bs := Completable(w, Characters(word));
    s := Concat(bs);
    assert Factors([w], s);
    ExcludingLanguage([w], s);
  }

  lemma {:induction false} LongerThanCharacters(cps: seq<Utf8.CodePoint>)
    ensures |Utf8.Encode(cps)| >= |cps|
    ensures (exists k :: 0 <= k < |cps| && cps[k] > 0x7F) ==> |Utf8.Encode(cps)| > |cps|
    decreases |cps|
  {
    if cps != [] {
      LongerThanCharacters(cps[1..]);
      assert forall k :: 0 < k < |cps| ==> cps[k] == cps[1..][k - 1];
    }
  }
}
