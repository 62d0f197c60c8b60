/** LoraTorchTensor: a tuple index with an ellipsis inside it. The code gives the ellipsis as many full
    slices as there are other entries; torch gives it the dimensions that the others leave over. */
module LoraEllipsis {
  import opened Text
  import opened Tensors
  import opened Lora

  function Items(subs: seq<Sub>): (r: seq<Item>)
    ensures |r| == |subs|
  {
    seq(|subs|, d requires 0 <= d < |subs| => Of(subs[d]))
  }

  lemma {:induction false} ExpandItems(subs: seq<Sub>, rest: seq<Item>, width: nat)
    ensures Expand(Items(subs) + rest, width) == subs + Expand(rest, width)
    decreases |subs|
  {
    var items := Items(subs) + rest;
    if subs == [] {
      assert items == rest && subs + Expand(rest, width) == Expand(rest, width);
    } else {
      assert items[1..] == Items(subs[1..]) + rest && items[0] == Of(subs[0]);
      ExpandItems(subs[1..], rest, width);
      assert [subs[0]] + (subs[1..] + Expand(rest, width)) == subs + Expand(rest, width);
    }
  }

  /** A tuple of entries with no ellipsis is read as it stands; one that ends with an ellipsis, without it. */
  lemma PlainTuple(l: Lora, subs: seq<Sub>)
    requires Valid(l) && subs != []
    ensures GetTuple(l, Items(subs)) == GetSubs(l, Padded(subs, Dims(l)))
    ensures GetTuple(l, Items(subs) + [Ellipsis]) == GetTuple(l, Items(subs))
  {
    var items := Items(subs) + [Ellipsis];
    assert Items(subs)[|subs| - 1] == Of(subs[|subs| - 1]);
    hide Items, Fulls, GetSubs;
    ExpandItems(subs, [], |subs| - 1);
    assert Items(subs) + [] == Items(subs) && subs + [] == subs;
    assert items[..|items| - 1] == Items(subs);
  }

  lemma EllipsisExpands(before: seq<Sub>, after: seq<Sub>, k: nat)
    ensures Expand(Items(before) + [Ellipsis] + Items(after), k) == before + (Fulls(k) + after)
  {
    hide Items, Fulls;
    var tail := [Ellipsis] + Items(after);
    assert Items(before) + [Ellipsis] + Items(after) == Items(before) + tail;
    ExpandItems(before, tail, k);
    assert tail[1..] == Items(after) + [];
    ExpandItems(after, [], k);
    assert after + [] == after;
  }

  // ---------- the two readings ----------

  function Around(before: seq<Sub>, after: seq<Sub>): (items: seq<Item>)
    ensures |items| == |before| + |after| + 1
  {
    Items(before) + [Ellipsis] + Items(after)
  }

  /** What the code makes of the tuple. */
  function CodeReads(before: seq<Sub>, after: seq<Sub>, n: nat): seq<Sub> {
    Padded(before + (Fulls(|before| + |after|) + after), n)
  }

  /** What torch makes of it. */
  function TorchReads(before: seq<Sub>, after: seq<Sub>, n: nat): (subs: seq<Sub>)
    requires |before| + |after| <= n
    ensures |subs| == n
  {
    before + Fulls(n - |before| - |after|) + after
  }

  lemma TupleIsRead(l: Lora, items: seq<Item>, k: nat, code: seq<Sub>)
    requires Valid(l) && |items| == k + 1 && items[k].Of?
    requires code == Padded(Expand(items, k), Dims(l)) && |code| >= 2
    ensures GetTuple(l, items) == GetSubs(l, code)
  {
    hide Expand, Padded, GetSubs;
  }

  lemma ReadingsOf(before: seq<Sub>, after: seq<Sub>, n: nat)
    requires after != []
    ensures var k := |before| + |after|;
      && |CodeReads(before, after, n)| == (if n < 2 * k then 2 * k else n)
      && (n == 2 * k ==> CodeReads(before, after, n) == TorchReads(before, after, n))
      && (n > 2 * k ==> CodeReads(before, after, n)[n - 1].Slice?)
  {
    var k := |before| + |after|;
    assert before + (Fulls(k) + after) == before + Fulls(k) + after;
  }

  lemma AroundIs(before: seq<Sub>, after: seq<Sub>)
    requires after != []
    ensures var items := Around(before, after);
      |items| == |before| + |after| + 1 && items[|before| + |after|].Of?
  {
    var items := Around(before, after);
    assert items[|before| + |after|] == Items(after)[|after| - 1] == Of(after[|after| - 1]);
  }

  lemma CodeReadsIs(l: Lora, before: seq<Sub>, after: seq<Sub>)
    requires Valid(l)
    ensures var code := CodeReads(before, after, Dims(l));
      code == Padded(Expand(Around(before, after), |before| + |after|), Dims(l)) && |code| >= 2
  {
    hide Expand, Items, Fulls;
    EllipsisExpands(before, after, |before| + |after|);
  }

  lemma AroundIsRead(l: Lora, before: seq<Sub>, after: seq<Sub>)
    requires Valid(l) && after != []
    ensures |CodeReads(before, after, Dims(l))| >= 2
    ensures GetTuple(l, Around(before, after)) == GetSubs(l, CodeReads(before, after, Dims(l)))
  {
    hide *;
    AroundIs(before, after);
    CodeReadsIs(l, before, after);
    TupleIsRead(l, Around(before, after), |before| + |after|, CodeReads(before, after, Dims(l)));
  }

  /** Two selections from one shape that give the same shape and, unless every element is an empty sum,
      the same elements. */
  ghost predicate SameSelection(a: seq<Sel>, b: seq<Sel>, rank: nat) {
    && KeptShape(a) == KeptShape(b)
    && (rank > 0 ==> forall i :: InShape(KeptShape(a), i) ==> Source(a, i) == Source(b, i))
  }

  ghost predicate Right(l: Lora, before: seq<Sub>, after: seq<Sub>)
    requires Valid(l) && |before| + |after| <= Dims(l)
  {
    var g, t := GetTuple(l, Around(before, after)), TorchIndex(Dense(l), TorchReads(before, after, Dims(l)));
    g.Ok? && t.Ok? && StandsFor(g.value, t.value)
  }

  /** A and B have these shapes, and the ones of A broadcast to those of B. */
  predicate Shaped(l: Lora, sa: seq<nat>, sb: seq<nat>) {
    Matched(l) && l.a.shape == sa && l.b.shape == sb
  }

  predicate Leads(subs: seq<Sub>, sa: seq<nat>, shape: seq<nat>)
    requires |sa| == |shape| >= 2 && AllResolve(subs, shape)
  {
    forall d :: 0 <= d < |shape| - 2 ==> WholeOrShared(subs[d], sa[d], shape[d])
  }

  /** When the code reads the tuple rightly: by the shapes and by what the entries resolve to. */
  ghost predicate ReadsRight(sa: seq<nat>, sb: seq<nat>, before: seq<Sub>, after: seq<Sub>)
    requires |sa| == |sb| >= 2 && |before| + |after| <= |sb|
  {
    var n := |sb|;
    var shape, rank := sb[..n - 1] + [sa[n - 1]], sb[n - 1];
    var code, torch := CodeReads(before, after, n), TorchReads(before, after, n);
    && AllResolve(code, shape) && AllResolve(torch, shape)
    && code[n - 1].Slice? && code[n - 2].Slice?
    && Leads(code, sa, shape)
    && SameSelection(Sels(code, shape), Sels(torch, shape), rank)
  }

  // ---------- a product that tells two places apart ----------

  /** Factors whose product is one at one place and zero everywhere else. */
  function Spike(sa: seq<nat>, sb: seq<nat>, x: Index): Lora
    requires |sa| == |sb| >= 2 && |x| == |sb|
  {
    var n := |sb|;
    var row, col := x[..n - 1] + [0], Clamp(sa[..n - 2], x[..n - 2]) + [0, x[n - 1]];
    Lora(Tensor(sa, i => if i == col then 1.0 else 0.0), Tensor(sb, i => if i == row then 1.0 else 0.0))
  }

  lemma SpikeAt(sa: seq<nat>, sb: seq<nat>, x: Index, y: Index)
    requires |sa| == |sb| >= 2 && |x| == |y| == |sb| && sa[|sa| - 2] == sb[|sb| - 1] > 0
    ensures var l := Spike(sa, sb, x); Valid(l) && Dense(l).at(y) == if x == y then 1.0 else 0.0
  {
    var l, n := Spike(sa, sb, x), |sb|;
    var u, c, v, d := x[..n - 1], x[n - 1], y[..n - 1], y[n - 1];
    assert x == u + [c] && y == v + [d] && u[..n - 2] == x[..n - 2] && v[..n - 2] == y[..n - 2];
    var lead := Clamp(sa[..n - 2], y[..n - 2]);
    forall r: nat
      ensures l.b.at(v + [r]) == if v == u && r == 0 then 1.0 else 0.0
    {
      assert (v + [r])[..n - 1] == v && (u + [0])[..n - 1] == u && (v + [r])[n - 1] == r;
    }
    ClampLength(sa[..n - 2], x[..n - 2]);
    ClampLength(sa[..n - 2], y[..n - 2]);
    hide Clamp;
    DotFirst(l, v, lead, d, sb[n - 1]);
    ColumnAt(lead, Clamp(sa[..n - 2], x[..n - 2]), d, c);
  }

  lemma {:induction false} ClampLength(lead: seq<nat>, i: Index)
    requires |lead| == |i|
    ensures |Clamp(lead, i)| == |lead|
  {
    if lead != [] {
      ClampLength(lead[1..], i[1..]);
    }
  }

  lemma ColumnAt(lead: Index, lead': Index, d: nat, c: nat)
    requires |lead| == |lead'|
    ensures lead + [0, d] == lead' + [0, c] <==> lead == lead' && d == c
  {
    assert (lead + [0, d])[..|lead|] == lead && (lead' + [0, c])[..|lead|] == lead';
    assert (lead + [0, d])[|lead| + 1] == d && (lead' + [0, c])[|lead| + 1] == c;
  }

  // ---------- when the readings agree ----------

  lemma SplitFirst(m: nat, shape: seq<nat>, i: Index)
    requires InShape([m] + shape, i)
    ensures i != [] && i[0] < m && InShape(shape, i[1..])
  {
    InShapeSplit([m], shape, i);
    assert i[..1] == [i[0]];
  }

  lemma SelsAreOk(subs: seq<Sub>, shape: seq<nat>)
    requires AllResolve(subs, shape)
    ensures SelsOk(Sels(subs, shape), shape) && |Sels(subs, shape)| == |shape|
  {
  }

  lemma NoRankNoSum(l: Lora, i: Index)
    requires Valid(l) && Rank(l) == 0
    ensures Dense(l).at(i) == 0.0
  {
  }

  lemma SelectAt(t: Tensor, s: seq<Sel>, i: Index)
    ensures Select(t, s).shape == KeptShape(s) && Select(t, s).at(i) == t.at(Source(s, i))
  {
  }

  lemma SelectSame(l: Lora, a: seq<Sel>, b: seq<Sel>)
    requires Valid(l) && SameSelection(a, b, Rank(l))
    ensures Same(Select(Dense(l), a), Select(Dense(l), b))
  {
    var t, u := Select(Dense(l), a), Select(Dense(l), b);
    hide Dense, Source, KeptShape, Select, Rank;
    SelectAt(Dense(l), a, []);
    SelectAt(Dense(l), b, []);
    forall i | InShape(t.shape, i)
      ensures t.at(i) == u.at(i)
    {
      SelectAt(Dense(l), a, i);
      SelectAt(Dense(l), b, i);
      if Rank(l) == 0 {
        NoRankNoSum(l, Source(a, i));
        NoRankNoSum(l, Source(b, i));
      }
    }
  }

  lemma StandsForSame(l: Lora, t: Tensor, u: Tensor)
    requires StandsFor(l, t)
    ensures StandsFor(l, u) <==> Same(t, u)
  {
    hide Dense, Matched;
  }

  lemma ShapeOf(l: Lora, sa: seq<nat>, sb: seq<nat>)
    requires Shaped(l, sa, sb)
    ensures Valid(l) && Dims(l) == |sa| == |sb| >= 2 && Rank(l) == sb[|sb| - 1]
    ensures Shape(l) == sb[..|sb| - 1] + [sa[|sb| - 1]]
  {
  }

  lemma LeadsAre(l: Lora, subs: seq<Sub>)
    requires Valid(l) && AllResolve(subs, Shape(l))
    ensures |l.a.shape| == |Shape(l)| >= 2
    ensures Leads(subs, l.a.shape, Shape(l)) <==>
            forall d :: 0 <= d < Dims(l) - 2 ==> WholeOrShared(subs[d], l.a.shape[d], Shape(l)[d])
  {
  }

  /** Whenever the entries are read rightly, what comes of the tuple stands for what torch gives. */
  lemma RightIf(l: Lora, before: seq<Sub>, after: seq<Sub>)
    requires Matched(l) && after != [] && |before| + |after| <= Dims(l)
    requires ReadsRight(l.a.shape, l.b.shape, before, after)
    ensures Right(l, before, after)
  {
    hide *;
    MatchedIsValid(l);
    RightIs(l, before, after);
    ReadsRightIs(l, before, after);
    var n := Dims(l);
    var code, torch := CodeReads(before, after, n), TorchReads(before, after, n);
    AroundIsRead(l, before, after);
    TupleMatches(l, code);
    TorchIndexAll(Dense(l), torch);
    SelectSame(l, Sels(code, Shape(l)), Sels(torch, Shape(l)));
    StandsForSame(GetSubs(l, code).value, Select(Dense(l), Sels(code, Shape(l))),
                  Select(Dense(l), Sels(torch, Shape(l))));
  }

  lemma RightIs(l: Lora, before: seq<Sub>, after: seq<Sub>)
    requires Valid(l) && |before| + |after| <= Dims(l)
    ensures Right(l, before, after) <==>
            var g, t := GetTuple(l, Around(before, after)), TorchIndex(Dense(l), TorchReads(before, after, Dims(l)));
            g.Ok? && t.Ok? && StandsFor(g.value, t.value)
    ensures |Dense(l).shape| == Dims(l) && Dense(l).shape == Shape(l)
  {
    hide GetTuple, TorchIndex, StandsFor, Around, TorchReads;
    DenseShape(l);
  }

  lemma ReadsRightIs(l: Lora, before: seq<Sub>, after: seq<Sub>)
    requires Matched(l) && |before| + |after| <= Dims(l)
    ensures Dims(l) == |l.a.shape| == |l.b.shape| >= 2
    ensures ReadsRight(l.a.shape, l.b.shape, before, after) ==>
              var n, shape := Dims(l), Shape(l);
              var code, torch := CodeReads(before, after, n), TorchReads(before, after, n);
              && AllResolve(code, shape) && AllResolve(torch, shape) && |code| == n
              && code[n - 1].Slice? && code[n - 2].Slice?
              && (forall d :: 0 <= d < n - 2 ==> WholeOrShared(code[d], l.a.shape[d], shape[d]))
              && SameSelection(Sels(code, shape), Sels(torch, shape), Rank(l))
  {
    ShapeOf(l, l.a.shape, l.b.shape);
    hide Matched, CodeReads, TorchReads, SameSelection, Sels, Resolve, WholeOrShared;
  }

  /** An integer for the row and a slice for the column leave factors of different dimensions. */
  lemma RowIntRaises(l: Lora, subs: seq<Sub>)
    requires Matched(l) && |subs| == Dims(l) && subs[Dims(l) - 1].Slice? && subs[Dims(l) - 2].Int?
    ensures GetSubs(l, subs).Raises?
  {
    if GetSubs(l, subs).Ok? {
      hide *;
      MatchedIsValid(l);
      GetSubsIs(l, subs);
      FactorsResolve(l, subs);
      TupleTracks(l, subs);
      PickedSels(l, subs);
      var n := Dims(l);
      var a, b := Sels(IndexForA(l, subs), l.a.shape), Sels(subs[..n - 1] + [FULL], l.b.shape);
      RowDropped(a[..n - 2], b[..n - 2], a[n - 2], b[n - 1], b[n - 2], a[n - 1]);
      MakeShapes(l, a, b);
    }
  }

  lemma RowDropped(sa: seq<Sel>, sb: seq<Sel>, x: Sel, y: Sel, rows: Sel, cols: Sel)
    requires AllPaired(sa, sb) && x.Keep? && y.Keep? && rows.Drop? && cols.Keep?
    ensures |KeptShape(sa + [x, cols])| != |KeptShape(sb + [rows, y])|
  {
    hide KeptShape;
    KeptBroadcasts(sa, sb);
    KeptLength(sa, x, cols);
    KeptLength(sb, rows, y);
  }

  lemma MakeShapes(l: Lora, a: seq<Sel>, b: seq<Sel>)
    ensures Make(Select(l.a, a), Select(l.b, b)).Ok? ==> |KeptShape(a)| == |KeptShape(b)|
  {
  }

  /** What a right result says about the entries. */
  lemma RightMeans(l: Lora, before: seq<Sub>, after: seq<Sub>)
    requires Matched(l) && after != [] && |before| + |after| <= Dims(l) && Right(l, before, after)
    ensures var n, shape := Dims(l), Shape(l);
      var code, torch := CodeReads(before, after, n), TorchReads(before, after, n);
      && AllResolve(code, shape) && AllResolve(torch, shape)
      && code[n - 1].Slice? && code[n - 2].Slice?
      && Leads(code, l.a.shape, shape)
      && Same(Select(Dense(l), Sels(code, shape)), Select(Dense(l), Sels(torch, shape)))
  {
    hide *;
    MatchedIsValid(l);
    RightIs(l, before, after);
    var n, shape := Dims(l), Shape(l);
    var code, torch := CodeReads(before, after, n), TorchReads(before, after, n);
    AroundIsRead(l, before, after);
    ReadingsOf(before, after, n);
    if |code| > n {
      TooManyEntries(l, code);
    }
    TorchIndexAll(Dense(l), torch);
    if code[n - 1].Int? {
      NoSingleRow(l, code);
    } else if code[n - 2].Int? {
      RowIntRaises(l, code);
    }
    TupleParts(l, code);
    TupleMatches(l, code);
    LeadsAre(l, code);
    StandsForMatched(GetSubs(l, code).value, Select(Dense(l), Sels(torch, shape)));
    StandsForSame(GetSubs(l, code).value, Select(Dense(l), Sels(code, shape)), Select(Dense(l), Sels(torch, shape)));
  }

  lemma SpikeShaped(sa: seq<nat>, sb: seq<nat>, x: Index)
    requires |sa| == |sb| >= 2 && |x| == |sb| && sa[|sa| - 2] == sb[|sb| - 1]
    requires Broadcasts(sa[..|sb| - 2], sb[..|sb| - 2])
    ensures Shaped(Spike(sa, sb, x), sa, sb)
  {
  }

  lemma SameAt(t: Tensor, a: seq<Sel>, b: seq<Sel>, i: Index)
    requires Same(Select(t, a), Select(t, b)) && InShape(KeptShape(a), i)
    ensures t.at(Source(a, i)) == t.at(Source(b, i))
  {
    hide Source, KeptShape;
    SelectAt(t, a, i);
    SelectAt(t, b, i);
  }

  lemma SameShapes(t: Tensor, a: seq<Sel>, b: seq<Sel>)
    requires Same(Select(t, a), Select(t, b))
    ensures KeptShape(a) == KeptShape(b)
  {
  }

  /** The places that both readings take an element from are the same, or some product shows it. */
  lemma SourcesAgree(sa: seq<nat>, sb: seq<nat>, before: seq<Sub>, after: seq<Sub>, i: Index)
    requires |sa| == |sb| >= 2 && sa[|sa| - 2] == sb[|sb| - 1] > 0
    requires Broadcasts(sa[..|sb| - 2], sb[..|sb| - 2]) && after != [] && |before| + |after| <= |sb|
    requires forall l :: Shaped(l, sa, sb) ==> Right(l, before, after)
    requires var n, shape := |sb|, sb[..|sb| - 1] + [sa[|sb| - 1]];
      var code, torch := CodeReads(before, after, n), TorchReads(before, after, n);
      && AllResolve(code, shape) && AllResolve(torch, shape)
      && InShape(KeptShape(Sels(code, shape)), i)
      && KeptShape(Sels(code, shape)) == KeptShape(Sels(torch, shape))
    ensures var n, shape := |sb|, sb[..|sb| - 1] + [sa[|sb| - 1]];
      var code, torch := CodeReads(before, after, n), TorchReads(before, after, n);
      Source(Sels(code, shape), i) == Source(Sels(torch, shape), i)
  {
    var n, shape := |sb|, sb[..|sb| - 1] + [sa[|sb| - 1]];
    hide *;
    var a, b := Sels(CodeReads(before, after, n), shape), Sels(TorchReads(before, after, n), shape);
    var x, y := Source(a, i), Source(b, i);
    SelsAreOk(CodeReads(before, after, n), shape);
    SelsAreOk(TorchReads(before, after, n), shape);
    SourceLength(a, i);
    SourceLength(b, i);
    var l := Spike(sa, sb, x);
    SpikeShaped(sa, sb, x);
    ShapeOf(l, sa, sb);
    ShapedIs(l, sa, sb);
    RightMeans(l, before, after);
    SameAt(Dense(l), a, b, i);
    SpikeAt(sa, sb, x, x);
    SpikeAt(sa, sb, x, y);
  }

  lemma ShapedIs(l: Lora, sa: seq<nat>, sb: seq<nat>)
    ensures Shaped(l, sa, sb) ==> Matched(l) && l.a.shape == sa && l.b.shape == sb
  {
  }

  lemma OnlyIfRight(sa: seq<nat>, sb: seq<nat>, before: seq<Sub>, after: seq<Sub>)
    requires |sa| == |sb| >= 2 && sa[|sa| - 2] == sb[|sb| - 1]
    requires Broadcasts(sa[..|sb| - 2], sb[..|sb| - 2]) && after != [] && |before| + |after| <= |sb|
    requires forall l :: Shaped(l, sa, sb) ==> Right(l, before, after)
    ensures ReadsRight(sa, sb, before, after)
  {
    var n, shape := |sb|, sb[..|sb| - 1] + [sa[|sb| - 1]];
    var code, torch := CodeReads(before, after, n), TorchReads(before, after, n);
    var x: Index := seq(n, _ => 0);
    hide *;
    var l := Spike(sa, sb, x);
    SpikeShaped(sa, sb, x);
    ShapeOf(l, sa, sb);
    ShapedIs(l, sa, sb);
    RightMeans(l, before, after);
    SameShapes(Dense(l), Sels(code, shape), Sels(torch, shape));
    if sb[n - 1] > 0 {
      forall i | InShape(KeptShape(Sels(code, shape)), i)
        ensures Source(Sels(code, shape), i) == Source(Sels(torch, shape), i)
      {
        SourcesAgree(sa, sb, before, after, i);
      }
    }
    SelectionIs(Sels(code, shape), Sels(torch, shape), sb[n - 1]);
    ReadsRightFrom(sa, sb, before, after);
  }

  lemma SelectionIs(a: seq<Sel>, b: seq<Sel>, rank: nat)
    requires KeptShape(a) == KeptShape(b)
    requires rank > 0 ==> forall i :: InShape(KeptShape(a), i) ==> Source(a, i) == Source(b, i)
    ensures SameSelection(a, b, rank)
  {
  }

  lemma ReadsRightFrom(sa: seq<nat>, sb: seq<nat>, before: seq<Sub>, after: seq<Sub>)
    requires |sa| == |sb| >= 2 && |before| + |after| <= |sb|
    requires var n, shape := |sb|, sb[..|sb| - 1] + [sa[|sb| - 1]];
      var code, torch := CodeReads(before, after, n), TorchReads(before, after, n);
      && AllResolve(code, shape) && AllResolve(torch, shape)
      && code[n - 1].Slice? && code[n - 2].Slice?
      && Leads(code, sa, shape)
      && SameSelection(Sels(code, shape), Sels(torch, shape), sb[n - 1])
    ensures ReadsRight(sa, sb, before, after)
  {
    hide CodeReads, TorchReads, AllResolve, Leads, SameSelection, Sels;
  }

  /** For factors of given shapes, a tuple with an ellipsis inside it gives what torch gives for the
      product, whatever the elements, if and only if the code's own reading of the entries is in range,
      slices rows and columns, leaves no leading dimension of A behind, and selects the same places. */
  lemma EllipsisIsRight(sa: seq<nat>, sb: seq<nat>, before: seq<Sub>, after: seq<Sub>)
    requires |sa| == |sb| >= 2 && sa[|sa| - 2] == sb[|sb| - 1]
    requires Broadcasts(sa[..|sb| - 2], sb[..|sb| - 2])
    requires after != [] && |before| + |after| <= |sb|
    ensures (forall l :: Shaped(l, sa, sb) ==> Right(l, before, after)) <==> ReadsRight(sa, sb, before, after)
  {
    if ReadsRight(sa, sb, before, after) {
      forall l | Shaped(l, sa, sb)
        ensures Right(l, before, after)
      {
        RightIf(l, before, after);
      }
    } else if forall l :: Shaped(l, sa, sb) ==> Right(l, before, after) {
      OnlyIfRight(sa, sb, before, after);
    }
  }

  /** With fewer dimensions than twice the other entries the code raises; torch does so only when an entry
      is out of range. */
  lemma EllipsisTooWide(l: Lora, before: seq<Sub>, after: seq<Sub>)
    requires Valid(l) && after != [] && |before| + |after| <= Dims(l) < 2 * (|before| + |after|)
    ensures GetTuple(l, Around(before, after)).Raises?
    ensures var torch := TorchReads(before, after, Dims(l));
      TorchIndex(Dense(l), torch).Ok? <==> AllResolve(torch, Shape(l))
  {
    DenseShape(l);
    AroundIsRead(l, before, after);
    TorchIndexAll(Dense(l), TorchReads(before, after, Dims(l)));
    TooManyEntries(l, CodeReads(before, after, Dims(l)));
  }

  // ---------- slices only ----------

  predicate AllKeep(s: seq<Sel>) {
    forall d :: 0 <= d < |s| ==> s[d].Keep?
  }

  lemma {:induction false} KeepSource(s: seq<Sel>, i: Index)
    requires AllKeep(s)
    ensures |KeptShape(s)| == |s| && forall d :: 0 <= d < |s| ==> KeptShape(s)[d] == |s[d].list|
    ensures InShape(KeptShape(s), i) ==>
              |Source(s, i)| == |s| == |i|
              && forall d :: 0 <= d < |s| ==> i[d] < |s[d].list| && Source(s, i)[d] == s[d].list[i[d]]
    decreases |s|
  {
    if s != [] {
      var rest, x := s[1..], s[0];
      assert s == [x] + rest && AllKeep(rest);
      hide KeptShape, Source, InShape;
      KeptCons(x, rest);
      KeepSource(rest, if i == [] then [] else i[1..]);
      SourceCons(x, rest, i);
      if InShape(KeptShape(s), i) {
        SplitFirst(|x.list|, KeptShape(rest), i);
      }
    }
  }

  /** Two lists of slices select the same when the result is empty, and else only when they are read the
      same in every dimension. */
  lemma SlicesAgree(a: seq<Sel>, b: seq<Sel>, rank: nat)
    requires |a| == |b| && AllKeep(a) && AllKeep(b) && rank > 0
    ensures SameSelection(a, b, rank) <==> KeptShape(a) == KeptShape(b) && (0 in KeptShape(a) || a == b)
  {
    hide KeptShape, Source;
    if KeptShape(a) == KeptShape(b) {
      KeepSource(a, []);
      if 0 in KeptShape(a) {
        NothingInside(KeptShape(a));
      } else if SameSelection(a, b, rank) {
        forall d | 0 <= d < |a|
          ensures a[d] == b[d]
        {
          KeepSource(b, []);
          assert |a[d].list| == KeptShape(a)[d] == KeptShape(b)[d] == |b[d].list|;
          forall k | 0 <= k < |a[d].list|
            ensures a[d].list[k] == b[d].list[k]
          {
            var i: Index := seq(|a|, e => if e == d then k else 0);
            assert InShape(KeptShape(a), i);
            KeepSource(a, i);
            KeepSource(b, i);
          }
        }
      }
    }
  }

  // ---------- tuples that are misread ----------

  /** A matrix of two rows and two columns in a stack of one, and its first column as `[..., :1]`: the
      code takes the first row. */
  const STACKED := Lora(Filled([1, 1, 2]), Filled([1, 2, 1]))
  const FIRST := Slice(None, Some(1), None)

  lemma FirstReads()
    ensures CodeReads([], [FIRST], 3) == [FULL, FIRST, FULL] && TorchReads([], [FIRST], 3) == [FULL, FULL, FIRST]
  {
    assert Fulls(1) == [FULL] && Fulls(2) == [FULL, FULL];
    assert [] + (Fulls(1) + [FIRST]) == [FULL, FIRST] && [FULL, FIRST] + Fulls(1) == [FULL, FIRST, FULL];
    assert [] + Fulls(2) + [FIRST] == [FULL, FULL, FIRST];
  }

  lemma FirstSels(n: nat)
    requires n > 0
    ensures Resolve(FIRST, n) == Ok(Keep([0]))
  {
    assert Positions(0, 1, 1) == [0] + Positions(1, 1, 1) == [0];
    assert Bound(FIRST.lo, 0, n) == 0 && Bound(FIRST.hi, n, n) == 1;
  }

  lemma StackedResolves()
    ensures AllResolve([FULL, FIRST, FULL], [1, 2, 2]) && AllResolve([FULL, FULL, FIRST], [1, 2, 2])
    ensures Sels([FULL, FIRST, FULL], [1, 2, 2]) == [All(1), Keep([0]), All(2)]
    ensures Sels([FULL, FULL, FIRST], [1, 2, 2]) == [All(1), All(2), Keep([0])]
  {
    FullIsAll(1);
    FullIsAll(2);
    FirstSels(2);
  }

  lemma StackedKept()
    ensures KeptShape([All(1), Keep([0]), All(2)]) == [1, 1, 2] && KeptShape([All(1), All(2), Keep([0])]) == [1, 2, 1]
  {
    KeptTwo([All(1)], Keep([0]), All(2));
    KeptTwo([All(1)], All(2), Keep([0]));
    assert [All(1)] == [All(1)] + [] && KeptShape([]) == [];
    KeptCons(All(1), []);
    assert [All(1)] + [Keep([0]), All(2)] == [All(1), Keep([0]), All(2)];
    assert [All(1)] + [All(2), Keep([0])] == [All(1), All(2), Keep([0])];
  }

  lemma RightKeeps(l: Lora, before: seq<Sub>, after: seq<Sub>)
    requires Matched(l) && after != [] && |before| + |after| <= Dims(l) && Right(l, before, after)
    requires var n, shape := Dims(l), Shape(l);
      AllResolve(CodeReads(before, after, n), shape) && AllResolve(TorchReads(before, after, n), shape)
    ensures var n, shape := Dims(l), Shape(l);
      KeptShape(Sels(CodeReads(before, after, n), shape)) == KeptShape(Sels(TorchReads(before, after, n), shape))
  {
    hide *;
    MatchedIsValid(l);
    var n, shape := Dims(l), Shape(l);
    RightMeans(l, before, after);
    SameShapes(Dense(l), Sels(CodeReads(before, after, n), shape), Sels(TorchReads(before, after, n), shape));
  }

  lemma ShapesDiffer(l: Lora, before: seq<Sub>, after: seq<Sub>)
    requires Matched(l) && after != [] && |before| + |after| <= Dims(l)
    requires var n, shape := Dims(l), Shape(l);
      var code, torch := CodeReads(before, after, n), TorchReads(before, after, n);
      && AllResolve(code, shape) && AllResolve(torch, shape)
      && KeptShape(Sels(code, shape)) != KeptShape(Sels(torch, shape))
    ensures !Right(l, before, after)
  {
    if Right(l, before, after) {
      RightKeeps(l, before, after);
    }
  }

  lemma EllipsisMisreads()
    ensures Matched(STACKED) && GetTuple(STACKED, Around([], [FIRST])).Ok?
    ensures TorchIndex(Dense(STACKED), TorchReads([], [FIRST], 3)).Ok? && !Right(STACKED, [], [FIRST])
  {
    assert Dims(STACKED) == 3 && Shape(STACKED) == [1, 2, 2] && Matched(STACKED) && FULL.Slice? && FIRST.Slice?;
    hide *;
    RightIs(STACKED, [], [FIRST]);
    FirstReads();
    StackedResolves();
    StackedKept();
    AroundIsRead(STACKED, [], [FIRST]);
    TorchIndexAll(Dense(STACKED), [FULL, FULL, FIRST]);
    TupleParts(STACKED, [FULL, FIRST, FULL]);
    ShapesDiffer(STACKED, [], [FIRST]);
  }

  /** A plain matrix as `[:, ..., :]`, which is the whole of it: the code raises. */
  const PLAIN := Lora(Filled([1, 1]), Filled([1, 1]))

  lemma EllipsisRaises()
    ensures Matched(PLAIN) && GetTuple(PLAIN, Around([FULL], [FULL])).Raises?
    ensures TorchIndex(Dense(PLAIN), TorchReads([FULL], [FULL], 2)).Ok?
  {
    assert Dims(PLAIN) == 2 && Shape(PLAIN) == [1, 1] && Matched(PLAIN);
    assert TorchReads([FULL], [FULL], 2) == [FULL, FULL];
    FullIsAll(1);
    hide GetTuple, TorchIndex, TorchReads, Around;
    EllipsisTooWide(PLAIN, [FULL], [FULL]);
  }
}
