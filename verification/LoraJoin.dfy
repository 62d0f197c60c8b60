/** LoraTorchTensor: stacking and joining products by way of their factors. */
module LoraJoin {
  import opened Tensors
  import opened Lora
  import opened LoraReshape
  import opened LoraPermute

  function As(ls: seq<Lora>): (r: seq<Tensor>)
    ensures |r| == |ls|
  {
    seq(|ls|, k requires 0 <= k < |ls| => ls[k].a)
  }

  function Bs(ls: seq<Lora>): (r: seq<Tensor>)
    ensures |r| == |ls|
  {
    seq(|ls|, k requires 0 <= k < |ls| => ls[k].b)
  }

  predicate AllMatched(ls: seq<Lora>) {
    forall k :: 0 <= k < |ls| ==> Matched(ls[k])
  }

  function Denses(ls: seq<Lora>): (r: seq<Tensor>)
    requires AllMatched(ls)
    ensures |r| == |ls|
  {
    seq(|ls|, k requires 0 <= k < |ls| => Dense(ls[k]))
  }

  predicate SameShapes(ts: seq<Tensor>) {
    ts != [] && forall k :: 0 <= k < |ts| ==> ts[k].shape == ts[0].shape
  }

  /** Tensors that can be laid one after another: only the first dimension may differ. */
  predicate SameTails(ts: seq<Tensor>) {
    && ts != [] && ts[0].shape != []
    && forall k :: 0 <= k < |ts| ==> ts[k].shape != [] && ts[k].shape[1..] == ts[0].shape[1..]
  }

  function TorchStack(ts: seq<Tensor>): Outcome<Tensor> {
    if SameShapes(ts) then Ok(Stack(ts)) else Raises(RuntimeError)
  }

  function TorchCat(ts: seq<Tensor>): Outcome<Tensor> {
    if SameTails(ts) then Ok(Cat(ts)) else Raises(RuntimeError)
  }

  /** torch.stack on pairs: both factors stacked. */
  function StackAll(ls: seq<Lora>, dim: int): Outcome<Lora> {
    if dim != 0 then Raises(AssertionError) else Both(TorchStack(As(ls)), TorchStack(Bs(ls)))
  }

  /** torch.cat on pairs: for stacks of matrices both factors joined; for plain matrices only B, and
      only when every A is the same. */
  ghost function CatAll(ls: seq<Lora>, dim: int): Outcome<Lora>
    requires AllMatched(ls)
  {
    if dim != 0 then Raises(AssertionError)
    else if ls == [] then Raises(IndexError)
    else if Dims(ls[0]) > 2 then Both(TorchCat(As(ls)), TorchCat(Bs(ls)))
    else if forall k :: 0 <= k < |ls| ==> Same(ls[0].a, ls[k].a) then Both(Ok(ls[0].a), TorchCat(Bs(ls)))
    else Raises(NotImplementedError)
  }

  // ---------- stacking ----------

  lemma StackShape(ls: seq<Lora>)
    requires AllMatched(ls) && SameShapes(As(ls)) && SameShapes(Bs(ls))
    ensures SameShapes(Denses(ls))
    ensures var r := Lora(Stack(As(ls)), Stack(Bs(ls)));
      && Valid(r) && Matched(r) && Dims(r) == Dims(ls[0]) + 1 && Rank(r) == Rank(ls[0])
      && Shape(r) == Stack(Denses(ls)).shape
      && r.a.shape[..Dims(r) - 2] == [|ls|] + ls[0].a.shape[..Dims(r) - 3]
  {
    forall k | 0 <= k < |ls|
      ensures Denses(ls)[k].shape == Denses(ls)[0].shape
    {
      assert As(ls)[k] == ls[k].a && Bs(ls)[k] == ls[k].b;
      assert As(ls)[0] == ls[0].a && Bs(ls)[0] == ls[0].b;
      DenseShape(ls[k]);
      DenseShape(ls[0]);
    }
    var l := ls[0];
    var r, n := Lora(Stack(As(ls)), Stack(Bs(ls))), Dims(ls[0]);
    assert r.a.shape == [|ls|] + l.a.shape && r.b.shape == [|ls|] + l.b.shape;
    assert r.a.shape[..n - 1] == [|ls|] + l.a.shape[..n - 2];
    assert r.b.shape[..n - 1] == [|ls|] + l.b.shape[..n - 2];
    BroadcastsCons(|ls|, l.a.shape[..n - 2], |ls|, l.b.shape[..n - 2]);
    assert Shape(r) == [|ls|] + Shape(l);
  }

  /** The element of a stack at `s` is the element of its tensor number `s`. */
  lemma StackAt(ts: seq<Tensor>, s: nat, i: Index)
    requires s < |ts|
    ensures Stack(ts).at([s] + i) == ts[s].at(i)
  {
    assert ([s] + i)[1..] == i;
  }

  lemma StackElement(ls: seq<Lora>, s: nat, u: Index, c: nat)
    requires AllMatched(ls) && SameShapes(As(ls)) && SameShapes(Bs(ls)) && s < |ls| && |u| == Dims(ls[0]) - 1
    requires Valid(Lora(Stack(As(ls)), Stack(Bs(ls))))
    ensures Dense(Lora(Stack(As(ls)), Stack(Bs(ls)))).at([s] + u + [c]) == Stack(Denses(ls)).at([s] + u + [c])
  {
    hide *;
    Member(ls, s);
    Member(ls, 0);
    var r, l, n := Lora(Stack(As(ls)), Stack(Bs(ls))), ls[s], Dims(ls[0]);
    StackShape(ls);
    SameShape(As(ls), s);
    SameShape(Bs(ls), s);
    MemberAlike(ls[0], l);
    var lead := l.a.shape[..n - 2];
    Uncons(s, u, c);
    DenseAtRow(l, u, c);
    DenseAtRow(r, [s] + u, c);
    StackAt(Denses(ls), s, u + [c]);
    ClampCons(|ls|, lead, s, u[..n - 2]);
    ClampOwn(|ls|, s);
    StackDots(ls, s, u, Clamp(lead, u[..n - 2]), c);
  }

  lemma Uncons(s: nat, u: Index, c: nat)
    requires u != []
    ensures ([s] + u)[..|u|] == [s] + u[..|u| - 1] && [s] + u + [c] == [s] + (u + [c])
  {
  }

  lemma Member(ls: seq<Lora>, s: nat)
    requires AllMatched(ls) && s < |ls|
    ensures Valid(ls[s]) && Matched(ls[s]) && Dims(ls[s]) == |ls[s].a.shape| >= 2
    ensures As(ls)[s] == ls[s].a && Bs(ls)[s] == ls[s].b && Denses(ls)[s] == Dense(ls[s])
  {
  }

  lemma SameShape(ts: seq<Tensor>, s: nat)
    requires SameShapes(ts) && s < |ts|
    ensures ts[s].shape == ts[0].shape
  {
  }

  lemma MemberAlike(l: Lora, m: Lora)
    requires Valid(l) && Valid(m) && l.a.shape == m.a.shape && l.b.shape == m.b.shape
    ensures Dims(l) == Dims(m) && Rank(l) == Rank(m) && RowSize(l) == RowSize(m)
  {
  }

  lemma StackDots(ls: seq<Lora>, s: nat, u: Index, at: Index, c: nat)
    requires s < |ls| && Valid(ls[s])
    ensures Dot(Lora(Stack(As(ls)), Stack(Bs(ls))), [s] + u, [s] + at, c, Rank(ls[s])) ==
            Dot(ls[s], u, at, c, Rank(ls[s]))
  {
    var r, l := Lora(Stack(As(ls)), Stack(Bs(ls))), ls[s];
    assert As(ls)[s] == l.a && Bs(ls)[s] == l.b;
    hide *;
    forall k: nat | k < Rank(l)
      ensures r.b.at(([s] + u) + [k]) == l.b.at(u + [k])
      ensures r.a.at(([s] + at) + [k, c]) == l.a.at(at + [k, c])
    {
      StackAt(Bs(ls), s, u + [k]);
      assert ([s] + u) + [k] == [s] + (u + [k]);
      StackAt(As(ls), s, at + [k, c]);
      assert ([s] + at) + [k, c] == [s] + (at + [k, c]);
    }
    DotSame(r, [s] + u, [s] + at, c, l, u, at, c, Rank(l));
  }

  lemma ClampOwn(n: nat, s: nat)
    requires s < n
    ensures Clamp1(n, s) == s
  {
  }

  /** Stacking the factors stacks the products. */
  lemma StackIsRight(ls: seq<Lora>, dim: int)
    requires AllMatched(ls) && StackAll(ls, dim).Ok?
    ensures TorchStack(Denses(ls)).Ok?
    ensures StandsFor(StackAll(ls, dim).value, TorchStack(Denses(ls)).value)
  {
    var r, t, n := Lora(Stack(As(ls)), Stack(Bs(ls))), Stack(Denses(ls)), Dims(ls[0]);
    assert SameShapes(As(ls)) && SameShapes(Bs(ls));
    StackShape(ls);
    assert StackAll(ls, dim).value == r && TorchStack(Denses(ls)) == Ok(t);
    hide *;
    StackSame(ls);
    Stands(r, t);
  }

  lemma StackSame(ls: seq<Lora>)
    requires AllMatched(ls) && SameShapes(As(ls)) && SameShapes(Bs(ls))
    ensures var r := Lora(Stack(As(ls)), Stack(Bs(ls)));
      && Valid(r) && Matched(r) && Dense(r).shape == Stack(Denses(ls)).shape
      && forall i :: InShape(Dense(r).shape, i) ==> Dense(r).at(i) == Stack(Denses(ls)).at(i)
  {
    var r, t, n := Lora(Stack(As(ls)), Stack(Bs(ls))), Stack(Denses(ls)), Dims(ls[0]);
    assert t.shape[0] == |ls|;
    hide *;
    Member(ls, 0);
    StackShape(ls);
    DenseShape(r);
    forall i | InShape(Dense(r).shape, i)
      ensures Dense(r).at(i) == t.at(i)
    {
      ShapeLength(Dense(r).shape, i);
      FirstInside(Dense(r).shape, i);
      StackElement(ls, i[0], i[1..n], i[n]);
      Framed(i);
    }
  }

  lemma Framed(i: Index)
    requires |i| >= 2
    ensures i == [i[0]] + i[1..|i| - 1] + [i[|i| - 1]]
  {
  }

  lemma FirstInside(shape: seq<nat>, i: Index)
    requires InShape(shape, i) && shape != []
    ensures i[0] < shape[0]
  {
  }

  // ---------- joining ----------

  lemma {:induction false} HeightsOne(ha: seq<nat>, hb: seq<nat>)
    requires |ha| == |hb| && forall k :: 0 <= k < |ha| ==> hb[k] > 0 && (ha[k] == 1 || ha[k] == hb[k])
    ensures |ha| <= Total(ha) <= Total(hb)
    ensures Total(ha) == Total(hb) <==> ha == hb
  {
    if ha != [] {
      HeightsOne(ha[1..], hb[1..]);
      assert ha == [ha[0]] + ha[1..] && hb == [hb[0]] + hb[1..];
    }
  }

  /** The A's join to a single one, or are as many as the B's everywhere. */
  predicate Fit(ha: seq<nat>, hb: seq<nat>) {
    Total(ha) == 1 || ha == hb
  }

  /** A single row in all is found where it is. */
  lemma {:induction false} OnlyRow(ha: seq<nat>, k: nat)
    requires k < |ha| && ha[k] > 0 && Total(ha) == 1
    ensures ha[k] == 1 && Pick(ha, 0) == (k, 0)
  {
    if k > 0 {
      TotalAtLeast(ha[1..], k - 1);
      OnlyRow(ha[1..], k - 1);
    }
  }

  lemma {:induction false} TotalAtLeast(ha: seq<nat>, k: nat)
    requires k < |ha|
    ensures ha[k] <= Total(ha)
  {
    if k > 0 {
      TotalAtLeast(ha[1..], k - 1);
    }
  }

  /** Row `r` is found in the same tensor among the A's as among the B's. */
  lemma PicksAgree(ha: seq<nat>, hb: seq<nat>, r: nat)
    requires |ha| == |hb| && (forall k :: 0 <= k < |ha| ==> ha[k] == 1 || ha[k] == hb[k])
    requires Fit(ha, hb) && r < Total(hb)
    ensures Clamp1(Total(ha), r) < Total(ha)
    ensures var p, q := Pick(hb, r), Pick(ha, Clamp1(Total(ha), r));
      q.0 == p.0 && q.1 == Clamp1(ha[p.0], p.1)
  {
    hide Pick, Total;
    if Total(ha) == 1 {
      OnlyRow(ha, Pick(hb, r).0);
    } else {
      var p := Pick(hb, r);
      TotalAtLeast(ha, p.0);
    }
  }

  lemma CatAt(ts: seq<Tensor>, r: nat, i: Index)
    requires SameTails(ts) && r < Total(Heights(ts))
    ensures var p := Pick(Heights(ts), r); Cat(ts).at([r] + i) == ts[p.0].at([p.1] + i)
  {
    assert ([r] + i)[1..] == i;
  }

  lemma TailsOf(ts: seq<Tensor>, k: nat)
    requires SameTails(ts) && k < |ts|
    ensures ts[k].shape == [Heights(ts)[k]] + ts[0].shape[1..]
      && Cat(ts).shape == [Total(Heights(ts))] + ts[0].shape[1..]
  {
  }

  /** Both factors joined. */
  function Joined(ls: seq<Lora>): Lora
    requires SameTails(As(ls)) && SameTails(Bs(ls))
  {
    Lora(Cat(As(ls)), Cat(Bs(ls)))
  }

  lemma Tails(ls: seq<Lora>, k: nat)
    requires AllMatched(ls) && SameTails(As(ls)) && SameTails(Bs(ls)) && k < |ls|
    ensures Valid(ls[k]) && Valid(ls[0]) && Dims(ls[k]) == Dims(ls[0]) >= 2
    ensures Rank(ls[k]) == Rank(ls[0])
    ensures ls[k].a.shape == [Heights(As(ls))[k]] + ls[0].a.shape[1..]
    ensures ls[k].b.shape == [Heights(Bs(ls))[k]] + ls[0].b.shape[1..]
  {
    assert As(ls)[k] == ls[k].a && Bs(ls)[k] == ls[k].b && As(ls)[0] == ls[0].a && Bs(ls)[0] == ls[0].b;
    TailsOf(As(ls), k);
    TailsOf(Bs(ls), k);
  }

  lemma DensesTails(ls: seq<Lora>)
    requires AllMatched(ls) && SameTails(As(ls)) && SameTails(Bs(ls)) && Dims(ls[0]) > 2
    ensures SameTails(Denses(ls)) && Heights(Denses(ls)) == Heights(Bs(ls))
    ensures Cat(Denses(ls)).shape == [Total(Heights(Bs(ls)))] + Shape(ls[0])[1..]
  {
    var n := Dims(ls[0]);
    forall k | 0 <= k < |ls|
      ensures Denses(ls)[k].shape == [Heights(Bs(ls))[k]] + Shape(ls[0])[1..]
    {
      hide *;
      Tails(ls, k);
      Member(ls, k);
      DenseShape(ls[k]);
      ShapeOf(ls[k], ls[0], Heights(As(ls))[k], Heights(Bs(ls))[k]);
    }
    assert ls != [];
    hide As, Bs, Denses, Dense, Shape, AllMatched, Valid;
    TailsFrom(Denses(ls), Heights(Bs(ls)), Shape(ls[0])[1..]);
  }

  lemma TailsFrom(ts: seq<Tensor>, hs: seq<nat>, tail: seq<nat>)
    requires |ts| == |hs| > 0 && forall k :: 0 <= k < |ts| ==> ts[k].shape == [hs[k]] + tail
    ensures SameTails(ts) && Heights(ts) == hs && Cat(ts).shape == [Total(hs)] + tail
  {
    forall k | 0 <= k < |ts|
      ensures ts[k].shape[1..] == tail && ts[k].shape[0] == hs[k]
    {
    }
    assert Heights(ts) == hs;
  }

  lemma ShapeOf(l: Lora, m: Lora, ha: nat, hb: nat)
    requires Valid(l) && Valid(m) && Dims(l) == Dims(m) > 2
    requires l.a.shape == [ha] + m.a.shape[1..] && l.b.shape == [hb] + m.b.shape[1..]
    ensures Shape(l) == [hb] + Shape(m)[1..]
  {
    var n := Dims(l);
    assert l.b.shape[..n - 1] == [hb] + m.b.shape[1..n - 1];
    assert Shape(m)[1..] == m.b.shape[1..n - 1] + [RowSize(m)];
  }

  lemma JoinedShape(ls: seq<Lora>)
    requires AllMatched(ls) && SameTails(As(ls)) && SameTails(Bs(ls)) && Dims(ls[0]) > 2
    ensures var r, n, ha, hb := Joined(ls), Dims(ls[0]), Heights(As(ls)), Heights(Bs(ls));
      && Valid(r) && Dims(r) == n && Rank(r) == Rank(ls[0])
      && Shape(r) == [Total(hb)] + Shape(ls[0])[1..]
      && r.a.shape[..n - 2] == [Total(ha)] + ls[0].a.shape[1..n - 2]
      && (Matched(r) <==> Total(ha) == 1 || Total(ha) == Total(hb))
  {
    var l, r, n := ls[0], Joined(ls), Dims(ls[0]);
    var ha, hb := Heights(As(ls)), Heights(Bs(ls));
    Member(ls, 0);
    TailsOf(As(ls), 0);
    TailsOf(Bs(ls), 0);
    assert r.a.shape == [Total(ha)] + l.a.shape[1..] && r.b.shape == [Total(hb)] + l.b.shape[1..];
    hide Total, Heights, Cat, As, Bs, AllMatched, SameTails;
    JoinedShapeOf(l, r, Total(ha), Total(hb));
  }

  lemma JoinedShapeOf(l: Lora, r: Lora, ta: nat, tb: nat)
    requires Matched(l) && Dims(l) > 2
    requires r.a.shape == [ta] + l.a.shape[1..] && r.b.shape == [tb] + l.b.shape[1..]
    ensures var n := Dims(l);
      && Valid(r) && Dims(r) == n && Rank(r) == Rank(l)
      && Shape(r) == [tb] + Shape(l)[1..]
      && r.a.shape[..n - 2] == [ta] + l.a.shape[1..n - 2]
      && (Matched(r) <==> ta == 1 || ta == tb)
  {
    var n := Dims(l);
    var la, lb := l.a.shape[1..n - 2], l.b.shape[1..n - 2];
    assert r.a.shape[..n - 2] == [ta] + la && r.b.shape[..n - 2] == [tb] + lb;
    assert l.a.shape[..n - 2] == [l.a.shape[0]] + la && l.b.shape[..n - 2] == [l.b.shape[0]] + lb;
    BroadcastsCons(ta, la, tb, lb);
    BroadcastsCons(l.a.shape[0], la, l.b.shape[0], lb);
  }

  predicate Alike(ls: seq<Lora>)
    requires AllMatched(ls)
  {
    forall k :: 0 <= k < |ls| ==> ls[k].a.shape[0] == ls[k].b.shape[0]
  }

  lemma HeightsOf(ls: seq<Lora>)
    requires AllMatched(ls) && SameTails(As(ls)) && SameTails(Bs(ls)) && Dims(ls[0]) > 2
    ensures Heights(As(ls)) == Heights(Bs(ls)) <==> Alike(ls)
    ensures |Heights(As(ls))| == |Heights(Bs(ls))| == |ls|
    ensures forall k :: 0 <= k < |ls| ==>
              Heights(As(ls))[k] == 1 || Heights(As(ls))[k] == Heights(Bs(ls))[k]
  {
    var ha, hb := Heights(As(ls)), Heights(Bs(ls));
    forall k | 0 <= k < |ls|
      ensures ha[k] == ls[k].a.shape[0] && hb[k] == ls[k].b.shape[0] && (ha[k] == 1 || ha[k] == hb[k])
    {
      Tails(ls, k);
      assert Matched(ls[k]);
      assert ls[k].a.shape[..Dims(ls[k]) - 2][0] == ls[k].a.shape[0];
    }
  }

  lemma JoinedDots(ls: seq<Lora>, i0: nat, u: Index, at: Index, c: nat)
    requires AllMatched(ls) && SameTails(As(ls)) && SameTails(Bs(ls)) && Dims(ls[0]) > 2
    requires i0 < Total(Heights(Bs(ls))) && Fit(Heights(As(ls)), Heights(Bs(ls)))
    ensures Clamp1(Total(Heights(As(ls))), i0) < Total(Heights(As(ls)))
    ensures var ha, hb := Heights(As(ls)), Heights(Bs(ls));
      var p := Pick(hb, i0);
      var l := ls[p.0];
      Dot(Joined(ls), [i0] + u, [Clamp1(Total(ha), i0)] + at, c, Rank(ls[0])) ==
      Dot(l, [p.1] + u, [Clamp1(ha[p.0], p.1)] + at, c, Rank(ls[0]))
  {
    assert ls != [];
    hide *;
    Member(ls, 0);
    HeightsOf(ls);
    var r, ha, hb := Joined(ls), Heights(As(ls)), Heights(Bs(ls));
    PicksAgree(ha, hb, i0);
    var p, c0 := Pick(hb, i0), Clamp1(Total(ha), i0);
    var l, d0 := ls[p.0], Clamp1(ha[p.0], p.1);
    Member(ls, p.0);
    JoinedParts(ls);
    forall k: nat | k < Rank(ls[0])
      ensures r.b.at(([i0] + u) + [k]) == l.b.at(([p.1] + u) + [k])
      ensures r.a.at(([c0] + at) + [k, c]) == l.a.at(([d0] + at) + [k, c])
    {
      CatAt(Bs(ls), i0, u + [k]);
      Moved(i0, u, [k]);
      Moved(p.1, u, [k]);
      CatAt(As(ls), c0, at + [k, c]);
      Moved(c0, at, [k, c]);
      Moved(d0, at, [k, c]);
    }
    DotSame(r, [i0] + u, [c0] + at, c, l, [p.1] + u, [d0] + at, c, Rank(ls[0]));
  }

  lemma JoinedParts(ls: seq<Lora>)
    requires SameTails(As(ls)) && SameTails(Bs(ls))
    ensures Joined(ls).a == Cat(As(ls)) && Joined(ls).b == Cat(Bs(ls))
  {
  }

  lemma Moved(s: nat, u: Index, v: Index)
    ensures [s] + u + v == [s] + (u + v)
  {
  }

  lemma JoinedAt(ls: seq<Lora>, i0: nat, u: Index, c: nat)
    requires AllMatched(ls) && SameTails(As(ls)) && SameTails(Bs(ls)) && Dims(ls[0]) > 2
    requires |u| == Dims(ls[0]) - 2 && Valid(Joined(ls))
    ensures var tail, w := ls[0].a.shape[1..Dims(ls[0]) - 2], u[..|u| - 1];
      Dense(Joined(ls)).at([i0] + u + [c]) ==
      Dot(Joined(ls), [i0] + u, [Clamp1(Total(Heights(As(ls))), i0)] + Clamp(tail, w), c, Rank(ls[0]))
  {
    assert ls != [];
    hide *;
    Member(ls, 0);
    JoinedShape(ls);
    DenseAtRow(Joined(ls), [i0] + u, c);
    Led(i0, u);
    ClampCons(Total(Heights(As(ls))), ls[0].a.shape[1..Dims(ls[0]) - 2], i0, u[..|u| - 1]);
  }

  lemma OwnAt(l: Lora, m: Lora, h: nat, s: nat, u: Index, c: nat)
    requires Valid(l) && Valid(m) && Dims(l) == Dims(m) > 2 && Rank(l) == Rank(m) && |u| == Dims(m) - 2
    requires l.a.shape == [h] + m.a.shape[1..]
    ensures Dense(l).at([s] + (u + [c])) ==
            Dot(l, [s] + u, [Clamp1(h, s)] + Clamp(m.a.shape[1..Dims(m) - 2], u[..|u| - 1]), c, Rank(m))
  {
    assert |m.a.shape| == Dims(m);
    hide *;
    Moved(s, u, [c]);
    DenseAtRow(l, [s] + u, c);
    Led(s, u);
    LedShape(m.a.shape, h, Dims(m) - 2);
    ClampCons(h, m.a.shape[1..Dims(m) - 2], s, u[..|u| - 1]);
  }

  lemma PartAt(ls: seq<Lora>, i0: nat, u: Index, c: nat)
    requires AllMatched(ls) && SameTails(As(ls)) && SameTails(Bs(ls)) && Dims(ls[0]) > 2
    requires i0 < Total(Heights(Bs(ls))) && |u| == Dims(ls[0]) - 2
    ensures var tail, w, p := ls[0].a.shape[1..Dims(ls[0]) - 2], u[..|u| - 1], Pick(Heights(Bs(ls)), i0);
      Cat(Denses(ls)).at([i0] + u + [c]) ==
      Dot(ls[p.0], [p.1] + u, [Clamp1(Heights(As(ls))[p.0], p.1)] + Clamp(tail, w), c, Rank(ls[0]))
  {
    assert ls != [];
    hide *;
    Member(ls, 0);
    DensesTails(ls);
    var n, h, p := Dims(ls[0]), Heights(As(ls)), Pick(Heights(Bs(ls)), i0);
    Member(ls, p.0);
    Tails(ls, p.0);
    CatAt(Denses(ls), i0, u + [c]);
    Moved(i0, u, [c]);
    OwnAt(ls[p.0], ls[0], h[p.0], p.1, u, c);
  }

  lemma JoinedElement(ls: seq<Lora>, i0: nat, u: Index, c: nat)
    requires AllMatched(ls) && SameTails(As(ls)) && SameTails(Bs(ls)) && Dims(ls[0]) > 2
    requires i0 < Total(Heights(Bs(ls))) && Fit(Heights(As(ls)), Heights(Bs(ls))) && |u| == Dims(ls[0]) - 2
    requires Valid(Joined(ls))
    ensures Dense(Joined(ls)).at([i0] + u + [c]) == Cat(Denses(ls)).at([i0] + u + [c])
  {
    assert ls != [];
    hide *;
    Member(ls, 0);
    JoinedAt(ls, i0, u, c);
    PartAt(ls, i0, u, c);
    JoinedDots(ls, i0, u, Clamp(ls[0].a.shape[1..Dims(ls[0]) - 2], u[..|u| - 1]), c);
  }

  lemma Led(s: nat, u: Index)
    requires u != []
    ensures ([s] + u)[..|u|] == [s] + u[..|u| - 1]
  {
  }

  lemma LedShape(shape: seq<nat>, h: nat, m: nat)
    requires 0 < m <= |shape|
    ensures ([h] + shape[1..])[..m] == [h] + shape[1..m]
  {
  }

  lemma JoinedSame(ls: seq<Lora>)
    requires AllMatched(ls) && SameTails(As(ls)) && SameTails(Bs(ls)) && Dims(ls[0]) > 2
    requires Fit(Heights(As(ls)), Heights(Bs(ls)))
    requires Matched(Joined(ls))
    ensures SameTails(Denses(ls)) && StandsFor(Joined(ls), Cat(Denses(ls)))
  {
    assert ls != [];
    hide *;
    Member(ls, 0);
    JoinedShape(ls);
    DensesTails(ls);
    var r, t, n := Joined(ls), Cat(Denses(ls)), Dims(ls[0]);
    MatchedValid(r);
    DenseShape(r);
    forall i | InShape(Dense(r).shape, i)
      ensures Dense(r).at(i) == t.at(i)
    {
      ShapeLength(Dense(r).shape, i);
      FirstInside(Dense(r).shape, i);
      JoinedElement(ls, i[0], i[1..n - 1], i[n - 1]);
      Framed(i);
    }
    Stands(r, t);
  }

  lemma MatchedValid(l: Lora)
    ensures Matched(l) ==> Valid(l)
  {
  }

  lemma CatIsJoined(ls: seq<Lora>, dim: int)
    requires AllMatched(ls) && ls != [] && Dims(ls[0]) > 2 && CatAll(ls, dim).Ok?
    ensures SameTails(As(ls)) && SameTails(Bs(ls)) && CatAll(ls, dim).value == Joined(ls)
  {
    hide SameTails, Valid, Cat;
  }

  /** Joining stacks of matrices: right when the A's join to a single one or each part has as many A's as
      B's, and wrong when the joined A's do not broadcast to the joined B's. */
  lemma CatStacks(ls: seq<Lora>, dim: int)
    requires AllMatched(ls) && ls != [] && Dims(ls[0]) > 2 && CatAll(ls, dim).Ok?
    ensures TorchCat(Denses(ls)).Ok?
    ensures var ha, hb := Heights(As(ls)), Heights(Bs(ls));
      var right := StandsFor(CatAll(ls, dim).value, TorchCat(Denses(ls)).value);
      && (Fit(ha, hb) ==> right)
      && (right ==> Total(ha) == 1 || Total(ha) == Total(hb))
  {
    CatIsJoined(ls, dim);
    hide *;
    DensesTails(ls);
    CatOk(Denses(ls));
    JoinedShape(ls);
    var ha, hb := Heights(As(ls)), Heights(Bs(ls));
    FitTotals(ha, hb);
    if Fit(ha, hb) {
      JoinedSame(ls);
    } else {
      StandsForMatched(Joined(ls), Cat(Denses(ls)));
    }
  }

  lemma FitTotals(ha: seq<nat>, hb: seq<nat>)
    ensures Fit(ha, hb) <==> Total(ha) == 1 || ha == hb
  {
  }

  /** When no part is empty, the result is right exactly when there is a single part, or every part has as
      many A's as B's. */
  lemma CatStacksIsRight(ls: seq<Lora>, dim: int)
    requires AllMatched(ls) && ls != [] && Dims(ls[0]) > 2 && CatAll(ls, dim).Ok?
    requires forall k :: 0 <= k < |ls| ==> ls[k].b.shape[0] > 0
    ensures TorchCat(Denses(ls)).Ok?
    ensures StandsFor(CatAll(ls, dim).value, TorchCat(Denses(ls)).value) <==> |ls| == 1 || Alike(ls)
  {
    CatIsJoined(ls, dim);
    PartsNotEmpty(ls);
    hide *;
    HeightsOf(ls);
    CatStacks(ls, dim);
    var ha, hb := Heights(As(ls)), Heights(Bs(ls));
    HeightsOne(ha, hb);
    FitTotals(ha, hb);
    if |ls| == 1 {
      OneHeight(ha);
    }
  }

  lemma OneHeight(ha: seq<nat>)
    requires |ha| == 1
    ensures Total(ha) == ha[0]
  {
    assert ha[1..] == [];
  }

  lemma CatOk(ts: seq<Tensor>)
    requires SameTails(ts)
    ensures TorchCat(ts) == Ok(Cat(ts))
  {
  }

  lemma PartsNotEmpty(ls: seq<Lora>)
    requires AllMatched(ls) && SameTails(As(ls)) && SameTails(Bs(ls))
    requires forall k :: 0 <= k < |ls| ==> ls[k].b.shape[0] > 0
    ensures forall k :: 0 <= k < |ls| ==> Heights(Bs(ls))[k] > 0
  {
  }

  /** Two stacks of two matrices with a shared A each: the join has two A's for four B's. */
  lemma JoinFails()
    ensures var ls := [SHARED, SHARED];
      && AllMatched(ls) && CatAll(ls, 0).Ok? && TorchCat(Denses(ls)).Ok?
      && !StandsFor(CatAll(ls, 0).value, TorchCat(Denses(ls)).value)
  {
    var ls := [SHARED, SHARED];
    assert AllMatched(ls) && ls[0].b.shape[0] == 2 && !Alike(ls);
    assert SameTails(As(ls)) && SameTails(Bs(ls)) && Dims(ls[0]) > 2;
    assert CatAll(ls, 0).Ok? by {
      hide *;
      JoinedIsMade(ls);
    }
    hide Denses, TorchCat, CatAll, Joined, StandsFor;
    CatStacksIsRight(ls, 0);
  }

  lemma JoinedIsMade(ls: seq<Lora>)
    requires AllMatched(ls) && SameTails(As(ls)) && SameTails(Bs(ls)) && Dims(ls[0]) > 2
    ensures CatAll(ls, 0).Ok?
  {
    JoinedShape(ls);
    hide Valid, AllMatched, Cat;
  }

  // ---------- parts that may be empty ----------

  /** Stacks of the same shapes, with whatever elements. */
  predicate SameForm(ms: seq<Lora>, ls: seq<Lora>) {
    |ms| == |ls| && forall k :: 0 <= k < |ls| ==> ms[k].a.shape == ls[k].a.shape && ms[k].b.shape == ls[k].b.shape
  }

  /** What torch joins: at least one stack, all of one size but for their first dimension. */
  predicate Stacks(ls: seq<Lora>) {
    AllMatched(ls) && SameTails(As(ls)) && SameTails(Bs(ls)) && Dims(ls[0]) > 2
  }

  ghost predicate JoinsRight(ls: seq<Lora>)
    requires Stacks(ls)
  {
    StandsFor(Joined(ls), Cat(Denses(ls)))
  }

  /** The products have no elements, or only empty sums. */
  predicate Vacuous(l: Lora)
    requires Valid(l)
  {
    Rank(l) == 0 || 0 in Shape(l)[1..]
  }

  lemma SameFormHeights(ms: seq<Lora>, ls: seq<Lora>)
    requires SameForm(ms, ls) && Stacks(ls)
    ensures Stacks(ms) && Dims(ms[0]) == Dims(ls[0])
    ensures Heights(As(ms)) == Heights(As(ls)) && Heights(Bs(ms)) == Heights(Bs(ls))
    ensures Rank(ms[0]) == Rank(ls[0]) && Shape(ms[0]) == Shape(ls[0])
  {
    forall k | 0 <= k < |ls|
      ensures Matched(ms[k]) && As(ms)[k].shape == As(ls)[k].shape && Bs(ms)[k].shape == Bs(ls)[k].shape
    {
      assert Matched(ls[k]);
    }
    assert AllMatched(ms) && ms != [];
    hide Matched;
    SameShapesTails(As(ms), As(ls));
    SameShapesTails(Bs(ms), Bs(ls));
  }

  lemma SameShapesTails(ts: seq<Tensor>, us: seq<Tensor>)
    requires |ts| == |us| && forall k :: 0 <= k < |ts| ==> ts[k].shape == us[k].shape
    requires SameTails(us)
    ensures SameTails(ts) && Heights(ts) == Heights(us)
  {
  }

  /** Where there is nothing to see, the join is right once the shapes fit. */
  lemma VacuousRight(ls: seq<Lora>)
    requires Stacks(ls)
    requires Total(Heights(As(ls))) == Total(Heights(Bs(ls))) && Vacuous(ls[0])
    ensures JoinsRight(ls)
  {
    var l := ls[0];
    assert Rank(l) == 0 || 0 in Shape(l)[1..];
    hide *;
    StacksMean(ls);
    JoinedShape(ls);
    DensesTails(ls);
    var r, t := Joined(ls), Cat(Denses(ls));
    DenseShape(r);
    if Rank(l) == 0 {
      forall i | InShape(Dense(r).shape, i)
        ensures Dense(r).at(i) == t.at(i)
      {
        FirstInside(Dense(r).shape, i);
        ShapeLength(Dense(r).shape, i);
        NoRank(r, i);
        NoRankPart(ls, i);
      }
    } else {
      var d :| 0 <= d < |Shape(l)[1..]| && Shape(l)[1..][d] == 0;
      assert Dense(r).shape[d + 1] == 0;
      NothingInside(Dense(r).shape);
    }
    Stands(r, t);
    JoinsIs(ls);
  }

  lemma JoinsIs(ls: seq<Lora>)
    requires Stacks(ls)
    ensures JoinsRight(ls) <==> StandsFor(Joined(ls), Cat(Denses(ls)))
  {
  }

  lemma NoRank(l: Lora, i: Index)
    requires Valid(l) && Rank(l) == 0
    ensures Dense(l).at(i) == 0.0
  {
  }

  lemma NoRankPart(ls: seq<Lora>, i: Index)
    requires Stacks(ls) && Rank(ls[0]) == 0
    requires SameTails(Denses(ls)) && Heights(Denses(ls)) == Heights(Bs(ls))
    requires i != [] && i[0] < Total(Heights(Bs(ls)))
    ensures Cat(Denses(ls)).at(i) == 0.0
  {
    var p := Pick(Heights(Bs(ls)), i[0]);
    Member(ls, p.0);
    Tails(ls, p.0);
    hide Pick, Dense, AllMatched, Heights;
    CatAt(Denses(ls), i[0], i[1..]);
    assert i == [i[0]] + i[1..];
    NoRank(ls[p.0], [p.1] + i[1..]);
  }

  /** A's in which every row holds its number in the join, and B's that show it. */
  function Numbered(ls: seq<Lora>): (ms: seq<Lora>)
    requires SameTails(As(ls))
    ensures |ms| == |ls|
  {
    seq(|ls|, k requires 0 <= k < |ls| =>
      var from := Total(Heights(As(ls))[..k]);
      Lora(Tensor(ls[k].a.shape, i => if i != [] then (from + i[0]) as real else 0.0),
           Tensor(ls[k].b.shape, i => if i != [] && i[|i| - 1] == 0 then 1.0 else 0.0)))
  }

  lemma NumberedForm(ls: seq<Lora>)
    requires SameTails(As(ls))
    ensures SameForm(Numbered(ls), ls)
  {
  }

  lemma NumberedAt(ls: seq<Lora>, k: nat, d: nat, i: Index)
    requires SameTails(As(ls)) && k < |ls|
    ensures Numbered(ls)[k].a.at([d] + i) == (Total(Heights(As(ls))[..k]) + d) as real
    ensures i != [] ==> Numbered(ls)[k].b.at([d] + i) == if i[|i| - 1] == 0 then 1.0 else 0.0
  {
  }

  lemma DotOne(l: Lora, row: Index, lead: Index, col: nat, rank: nat)
    requires rank > 0 && forall k: nat :: l.b.at(row + [k]) == if k == 0 then 1.0 else 0.0
    ensures Dot(l, row, lead, col, rank) == l.a.at(lead + [0, col])
  {
    hide Dot;
    DotFirst(l, row, lead, col, rank);
  }

  lemma LastOf(u: Index, k: nat)
    ensures u + [k] != [] && (u + [k])[|u + [k]| - 1] == k
  {
  }

  lemma StacksMean(ls: seq<Lora>)
    requires Stacks(ls)
    ensures ls != [] && AllMatched(ls) && SameTails(As(ls)) && SameTails(Bs(ls)) && Valid(ls[0]) && Dims(ls[0]) > 2
  {
  }

  lemma JoinedOnes(ls: seq<Lora>, r: nat, u: Index, k: nat)
    requires Stacks(ls) && Stacks(Numbered(ls)) && r < Total(Heights(Bs(ls)))
    requires Heights(Bs(Numbered(ls))) == Heights(Bs(ls))
    ensures Joined(Numbered(ls)).b.at([r] + u + [k]) == if k == 0 then 1.0 else 0.0
  {
    hide *;
    StacksMean(ls);
    var ms, q := Numbered(ls), Pick(Heights(Bs(ls)), r);
    StacksMean(ms);
    JoinedParts(ms);
    Member(ms, q.0);
    CatAt(Bs(ms), r, u + [k]);
    Moved(r, u, [k]);
    LastOf(u, k);
    NumberedAt(ls, q.0, q.1, u + [k]);
  }

  lemma JoinedNumbers(ls: seq<Lora>, r: nat, i: Index)
    requires Stacks(ls) && Stacks(Numbered(ls)) && r < Total(Heights(As(ls)))
    requires Heights(As(Numbered(ls))) == Heights(As(ls))
    ensures Joined(Numbered(ls)).a.at([r] + i) == r as real
  {
    hide *;
    StacksMean(ls);
    var ms, p := Numbered(ls), Pick(Heights(As(ls)), r);
    StacksMean(ms);
    JoinedParts(ms);
    Member(ms, p.0);
    CatAt(As(ms), r, i);
    NumberedAt(ls, p.0, p.1, i);
    PickIs(Heights(As(ls)), r);
  }

  /** Row `r` of the joined product shows `r`. */
  lemma JoinedShows(ls: seq<Lora>, r: nat, u: Index, c: nat)
    requires Stacks(ls) && Rank(ls[0]) > 0
    requires |u| == Dims(ls[0]) - 2 && r < Total(Heights(Bs(ls))) == Total(Heights(As(ls)))
      && Total(Heights(As(ls))) != 1
    requires var ms := Numbered(ls);
      && Stacks(ms) && Dims(ms[0]) == Dims(ls[0]) && Rank(ms[0]) == Rank(ls[0])
      && Heights(As(ms)) == Heights(As(ls)) && Heights(Bs(ms)) == Heights(Bs(ls)) && Valid(Joined(ms))
    ensures Dense(Joined(Numbered(ls))).at([r] + u + [c]) == r as real
  {
    assert Clamp1(Total(Heights(As(ls))), r) == r;
    hide *;
    StacksMean(ls);
    var ms, ha := Numbered(ls), Heights(As(ls));
    StacksMean(ms);
    Member(ms, 0);
    var clamped := Clamp(ms[0].a.shape[1..Dims(ms[0]) - 2], u[..|u| - 1]);
    JoinedAt(ms, r, u, c);
    forall k: nat
      ensures Joined(ms).b.at([r] + u + [k]) == if k == 0 then 1.0 else 0.0
    {
      JoinedOnes(ls, r, u, k);
    }
    DotOne(Joined(ms), [r] + u, [r] + clamped, c, Rank(ls[0]));
    Moved(r, clamped, [0, c]);
    JoinedNumbers(ls, r, clamped + [0, c]);
  }

  /** Row `r` of the products joined shows the number of its own row of A. */
  lemma PartShows(ls: seq<Lora>, r: nat, u: Index, c: nat)
    requires Stacks(ls) && Rank(ls[0]) > 0
    requires |u| == Dims(ls[0]) - 2 && r < Total(Heights(Bs(ls)))
    requires var ms := Numbered(ls);
      && Stacks(ms) && Dims(ms[0]) == Dims(ls[0]) && Rank(ms[0]) == Rank(ls[0])
      && Heights(As(ms)) == Heights(As(ls)) && Heights(Bs(ms)) == Heights(Bs(ls))
    ensures var p, ha := Pick(Heights(Bs(ls)), r), Heights(As(ls));
      Cat(Denses(Numbered(ls))).at([r] + u + [c]) == (Total(ha[..p.0]) + Clamp1(ha[p.0], p.1)) as real
  {
    hide *;
    StacksMean(ls);
    var ms, ha := Numbered(ls), Heights(As(ls));
    StacksMean(ms);
    Member(ms, 0);
    var p, clamped := Pick(Heights(Bs(ls)), r), Clamp(ms[0].a.shape[1..Dims(ms[0]) - 2], u[..|u| - 1]);
    var d := Clamp1(ha[p.0], p.1);
    PartAt(ms, r, u, c);
    forall k: nat
      ensures ms[p.0].b.at([p.1] + u + [k]) == if k == 0 then 1.0 else 0.0
    {
      Moved(p.1, u, [k]);
      LastOf(u, k);
      NumberedAt(ls, p.0, p.1, u + [k]);
    }
    DotOne(ms[p.0], [p.1] + u, [d] + clamped, c, Rank(ls[0]));
    Moved(d, clamped, [0, c]);
    NumberedAt(ls, p.0, d, clamped + [0, c]);
  }

  lemma {:induction false} PickAt(hs: seq<nat>, k: nat, q: nat)
    requires k < |hs| && q < hs[k]
    ensures Total(hs[..k]) + q < Total(hs) && Pick(hs, Total(hs[..k]) + q) == (k, q)
  {
    if k > 0 {
      PickAt(hs[1..], k - 1, q);
      assert hs[..k] == [hs[0]] + hs[1..][..k - 1];
    }
  }

  lemma {:induction false} AtLeastEverywhere(ha: seq<nat>, hb: seq<nat>)
    requires |ha| == |hb| && forall k :: 0 <= k < |ha| ==> ha[k] >= hb[k]
    ensures Total(ha) >= Total(hb) && (Total(ha) == Total(hb) ==> ha == hb)
  {
    if ha != [] {
      AtLeastEverywhere(ha[1..], hb[1..]);
      assert ha == [ha[0]] + ha[1..] && hb == [hb[0]] + hb[1..];
    }
  }

  /** When every row has the number of its own row of A, the heights are the same. */
  lemma RowsDecide(ha: seq<nat>, hb: seq<nat>)
    requires |ha| == |hb| && Total(ha) == Total(hb) && forall k :: 0 <= k < |ha| ==> ha[k] == 1 || ha[k] == hb[k]
    requires forall r: nat :: r < Total(hb) ==>
               var p := Pick(hb, r); Total(ha[..p.0]) + Clamp1(ha[p.0], p.1) == r
    ensures ha == hb
  {
    hide Pick, Total;
    forall k | 0 <= k < |ha|
      ensures ha[k] >= hb[k]
    {
      if hb[k] >= 2 {
        PickAt(hb, k, 0);
        PickAt(hb, k, 1);
        var at := Total(hb[..k]);
        assert Total(ha[..k]) + Clamp1(ha[k], 0) == at;
        assert Total(ha[..k]) + Clamp1(ha[k], 1) == at + 1;
      }
    }
    AtLeastEverywhere(ha, hb);
  }

  /** Zeros for the dimensions between the first and the last. */
  lemma ZerosInside(shape: seq<nat>, r: nat)
    requires |shape| >= 3 && r < shape[0] && 0 !in shape[1..]
    ensures InShape(shape, [r] + Zeros(|shape| - 2) + [0])
  {
    var i := [r] + Zeros(|shape| - 2) + [0];
    forall d | 0 <= d < |shape|
      ensures i[d] < shape[d]
    {
      if d > 0 {
        assert shape[1..][d - 1] == shape[d] != 0;
      }
    }
  }

  lemma RowNumbered(ls: seq<Lora>, r: nat)
    requires Stacks(ls) && !Vacuous(ls[0]) && Stacks(Numbered(ls)) && JoinsRight(Numbered(ls))
    requires r < Total(Heights(Bs(ls))) == Total(Heights(As(ls))) && Total(Heights(As(ls))) != 1
    ensures var ha, p := Heights(As(ls)), Pick(Heights(Bs(ls)), r);
      Total(ha[..p.0]) + Clamp1(ha[p.0], p.1) == r
  {
    var shape, n := Shape(ls[0]), Dims(ls[0]);
    assert Rank(ls[0]) > 0 && 0 !in shape[1..] && |shape| == n;
    hide *;
    StacksMean(ls);
    var ms, hb := Numbered(ls), Heights(Bs(ls));
    StacksMean(ms);
    NumberedForm(ls);
    SameFormHeights(ms, ls);
    JoinedShape(ms);
    var whole := [Total(hb)] + shape[1..];
    ZerosInside(whole, r);
    JoinsAt(ms, [r] + Zeros(n - 2) + [0]);
    ZerosLength(n - 2);
    JoinedShows(ls, r, Zeros(n - 2), 0);
    PartShows(ls, r, Zeros(n - 2), 0);
  }

  lemma ZerosLength(n: nat)
    ensures |Zeros(n)| == n
  {
  }

  lemma NumberedDecides(ls: seq<Lora>)
    requires Stacks(ls) && !Vacuous(ls[0]) && Stacks(Numbered(ls)) && JoinsRight(Numbered(ls))
    requires Total(Heights(As(ls))) == Total(Heights(Bs(ls))) != 1
    ensures Heights(As(ls)) == Heights(Bs(ls))
  {
    hide *;
    StacksMean(ls);
    var ha, hb := Heights(As(ls)), Heights(Bs(ls));
    HeightsOf(ls);
    forall r: nat | r < Total(hb)
      ensures var p := Pick(hb, r); Total(ha[..p.0]) + Clamp1(ha[p.0], p.1) == r
    {
      RowNumbered(ls, r);
    }
    RowsDecide(ha, hb);
  }

  lemma JoinsAt(ls: seq<Lora>, i: Index)
    requires Stacks(ls) && JoinsRight(ls)
    requires Valid(Joined(ls)) && InShape(Shape(Joined(ls)), i)
    ensures Dense(Joined(ls)).at(i) == Cat(Denses(ls)).at(i)
  {
    DenseShape(Joined(ls));
  }

  lemma JoinsMatched(ls: seq<Lora>)
    requires Stacks(ls) && JoinsRight(ls)
    ensures Matched(Joined(ls))
  {
  }

  lemma JoinsIf(ls: seq<Lora>)
    requires Stacks(ls)
    requires Fit(Heights(As(ls)), Heights(Bs(ls)))
    ensures JoinsRight(ls)
  {
    JoinedShape(ls);
    JoinedSame(ls);
  }

  /** For stacks of given shapes, empty ones among them, the join is right whatever the elements if and
      only if the A's join to a single one, or are as many as the B's in each part, or are as many in all
      and the products have nothing to show. */
  lemma CatShapesDecide(ls: seq<Lora>)
    requires Stacks(ls)
    ensures var ha, hb := Heights(As(ls)), Heights(Bs(ls));
      (forall ms :: SameForm(ms, ls) && Stacks(ms) ==> JoinsRight(ms)) <==>
      Fit(ha, hb) || (Total(ha) == Total(hb) && Vacuous(ls[0]))
  {
    hide *;
    StacksMean(ls);
    var ha, hb := Heights(As(ls)), Heights(Bs(ls));
    FitTotals(ha, hb);
    if Fit(ha, hb) || (Total(ha) == Total(hb) && Vacuous(ls[0])) {
      forall ms | SameForm(ms, ls) && Stacks(ms)
        ensures JoinsRight(ms)
      {
        SameFormHeights(ms, ls);
        StacksMean(ms);
        VacuousSame(ms[0], ls[0]);
        if Fit(ha, hb) {
          JoinsIf(ms);
        } else {
          VacuousRight(ms);
        }
      }
    } else if forall ms :: SameForm(ms, ls) && Stacks(ms) ==> JoinsRight(ms) {
      FormOfItself(ls);
      JoinsMatched(ls);
      JoinedShape(ls);
      NumberedForm(ls);
      SameFormHeights(Numbered(ls), ls);
      NumberedDecides(ls);
    }
  }

  lemma VacuousSame(l: Lora, m: Lora)
    requires Valid(l) && Valid(m) && Rank(l) == Rank(m) && Shape(l) == Shape(m)
    ensures Vacuous(l) <==> Vacuous(m)
  {
  }

  lemma FormOfItself(ls: seq<Lora>)
    ensures SameForm(ls, ls)
  {
  }

  // ---------- plain matrices joined ----------

  lemma PlainElement(ls: seq<Lora>, i0: nat, c: nat)
    requires AllMatched(ls) && ls != [] && Dims(ls[0]) == 2 && SameTails(Bs(ls))
    requires forall k :: 0 <= k < |ls| ==> Same(ls[0].a, ls[k].a)
    requires i0 < Total(Heights(Bs(ls))) && c < RowSize(ls[0])
    requires SameTails(Denses(ls)) && Heights(Denses(ls)) == Heights(Bs(ls))
    requires Valid(Lora(ls[0].a, Cat(Bs(ls)))) && Rank(Lora(ls[0].a, Cat(Bs(ls)))) == Rank(ls[0])
    ensures Dense(Lora(ls[0].a, Cat(Bs(ls)))).at([i0] + [c]) == Cat(Denses(ls)).at([i0] + [c])
  {
    var r, hb := Lora(ls[0].a, Cat(Bs(ls))), Heights(Bs(ls));
    var p := Pick(hb, i0);
    var l := ls[p.0];
    assert Same(ls[0].a, l.a) && Valid(l) && Dims(l) == 2 && Dims(r) == 2;
    assert Rank(l) == Rank(ls[0]) && Rank(ls[0]) == ls[0].a.shape[0] && |ls[0].a.shape| == 2;
    assert [i0][..0] == [] && [p.1][..0] == [] && Clamp(l.a.shape[..0], []) == [] && Clamp(r.a.shape[..0], []) == [];
    assert Denses(ls)[p.0] == Dense(l) && Bs(ls)[p.0] == l.b;
    PlainRows(ls[0], l, c);
    hide *;
    CatAt(Denses(ls), i0, [c]);
    DenseAtRow(r, [i0], c);
    DenseAtRow(l, [p.1], c);
    forall k: nat | k < Rank(ls[0])
      ensures r.b.at([i0] + [k]) == l.b.at([p.1] + [k])
    {
      CatAt(Bs(ls), i0, [k]);
    }
    DotSame(r, [i0], [], c, l, [p.1], [], c, Rank(ls[0]));
  }

  lemma PlainRows(l: Lora, m: Lora, c: nat)
    requires Valid(l) && Dims(l) == 2 && Same(l.a, m.a) && c < RowSize(l)
    ensures forall k: nat :: k < Rank(l) ==> l.a.at([] + [k, c]) == m.a.at([] + [k, c])
  {
    forall k: nat | k < Rank(l)
      ensures l.a.at([] + [k, c]) == m.a.at([] + [k, c])
    {
      assert InShape(l.a.shape, [] + [k, c]);
    }
  }

  lemma PlainShape(ls: seq<Lora>)
    requires AllMatched(ls) && ls != [] && Dims(ls[0]) == 2 && SameTails(Bs(ls))
    requires forall k :: 0 <= k < |ls| ==> Same(ls[0].a, ls[k].a)
    ensures var r, hb := Lora(ls[0].a, Cat(Bs(ls))), Heights(Bs(ls));
      && Matched(r) && Dims(r) == 2 && Rank(r) == Rank(ls[0]) && Shape(r) == [Total(hb)] + [RowSize(ls[0])]
      && SameTails(Denses(ls)) && Heights(Denses(ls)) == hb && Cat(Denses(ls)).shape == Shape(r)
  {
    var r, hb := Lora(ls[0].a, Cat(Bs(ls))), Heights(Bs(ls));
    forall k | 0 <= k < |ls|
      ensures Denses(ls)[k].shape == [hb[k]] + [RowSize(ls[0])]
    {
      Member(ls, k);
      DenseShape(ls[k]);
      assert Same(ls[0].a, ls[k].a);
    }
    TailsFrom(Denses(ls), hb, [RowSize(ls[0])]);
    assert Bs(ls)[0] == ls[0].b;
    TailsOf(Bs(ls), 0);
  }

  /** Joining plain matrices, which the code allows only when all the A's are the same, is always right. */
  lemma CatMatricesIsRight(ls: seq<Lora>, dim: int)
    requires AllMatched(ls) && ls != [] && Dims(ls[0]) == 2 && CatAll(ls, dim).Ok?
    ensures TorchCat(Denses(ls)).Ok?
    ensures StandsFor(CatAll(ls, dim).value, TorchCat(Denses(ls)).value)
  {
    var r, t := Lora(ls[0].a, Cat(Bs(ls))), Cat(Denses(ls));
    assert SameTails(Bs(ls)) && forall k :: 0 <= k < |ls| ==> Same(ls[0].a, ls[k].a);
    assert CatAll(ls, dim).value == r;
    hide *;
    PlainShape(ls);
    CatOk(Denses(ls));
    MatchedValid(r);
    DenseShape(r);
    forall i | InShape(Dense(r).shape, i)
      ensures Dense(r).at(i) == t.at(i)
    {
      ShapeLength(Dense(r).shape, i);
      TwoInside(Total(Heights(Bs(ls))), RowSize(ls[0]), i);
      PlainElement(ls, i[0], i[1]);
    }
    Stands(r, t);
  }

  lemma TwoInside(m: nat, n: nat, i: Index)
    requires InShape([m] + [n], i)
    ensures |i| == 2 && i[0] < m && i[1] < n && i == [i[0]] + [i[1]]
  {
  }
}
