/** LoraTorchTensor: reshaping and permuting a product by way of its factors. */
module LoraReshape {
  import opened Text
  import opened Tensors
  import opened Lora

  // ---------- torch.reshape with a size left open ----------

  function Minus(dims: seq<int>): nat {
    if dims == [] then 0 else (if dims[|dims| - 1] == -1 then 1 else 0) + Minus(dims[..|dims| - 1])
  }

  /** The product of the sizes given, an open one counting as 1. */
  function ProdOpen(dims: seq<int>): int {
    if dims == [] then 1
    else ProdOpen(dims[..|dims| - 1]) * (if dims[|dims| - 1] == -1 then 1 else dims[|dims| - 1])
  }

  function Fill(dims: seq<int>, q: int): (r: seq<int>)
    ensures |r| == |dims|
  {
    seq(|dims|, d requires 0 <= d < |dims| => if dims[d] == -1 then q else dims[d])
  }

  predicate AtLeast(dims: seq<int>, low: int) {
    forall d :: 0 <= d < |dims| ==> dims[d] >= low
  }

  /** The sizes torch.reshape settles on for `total` elements, if any. */
  function TorchSizes(dims: seq<int>, total: nat): Option<seq<nat>> {
    if !AtLeast(dims, -1) || Minus(dims) > 1 then None
    else if Minus(dims) == 0 then
      if AtLeast(dims, 0) && Prod(dims) == total then Some(dims) else None
    else
      var rest := ProdOpen(dims);
      if rest > 0 && total % rest == 0 && AtLeast(Fill(dims, total / rest), 0) then Some(Fill(dims, total / rest))
      else None
  }

  function TorchReshape(t: Tensor, dims: seq<int>): Outcome<Tensor> {
    match TorchSizes(dims, Prod(t.shape))
    case None => Raises(RuntimeError)
    case Some(shape) => Ok(Reshape(t, shape))
  }

  // ---------- reshape of the factors ----------

  function Ones(n: nat): (r: seq<nat>)
    ensures |r| == n
  {
    seq(n, _ => 1)
  }

  function Zeros(n: nat): (r: seq<nat>)
    ensures |r| == n
  {
    seq(n, _ => 0)
  }

  /** -1 is replaced before anything else; Python asserts that the division leaves nothing over. */
  function Settled(dims: seq<int>, total: nat): Outcome<seq<int>> {
    if Minus(dims) == 0 then Ok(dims)
    else if ProdOpen(dims) == 0 then Raises(ZeroDivisionError)
    else if total % ProdOpen(dims) != 0 then Raises(AssertionError)
    else Ok(Fill(dims, total / ProdOpen(dims)))
  }

  /** Both factors reshaped, once the shape is settled. */
  function ByFactors(l: Lora, shape: seq<int>): Outcome<Lora>
    requires Valid(l) && |shape| >= 2
  {
    var n := |shape|;
    Both(TorchReshape(l.a, Ones(n - 2) + [Rank(l), RowSize(l)]), TorchReshape(l.b, shape[..n - 1] + [Rank(l)]))
  }

  /** reshape: the last size must stay; everything else is done to B. */
  function ReshapeTo(l: Lora, dims: seq<int>): Outcome<Lora>
    requires Valid(l)
  {
    if |dims| < 2 then Raises(NotImplementedError)
    else
      match Settled(dims, Prod(Shape(l)))
      case Raises(e) => Raises(e)
      case Ok(shape) =>
        if |shape| < 2 || shape[|shape| - 1] != RowSize(l) then Raises(NotImplementedError)
        else ByFactors(l, shape)
  }

  // ---------- the factors reshaped ----------

  lemma {:induction false} ProdOnes(n: nat)
    ensures Prod(Ones(n)) == 1
  {
    if n > 0 {
      ProdOnes(n - 1);
      assert Ones(n)[..n - 1] == Ones(n - 1);
    }
  }

  lemma {:induction false} ProdOneAll(shape: seq<nat>)
    requires Prod(shape) == 1
    ensures shape == Ones(|shape|)
  {
    var n := |shape|;
    if n > 0 {
      var p, m := Prod(shape[..n - 1]), shape[n - 1];
      FactorsOfOne(p, m);
      ProdOneAll(shape[..n - 1]);
      assert shape == shape[..n - 1] + [m];
    }
  }

  lemma FactorsOfOne(p: nat, m: nat)
    requires p * m == 1
    ensures p == 1 && m == 1
  {
    if p > 1 && m > 0 {
      MulMonotone(2, p, m);
    }
    assert p != 0 && m != 0;
  }

  lemma {:induction false} UnflattenZero(n: nat)
    ensures Unflatten(Ones(n), 0) == Zeros(n)
  {
    if n > 0 {
      UnflattenZero(n - 1);
      assert Ones(n)[..n - 1] == Ones(n - 1) && Zeros(n) == Zeros(n - 1) + [0];
    }
  }

  lemma {:induction false} FlattenZeros(n: nat)
    ensures Flatten(Ones(n), Zeros(n)) == 0
  {
    if n > 0 {
      FlattenZeros(n - 1);
      assert Ones(n)[..n - 1] == Ones(n - 1) && Zeros(n)[..n - 1] == Zeros(n - 1);
    }
  }

  lemma {:induction false} ClampOnes(n: nat, i: Index)
    requires |i| == n
    ensures Clamp(Ones(n), i) == Zeros(n)
  {
    if n > 0 {
      ClampOnes(n - 1, i[1..]);
      assert Ones(n)[1..] == Ones(n - 1) && Zeros(n) == [0] + Zeros(n - 1);
    }
  }

  /** Reshaping everything but the last dimension moves whole rows. */
  lemma RowsMove(t: Tensor, lead: seq<nat>, to: seq<nat>, m: nat, j: Index, c: nat)
    requires t.shape == lead + [m] && |j| == |to| && c < m
    ensures Reshape(t, to + [m]).at(j + [c]) == t.at(Unflatten(lead, Flatten(to, j)) + [c])
  {
    hide Reshape, Flatten, Unflatten;
    ReshapeAt(t, to + [m], j + [c]);
    FlattenLast(to, m, j, c);
    UnflattenLast(lead, m, Flatten(to, j), c);
  }

  lemma ReshapeAt(t: Tensor, shape: seq<nat>, i: Index)
    requires |i| == |shape|
    ensures Reshape(t, shape).at(i) == t.at(Unflatten(t.shape, Flatten(shape, i)))
  {
    hide Flatten, Unflatten;
  }

  /** A stack of one matrix keeps its elements under any number of leading ones. */
  lemma OnesMove(t: Tensor, n: nat, w: nat, rank: nat, m: nat, k: nat, c: nat)
    requires t.shape == Ones(n) + [rank, m] && k < rank && c < m
    ensures Reshape(t, Ones(w) + [rank, m]).at(Zeros(w) + [k, c]) == t.at(Zeros(n) + [k, c])
  {
    assert Ones(n) + [rank, m] == Ones(n) + [rank] + [m] && Ones(w) + [rank, m] == Ones(w) + [rank] + [m];
    assert Zeros(n) + [k, c] == Zeros(n) + [k] + [c] && Zeros(w) + [k, c] == Zeros(w) + [k] + [c];
    hide Flatten, Unflatten, Ones, Zeros;
    RowsMove(t, Ones(n) + [rank], Ones(w) + [rank], m, Zeros(w) + [k], c);
    FlattenLast(Ones(w), rank, Zeros(w), k);
    FlattenZeros(w);
    UnflattenLast(Ones(n), rank, 0, k);
    UnflattenZero(n);
  }

  lemma DenseAtRow(l: Lora, u: Index, col: nat)
    requires Valid(l) && |u| == Dims(l) - 1
    ensures Dense(l).at(u + [col]) ==
            Dot(l, u, Clamp(l.a.shape[..Dims(l) - 2], u[..|u| - 1]), col, Rank(l))
  {
    var i := u + [col];
    assert i[..|u|] == u && i[..|u| - 1] == u[..|u| - 1];
  }

  /** Both factors reshaped to `lead` rows, A without leading dimensions of its own. */
  function Reshaped(l: Lora, lead: seq<nat>): Lora
    requires Valid(l) && lead != []
  {
    Lora(Reshape(l.a, Ones(|lead| - 1) + [Rank(l), RowSize(l)]), Reshape(l.b, lead + [Rank(l)]))
  }

  lemma ReshapedElement(l: Lora, lead: seq<nat>, j: Index, c: nat)
    requires Valid(l) && lead != [] && |j| == |lead| && c < RowSize(l)
    requires Rank(l) > 0 ==> l.a.shape[..Dims(l) - 2] == Ones(Dims(l) - 2)
    ensures Valid(Reshaped(l, lead))
    ensures Dense(Reshaped(l, lead)).at(j + [c]) == Reshape(Dense(l), lead + [RowSize(l)]).at(j + [c])
  {
    var r, n, m, w := Reshaped(l, lead), Dims(l), RowSize(l), |lead| - 1;
    var rows := l.b.shape[..n - 1];
    var u := Unflatten(rows, Flatten(lead, j));
    ShapeParts(l);
    assert Shape(l) == rows + [m];
    DenseShape(l);
    ReshapedShape(l, lead);
    hide Dense, Dot, Flatten, Unflatten, Clamp, Reshape, Reshaped;
    RowsMove(Dense(l), rows, lead, m, j, c);
    DenseAtRow(l, u, c);
    DenseAtRow(r, j, c);
    if Rank(l) > 0 {
      ReshapedRow(l, lead, j, c, u);
    } else {
      DotNothing(r, j, Clamp(r.a.shape[..w], j[..w]), c);
      DotNothing(l, u, Clamp(l.a.shape[..n - 2], u[..n - 2]), c);
    }
  }

  /** The row of the reshaped B is the row at its place in B, and A has one column for both. */
  lemma ReshapedRow(l: Lora, lead: seq<nat>, j: Index, c: nat, u: Index)
    requires Valid(l) && lead != [] && |j| == |lead| && c < RowSize(l) && Valid(Reshaped(l, lead))
    requires l.a.shape[..Dims(l) - 2] == Ones(Dims(l) - 2) && u == Unflatten(l.b.shape[..Dims(l) - 1], Flatten(lead, j))
    ensures var r, n, w := Reshaped(l, lead), Dims(l), |lead| - 1;
      |r.a.shape| >= w && Dot(r, j, Clamp(r.a.shape[..w], j[..w]), c, Rank(l)) ==
      Dot(l, u, Clamp(l.a.shape[..n - 2], u[..n - 2]), c, Rank(l))
  {
    var r, n, rank, m, w := Reshaped(l, lead), Dims(l), Rank(l), RowSize(l), |lead| - 1;
    var rows := l.b.shape[..n - 1];
    ShapeParts(l);
    assert l.b.shape == rows + [rank];
    assert r.a.shape[..w] == Ones(w);
    hide Dense, Dot, Flatten, Unflatten, Clamp, Reshape;
    ClampOnes(w, j[..w]);
    ClampOnes(n - 2, u[..n - 2]);
    forall k: nat | k < rank
      ensures r.b.at(j + [k]) == l.b.at(u + [k])
      ensures r.a.at(Zeros(w) + [k, c]) == l.a.at(Zeros(n - 2) + [k, c])
    {
      RowsMove(l.b, rows, lead, rank, j, k);
      OnesMove(l.a, n - 2, w, rank, m, k, c);
    }
    DotSame(r, j, Zeros(w), c, l, u, Zeros(n - 2), c, rank);
  }

  lemma DotNothing(l: Lora, row: Index, lead: Index, col: nat)
    ensures Dot(l, row, lead, col, 0) == 0.0
  {
  }

  lemma ReshapedShape(l: Lora, lead: seq<nat>)
    requires Valid(l) && lead != []
    ensures var r := Reshaped(l, lead);
      && Valid(r) && Dims(r) == |lead| + 1 && Rank(r) == Rank(l)
      && Shape(r) == lead + [RowSize(l)] && r.a.shape[..|lead| - 1] == Ones(|lead| - 1) && Matched(r)
  {
  }

  /** Reshaping the factors reshapes the product, when A has no leading dimensions of its own. */
  lemma ReshapedCommutes(l: Lora, lead: seq<nat>)
    requires Valid(l) && lead != []
    requires Rank(l) > 0 && RowSize(l) > 0 ==> l.a.shape[..Dims(l) - 2] == Ones(Dims(l) - 2)
    ensures StandsFor(Reshaped(l, lead), Reshape(Dense(l), lead + [RowSize(l)]))
  {
    var r, t := Reshaped(l, lead), Reshape(Dense(l), lead + [RowSize(l)]);
    ReshapedShape(l, lead);
    DenseShape(r);
    hide Dense, Matched;
    forall i | InShape(Dense(r).shape, i)
      ensures Dense(r).at(i) == t.at(i)
    {
      var j, c := i[..|lead|], i[|lead|];
      assert i == j + [c] && c < RowSize(l);
      ReshapedElement(l, lead, j, c);
    }
  }

  // ---------- which reshapes are accepted ----------

  lemma {:induction false} MinusNone(dims: seq<int>)
    ensures Minus(dims) == 0 <==> forall d :: 0 <= d < |dims| ==> dims[d] != -1
  {
    var n := |dims|;
    if n > 0 {
      MinusNone(dims[..n - 1]);
      assert forall d :: 0 <= d < n - 1 ==> dims[..n - 1][d] == dims[d];
      assert dims[n - 1] == dims[n - 1];
    }
  }

  lemma {:induction false} ProdOpenIs(dims: seq<int>)
    requires AtLeast(dims, -1)
    ensures ProdOpen(dims) >= 0
    ensures AtLeast(dims, 0) ==> ProdOpen(dims) == Prod(dims)
  {
    var n := |dims|;
    if n > 0 {
      ProdOpenIs(dims[..n - 1]);
      var p, m := ProdOpen(dims[..n - 1]), if dims[n - 1] == -1 then 1 else dims[n - 1];
      MulMonotone(0, p, m);
    }
  }

  /** An open size that is filled in multiplies the product of the others. */
  lemma {:induction false} ProdFill(dims: seq<int>, q: nat)
    requires AtLeast(dims, -1) && Minus(dims) <= 1
    ensures AtLeast(Fill(dims, q), 0)
    ensures Prod(Fill(dims, q)) == if Minus(dims) == 1 then ProdOpen(dims) * q else ProdOpen(dims)
  {
    var n := |dims|;
    if n > 0 {
      var lead, m := dims[..n - 1], dims[n - 1];
      ProdFill(lead, q);
      assert Fill(dims, q)[..n - 1] == Fill(lead, q);
      if m != -1 {
        Swapped(ProdOpen(lead), q, m);
      }
    }
  }

  lemma Swapped(p: int, q: int, m: int)
    ensures p * q * m == p * m * q
  {
  }

  /** What the code settles on, once no size is left open or negative, is what torch settles on. */
  lemma SettledIsTorchs(dims: seq<int>, total: nat)
    requires Minus(dims) <= 1 && AtLeast(dims, -1)
    ensures TorchSizes(dims, total).Some? <==>
            Settled(dims, total).Ok? && AtLeast(Settled(dims, total).value, 0)
              && Prod(Settled(dims, total).value) == total
    ensures TorchSizes(dims, total).Some? ==> TorchSizes(dims, total).value == Settled(dims, total).value
  {
    ProdOpenIs(dims);
    if Minus(dims) == 1 && ProdOpen(dims) != 0 {
      ProdFill(dims, total / ProdOpen(dims));
    }
  }

  /** The factors accept the settled shape when its sizes are good for both of them. */
  lemma FactorsReshape(l: Lora, shape: seq<int>)
    requires Valid(l) && |shape| >= 2 && shape[|shape| - 1] == RowSize(l) && AtLeast(shape, 0)
    ensures ByFactors(l, shape).Ok? <==>
            && Prod(l.a.shape) == Rank(l) * RowSize(l)
            && Prod(shape[..|shape| - 1]) * Rank(l) == Prod(l.b.shape)
    ensures ByFactors(l, shape).Ok? ==> ByFactors(l, shape).value == Reshaped(l, shape[..|shape| - 1])
  {
    var n, rank, m := |shape|, Rank(l), RowSize(l);
    var sa, sb := Ones(n - 2) + [rank, m], shape[..n - 1] + [rank];
    SizesSettle(sa, Prod(l.a.shape));
    SizesSettle(sb, Prod(l.b.shape));
    assert sa == Ones(n - 2) + [rank] + [m];
    hide Prod, Ones, TorchSizes, Reshape, Minus;
    ProdLast(Ones(n - 2) + [rank], m);
    ProdLast(Ones(n - 2), rank);
    ProdOnes(n - 2);
    ProdLast(shape[..n - 1], rank);
  }

  /** Sizes none of which is negative are taken as they are. */
  lemma SizesSettle(dims: seq<nat>, total: nat)
    ensures TorchSizes(dims, total) == if Prod(dims) == total then Some(dims) else None
  {
    MinusNone(dims);
    hide Prod, Minus;
  }

  /** If B can be reshaped at all then no size is negative. */
  lemma SettledIsNatural(l: Lora, dims: seq<int>)
    requires Valid(l) && ReshapeTo(l, dims).Ok?
    ensures AtLeast(dims, -1)
    ensures Settled(dims, Prod(Shape(l))).Ok? && AtLeast(Settled(dims, Prod(Shape(l))).value, 0)
  {
    var total := Prod(Shape(l));
    var shape := Settled(dims, total).value;
    var n := |shape|;
    var sb := shape[..n - 1] + [Rank(l)];
    assert AtLeast(sb, -1);
    forall d | 0 <= d < n
      ensures shape[d] >= -1 && dims[d] >= -1
    {
      if d < n - 1 {
        assert sb[d] == shape[d];
      }
    }
    MinusNone(dims);
    ProdOpenIs(dims);
  }

  lemma SameRows(l: Lora, p: nat)
    requires Valid(l)
    ensures p == Prod(l.b.shape[..Dims(l) - 1]) ==> p * Rank(l) == Prod(l.b.shape) && p * RowSize(l) == Prod(Shape(l))
    ensures Rank(l) > 0 && p * Rank(l) == Prod(l.b.shape) ==> p == Prod(l.b.shape[..Dims(l) - 1])
    ensures RowSize(l) > 0 && p * RowSize(l) == Prod(Shape(l)) ==> p == Prod(l.b.shape[..Dims(l) - 1])
  {
    var rows := l.b.shape[..Dims(l) - 1];
    assert l.b.shape == rows + [Rank(l)];
    ProdLast(rows, Rank(l));
    ProdLast(rows, RowSize(l));
    if Rank(l) > 0 && p * Rank(l) == Prod(l.b.shape) {
      QuotientUnique(p, Prod(rows), Rank(l), 0, 0);
    }
    if RowSize(l) > 0 && p * RowSize(l) == Prod(Shape(l)) {
      QuotientUnique(p, Prod(rows), RowSize(l), 0, 0);
    }
  }

  lemma LeadsOfA(l: Lora)
    requires Valid(l) && Rank(l) > 0 && RowSize(l) > 0
    ensures Prod(l.a.shape) == Rank(l) * RowSize(l) <==> l.a.shape[..Dims(l) - 2] == Ones(Dims(l) - 2)
  {
    var lead, rank, m := l.a.shape[..Dims(l) - 2], Rank(l), RowSize(l);
    assert l.a.shape == lead + [rank] + [m];
    ProdLast(lead + [rank], m);
    ProdLast(lead, rank);
    ProdOnes(|lead|);
    if Prod(l.a.shape) == rank * m {
      QuotientUnique(Prod(lead) * rank, rank, m, 0, 0);
      QuotientUnique(Prod(lead), 1, rank, 0, 0);
      ProdOneAll(lead);
    }
  }

  /** A reshape that the code carries out gives the reshaped product. */
  lemma ReshapeIsRight(l: Lora, dims: seq<int>)
    requires Valid(l) && ReshapeTo(l, dims).Ok? && TorchReshape(Dense(l), dims).Ok?
    ensures StandsFor(ReshapeTo(l, dims).value, TorchReshape(Dense(l), dims).value)
  {
    hide *;
    MinusOfTorch(l, dims);
    ReshapeToMeans(l, dims);
    SettledIsNatural(l, dims);
    TorchReshapes(l, dims);
    var shape := Settled(dims, Prod(Shape(l))).value;
    FactorsReshape(l, shape);
    if Rank(l) > 0 && RowSize(l) > 0 {
      LeadsOfA(l);
    }
    Ends(shape);
    ReshapedCommutes(l, shape[..|shape| - 1]);
  }

  lemma Ends(shape: seq<int>)
    requires shape != []
    ensures shape == shape[..|shape| - 1] + [shape[|shape| - 1]]
  {
  }

  lemma MinusOfTorch(l: Lora, dims: seq<int>)
    requires Valid(l) && TorchReshape(Dense(l), dims).Ok?
    ensures Minus(dims) <= 1
  {
    hide Dense, Prod, ProdOpen, Minus, Fill;
  }

  lemma TorchReshapes(l: Lora, dims: seq<int>)
    requires Valid(l) && Minus(dims) <= 1 && TorchReshape(Dense(l), dims).Ok? && AtLeast(dims, -1)
    ensures var s := Settled(dims, Prod(Shape(l)));
      s.Ok? && AtLeast(s.value, 0) && TorchReshape(Dense(l), dims).value == Reshape(Dense(l), s.value)
  {
    DenseShape(l);
    hide Dense, Prod, ProdOpen, Minus, Settled, Fill, Reshape;
    SettledIsTorchs(dims, Prod(Shape(l)));
  }

  lemma FactorsAccept(l: Lora, shape: seq<int>)
    requires Valid(l) && Rank(l) > 0 && RowSize(l) > 0
    requires |shape| >= 2 && shape[|shape| - 1] == RowSize(l) && AtLeast(shape, 0)
    ensures ByFactors(l, shape).Ok? <==>
            Prod(shape) == Prod(Shape(l)) && l.a.shape[..Dims(l) - 2] == Ones(Dims(l) - 2)
  {
    var lead: seq<nat> := shape[..|shape| - 1];
    hide *;
    Ends(shape);
    LeadsOfA(l);
    FactorsReshape(l, shape);
    SameRows(l, Prod(lead));
    ProdLast(lead, RowSize(l));
    RowsOf(l);
  }

  lemma RowsOf(l: Lora)
    requires Valid(l)
    ensures Dims(l) >= 2 && |l.b.shape| == Dims(l) && l.b.shape == l.b.shape[..Dims(l) - 1] + [Rank(l)]
  {
  }

  /** The code carries out exactly the reshapes that torch allows for the product, that have two or more
      dimensions and keep the row size, and only when A has no leading dimensions of its own. */
  lemma ReshapeIsAccepted(l: Lora, dims: seq<int>)
    requires Valid(l) && Rank(l) > 0 && RowSize(l) > 0 && Minus(dims) <= 1
    ensures ReshapeTo(l, dims).Ok? <==>
            && |dims| >= 2
            && TorchReshape(Dense(l), dims).Ok?
            && TorchReshape(Dense(l), dims).value.shape[|dims| - 1] == RowSize(l)
            && l.a.shape[..Dims(l) - 2] == Ones(Dims(l) - 2)
  {
    assert Dims(l) >= 2;
    hide *;
    if TorchReshape(Dense(l), dims).Ok? {
      TorchAgrees(l, dims);
    }
    if ReshapeTo(l, dims).Ok? {
      CarriedOut(l, dims);
    } else if
      && |dims| >= 2
      && TorchReshape(Dense(l), dims).Ok?
      && TorchReshape(Dense(l), dims).value.shape[|dims| - 1] == RowSize(l)
      && l.a.shape[..Dims(l) - 2] == Ones(Dims(l) - 2)
    {
      Carries(l, dims);
    }
  }

  lemma CarriedOut(l: Lora, dims: seq<int>)
    requires Valid(l) && Rank(l) > 0 && RowSize(l) > 0 && Minus(dims) <= 1 && ReshapeTo(l, dims).Ok?
    ensures |dims| >= 2 && TorchReshape(Dense(l), dims).Ok?
    ensures TorchReshape(Dense(l), dims).value.shape[|dims| - 1] == RowSize(l)
    ensures l.a.shape[..Dims(l) - 2] == Ones(Dims(l) - 2)
  {
    var total := Prod(Shape(l));
    var shape := Settled(dims, total).value;
    ReshapeToMeans(l, dims);
    SettledIsNatural(l, dims);
    hide *;
    FactorsAccept(l, shape);
    SettledIsTorchs(dims, total);
    TorchAccepts(l, dims);
    TorchAgrees(l, dims);
  }

  lemma ReshapeToMeans(l: Lora, dims: seq<int>)
    requires Valid(l) && ReshapeTo(l, dims).Ok?
    ensures |dims| >= 2 && Settled(dims, Prod(Shape(l))).Ok?
    ensures var shape := Settled(dims, Prod(Shape(l))).value;
      |shape| == |dims| && shape[|shape| - 1] == RowSize(l) && ReshapeTo(l, dims) == ByFactors(l, shape)
  {
  }

  lemma TorchAccepts(l: Lora, dims: seq<int>)
    requires Valid(l) && TorchSizes(dims, Prod(Shape(l))).Some?
    ensures TorchReshape(Dense(l), dims).Ok?
  {
    hide TorchSizes;
    DenseShape(l);
  }

  lemma Carries(l: Lora, dims: seq<int>)
    requires Valid(l) && Rank(l) > 0 && RowSize(l) > 0 && Minus(dims) <= 1
    requires |dims| >= 2 && TorchReshape(Dense(l), dims).Ok?
    requires TorchReshape(Dense(l), dims).value.shape[|dims| - 1] == RowSize(l)
    requires l.a.shape[..Dims(l) - 2] == Ones(Dims(l) - 2)
    ensures ReshapeTo(l, dims).Ok?
  {
    hide Dense, Prod, ProdOpen, Minus, Settled, ByFactors, Ones, TorchReshape, TorchSizes, Fill;
    TorchAgrees(l, dims);
    FactorsAccept(l, Settled(dims, Prod(Shape(l))).value);
  }

  lemma TorchAgrees(l: Lora, dims: seq<int>)
    requires Valid(l) && Minus(dims) <= 1 && TorchReshape(Dense(l), dims).Ok?
    ensures var s := Settled(dims, Prod(Shape(l)));
      && s.Ok? && |s.value| == |dims| && AtLeast(s.value, 0) && Prod(s.value) == Prod(Shape(l))
      && TorchReshape(Dense(l), dims).value.shape == s.value
  {
    var total := Prod(Shape(l));
    DenseShape(l);
    assert AtLeast(dims, -1);
    hide Dense, Prod, ProdOpen, Minus, Settled;
    SettledIsTorchs(dims, total);
    SettledLength(dims, total);
  }

  lemma SettledLength(dims: seq<int>, total: nat)
    ensures Settled(dims, total).Ok? ==> |Settled(dims, total).value| == |dims|
  {
  }

  // ---------- whatever the rank and the row size ----------

  lemma NothingInA(l: Lora)
    requires Valid(l) && (Rank(l) == 0 || RowSize(l) == 0)
    ensures Prod(l.a.shape) == 0
  {
    var lead, rank, m := l.a.shape[..Dims(l) - 2], Rank(l), RowSize(l);
    assert l.a.shape == lead + [rank] + [m];
    ProdLast(lead + [rank], m);
    ProdLast(lead, rank);
  }

  /** What the factors need of a settled shape, also when one of them is empty: without rank the number of
      rows may change, and without rank or rows A's leading dimensions do not matter. */
  lemma FactorsNeed(l: Lora, shape: seq<int>)
    requires Valid(l) && |shape| >= 2 && shape[|shape| - 1] == RowSize(l) && AtLeast(shape, 0)
    ensures ByFactors(l, shape).Ok? <==>
            && (Rank(l) > 0 ==> Prod(shape[..|shape| - 1]) == Prod(l.b.shape[..Dims(l) - 1]))
            && (Rank(l) > 0 && RowSize(l) > 0 ==> l.a.shape[..Dims(l) - 2] == Ones(Dims(l) - 2))
  {
    hide ByFactors, Prod, Ones;
    var lead := shape[..|shape| - 1];
    FactorsReshape(l, shape);
    SameRows(l, Prod(lead));
    if Rank(l) > 0 && RowSize(l) > 0 {
      LeadsOfA(l);
    } else {
      NothingInA(l);
      ProdLast(l.b.shape[..Dims(l) - 1], Rank(l));
      assert l.b.shape == l.b.shape[..Dims(l) - 1] + [Rank(l)];
    }
  }

  /** Every reshape, with any number of open sizes and also of empty factors: carried out exactly when the
      settled sizes are no negative ones, keep the row size and, for a rank above zero, the number of
      rows, and A has no leading dimensions of its own where it has elements. */
  lemma ReshapeAccepts(l: Lora, dims: seq<int>)
    requires Valid(l)
    ensures var s := Settled(dims, Prod(Shape(l)));
      ReshapeTo(l, dims).Ok? <==>
      && |dims| >= 2 && s.Ok? && |s.value| == |dims| && s.value[|dims| - 1] == RowSize(l) && AtLeast(s.value, 0)
      && (Rank(l) > 0 ==> Prod(s.value[..|dims| - 1]) == Prod(l.b.shape[..Dims(l) - 1]))
      && (Rank(l) > 0 && RowSize(l) > 0 ==> l.a.shape[..Dims(l) - 2] == Ones(Dims(l) - 2))
  {
    var s := Settled(dims, Prod(Shape(l)));
    SettledLength(dims, Prod(Shape(l)));
    if ReshapeTo(l, dims).Ok? {
      ReshapeToMeans(l, dims);
      SettledIsNatural(l, dims);
      hide *;
      FactorsNeed(l, s.value);
    } else if |dims| >= 2 && s.Ok? && s.value[|dims| - 1] == RowSize(l) && AtLeast(s.value, 0) {
      hide Settled, ByFactors, Prod, Ones;
      FactorsNeed(l, s.value);
    }
  }

  lemma FourAndFive()
    ensures Minus([5, 3]) == 0 && Prod([5]) == 5 && Prod([4]) == 4 && Prod([5, 3]) == 15 && Prod([4, 3]) == 12
    ensures Settled([5, 3], 12) == Ok([5, 3]) && TorchSizes([5, 3], 12) == None
  {
    var five, dims: seq<int> := [5], [5, 3];
    assert dims[..1] == five && five[..0] == [] && [4, 3][..1] == [4] && [4][..0] == [];
    assert Prod([]) == 1 && Prod([4]) == 4 && Prod(five) == 5;
  }

  /** Without rank, four rows become five, which torch refuses for the product. */
  const RANKLESS := Lora(Filled([0, 3]), Filled([4, 0]))

  lemma RanklessIs()
    ensures Valid(RANKLESS) && Rank(RANKLESS) == 0 && RowSize(RANKLESS) == 3 && Shape(RANKLESS) == [4, 3]
    ensures AtLeast([5, 3], 0) && |[5, 3]| == 2 && [5, 3][1] == 3
  {
  }

  lemma TorchRefuses(l: Lora, dims: seq<int>)
    requires Valid(l) && TorchSizes(dims, Prod(Shape(l))).None?
    ensures TorchReshape(Dense(l), dims).Raises?
  {
    hide TorchSizes, Prod;
    DenseShape(l);
  }

  lemma NoRankReshapes()
    ensures Valid(RANKLESS) && ReshapeTo(RANKLESS, [5, 3]).Ok? && TorchReshape(Dense(RANKLESS), [5, 3]).Raises?
  {
    hide *;
    RanklessIs();
    FourAndFive();
    TorchRefuses(RANKLESS, [5, 3]);
    ReshapeAccepts(RANKLESS, [5, 3]);
  }
}
