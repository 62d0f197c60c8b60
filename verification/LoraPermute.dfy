/** LoraTorchTensor: permuting and transposing a product by way of its factors. */
module LoraPermute {
  import opened Tensors
  import opened Lora
  import opened LoraReshape

  predicate InDims(dims: seq<int>, n: nat) {
    forall d :: 0 <= d < |dims| ==> dims[d] + n >= 0 && dims[d] < n
  }

  /** Python counts dimensions from the end with negative numbers. */
  function Wrapped(dims: seq<int>, n: nat): (p: seq<nat>)
    requires InDims(dims, n)
    ensures |p| == |dims|
  {
    seq(|dims|, d requires 0 <= d < |dims| => if dims[d] < 0 then dims[d] + n else dims[d])
  }

  function TorchPermute(t: Tensor, dims: seq<int>): Outcome<Tensor> {
    var n := |t.shape|;
    if |dims| != n then Raises(RuntimeError)
    else if !InDims(dims, n) then Raises(IndexError)
    else if !IsPermutation(Wrapped(dims, n)) then Raises(RuntimeError)
    else Ok(Permute(t, Wrapped(dims, n)))
  }

  /** Every dimension counted from the end. */
  function FromEnd(dims: seq<int>, n: nat): (r: seq<int>)
    ensures |r| == |dims|
  {
    seq(|dims|, d requires 0 <= d < |dims| => if dims[d] >= 0 then dims[d] - n else dims[d])
  }

  /** permute: B alone when the row dimension stays last, or a plain matrix transposed. */
  function PermuteTo(l: Lora, dims: seq<int>): Outcome<Lora>
    requires Valid(l)
  {
    var n, w, d := Dims(l), |dims|, FromEnd(dims, Dims(l));
    if w == 0 then Raises(IndexError)
    else if d[w - 1] == -1 then
      if l.a.shape[..n - 2] == Ones(n - 2) then Both(Ok(l.a), TorchPermute(l.b, d))
      else Raises(AssertionError)
    else if n == 2 && d[w - 1] == -2 && w < 2 then Raises(IndexError)
    else if n == 2 && d[w - 1] == -2 && d[w - 2] == -1 then Both(TorchPermute(l.b, d), TorchPermute(l.a, d))
    else Raises(NotImplementedError)
  }

  predicate InRange(dim: int, n: nat) {
    dim + n >= 0 && dim < n
  }

  /** A dimension counted from the front. */
  function Front(dim: int, n: nat): int {
    if dim < 0 then dim + n else dim
  }

  /** transpose: two dimensions exchanged. */
  function TransposeTo(l: Lora, dim0: int, dim1: int): Outcome<Lora>
    requires Valid(l)
  {
    var n := Dims(l);
    if InRange(dim0, n) && InRange(dim1, n) then PermuteTo(l, Exchanged(n, Front(dim0, n), Front(dim1, n)))
    else Raises(IndexError)
  }

  function Exchanged(n: nat, x: nat, y: nat): (r: seq<nat>)
    ensures |r| == n
  {
    seq(n, d => if d == x then y else if d == y then x else d)
  }

  // ---------- the last dimension stays ----------

  function PermHead(p: seq<nat>, u: Index): (v: Index)
    requires p != []
    ensures |v| == |p| - 1
  {
    seq(|p| - 1, d requires 0 <= d < |p| - 1 => if Where(p, d) < |u| then u[Where(p, d)] else 0)
  }

  /** Permuting dimensions other than the last does not touch the last. */
  lemma PermSourceLast(p: seq<nat>, u: Index, c: nat)
    requires IsPermutation(p) && p != [] && p[|p| - 1] == |p| - 1 && |u| == |p| - 1
    ensures PermSource(p, u + [c]) == PermHead(p, u) + [c]
  {
    var n := |p|;
    WhereIs(p, n - 1);
    hide Where, IsPermutation;
    forall d | 0 <= d < n
      ensures PermSource(p, u + [c])[d] == (PermHead(p, u) + [c])[d]
    {
    }
  }

  /** Permuting B permutes the product, when the row dimension stays last and A is shared by all. */
  lemma RowsPermute(l: Lora, p: seq<nat>)
    requires Valid(l) && l.a.shape[..Dims(l) - 2] == Ones(Dims(l) - 2)
    requires |p| == Dims(l) && IsPermutation(p) && p[|p| - 1] == |p| - 1
    ensures Valid(Lora(l.a, Permute(l.b, p)))
    ensures StandsFor(Lora(l.a, Permute(l.b, p)), Permute(Dense(l), p))
  {
    var r, t, n := Lora(l.a, Permute(l.b, p)), Permute(Dense(l), p), Dims(l);
    DenseShape(l);
    RowsPermuteShape(l, p);
    DenseShape(r);
    assert Dims(r) == n >= 2;
    hide *;
    forall i | InShape(Dense(r).shape, i)
      ensures Dense(r).at(i) == t.at(i)
    {
      ShapeLength(Dense(r).shape, i);
      Spelled(i);
      RowsPermuteElement(l, p, i[..n - 1], i[n - 1]);
    }
    Stands(r, t);
  }

  lemma ShapeLength(shape: seq<nat>, i: Index)
    requires InShape(shape, i)
    ensures |i| == |shape|
  {
  }

  lemma Spelled(i: Index)
    requires i != []
    ensures i == i[..|i| - 1] + [i[|i| - 1]]
  {
  }

  lemma Stands(l: Lora, t: Tensor)
    requires Matched(l) && Dense(l).shape == t.shape
    requires forall i :: InShape(Dense(l).shape, i) ==> Dense(l).at(i) == t.at(i)
    ensures StandsFor(l, t)
  {
  }

  lemma RowsPermuteShape(l: Lora, p: seq<nat>)
    requires Valid(l) && l.a.shape[..Dims(l) - 2] == Ones(Dims(l) - 2)
    requires |p| == Dims(l) && IsPermutation(p) && p[|p| - 1] == |p| - 1
    ensures var r := Lora(l.a, Permute(l.b, p));
      Valid(r) && Rank(r) == Rank(l) && Matched(r) && Shape(r) == Permute(Dense(l), p).shape
  {
    var r, n := Lora(l.a, Permute(l.b, p)), Dims(l);
    DenseShape(l);
    forall k | 0 <= k < n
      ensures Shape(r)[k] == Permute(Dense(l), p).shape[k]
    {
      assert k < n - 1 ==> p[k] != p[n - 1];
    }
  }

  lemma PermuteAt(t: Tensor, p: seq<nat>, i: Index)
    ensures Permute(t, p).at(i) == t.at(PermSource(p, i))
  {
  }

  lemma PermutedAt(t: Tensor, p: seq<nat>, u: Index, c: nat)
    requires IsPermutation(p) && p != [] && p[|p| - 1] == |p| - 1 && |u| == |p| - 1
    ensures Permute(t, p).at(u + [c]) == t.at(PermHead(p, u) + [c])
  {
    hide Where, IsPermutation, PermSource, PermHead;
    PermSourceLast(p, u, c);
  }

  /** With A shared by all rows, the leading place does not matter. */
  lemma SharedAt(l: Lora, u: Index, c: nat)
    requires Valid(l) && l.a.shape[..Dims(l) - 2] == Ones(Dims(l) - 2) && |u| == Dims(l) - 1
    ensures Dense(l).at(u + [c]) == Dot(l, u, Zeros(Dims(l) - 2), c, Rank(l))
  {
    var n := Dims(l);
    hide *;
    DenseAtRow(l, u, c);
    ClampOnes(n - 2, u[..n - 2]);
  }

  lemma RowsPermuteElement(l: Lora, p: seq<nat>, u: Index, c: nat)
    requires Valid(l) && l.a.shape[..Dims(l) - 2] == Ones(Dims(l) - 2)
    requires |p| == Dims(l) && IsPermutation(p) && p[|p| - 1] == |p| - 1 && |u| == Dims(l) - 1
    requires Valid(Lora(l.a, Permute(l.b, p))) && Rank(Lora(l.a, Permute(l.b, p))) == Rank(l)
    requires Dims(Lora(l.a, Permute(l.b, p))) == Dims(l)
    ensures Dense(Lora(l.a, Permute(l.b, p))).at(u + [c]) == Permute(Dense(l), p).at(u + [c])
  {
    hide *;
    var r, v, n := Lora(l.a, Permute(l.b, p)), PermHead(p, u), Dims(l);
    PermutedAt(Dense(l), p, u, c);
    SharedAt(r, u, c);
    SharedAt(l, v, c);
    forall k: nat | k < Rank(l)
      ensures r.b.at(u + [k]) == l.b.at(v + [k])
    {
      PermutedAt(l.b, p, u, k);
    }
    DotSame(r, u, Zeros(n - 2), c, l, v, Zeros(n - 2), c, Rank(l));
  }

  // ---------- a plain matrix transposed ----------

  lemma {:induction false} DotSwap(l: Lora, m: Lora, i: nat, j: nat, rank: nat)
    requires forall k: nat :: k < rank ==> l.b.at([i] + [k]) == m.a.at([] + [k, i])
    requires forall k: nat :: k < rank ==> l.a.at([] + [k, j]) == m.b.at([j] + [k])
    ensures Dot(l, [i], [], j, rank) == Dot(m, [j], [], i, rank)
  {
    if rank > 0 {
      DotSwap(l, m, i, j, rank - 1);
    }
  }

  lemma PermSourceTwo(i: nat, j: nat)
    ensures PermSource([1, 0], [i, j]) == [j, i]
  {
    assert Where([1, 0], 1) == 0;
    WhereIs([1, 0], 1);
  }

  /** Exchanging the transposed factors transposes a plain product. */
  lemma MatrixTransposes(l: Lora)
    requires Valid(l) && Dims(l) == 2
    ensures var r := Lora(Permute(l.b, [1, 0]), Permute(l.a, [1, 0]));
      Valid(r) && StandsFor(r, Permute(Dense(l), [1, 0]))
  {
    var r, t := Lora(Permute(l.b, [1, 0]), Permute(l.a, [1, 0])), Permute(Dense(l), [1, 0]);
    assert r.a.shape == [Rank(l), l.b.shape[0]] && r.b.shape == [RowSize(l), Rank(l)];
    DenseShape(l);
    assert t.shape == Shape(r);
    DenseShape(r);
    forall i | InShape(Dense(r).shape, i)
      ensures Dense(r).at(i) == t.at(i)
    {
      assert i == [i[0], i[1]];
      TransposedElement(l, i[1], i[0]);
    }
  }

  lemma Pairs(i: nat, j: nat)
    ensures [i] + [j] == [i, j] && [] + [i, j] == [i, j]
  {
  }

  lemma TransposedElement(l: Lora, i: nat, j: nat)
    requires Valid(l) && Dims(l) == 2 && Valid(Lora(Permute(l.b, [1, 0]), Permute(l.a, [1, 0])))
    ensures Dense(Lora(Permute(l.b, [1, 0]), Permute(l.a, [1, 0]))).at([j, i]) == Permute(Dense(l), [1, 0]).at([j, i])
  {
    var r := Lora(Permute(l.b, [1, 0]), Permute(l.a, [1, 0]));
    assert Clamp(l.a.shape[..0], [i][..0]) == [] && Clamp(r.a.shape[..0], [j][..0]) == [];
    assert Dims(r) == 2 && Rank(r) == Rank(l);
    assert [i][..0] == [] && [j][..0] == [];
    hide *;
    Pairs(i, j);
    Pairs(j, i);
    PermSourceTwo(j, i);
    PermuteAt(Dense(l), [1, 0], [j, i]);
    DenseAtRow(l, [i], j);
    DenseAtRow(r, [j], i);
    forall k: nat | k < Rank(l)
      ensures l.b.at([i] + [k]) == r.a.at([] + [k, i])
      ensures l.a.at([] + [k, j]) == r.b.at([j] + [k])
    {
      PermSourceTwo(k, i);
      PermuteAt(l.b, [1, 0], [k, i]);
      PermSourceTwo(j, k);
      PermuteAt(l.a, [1, 0], [j, k]);
      Pairs(i, k);
      Pairs(k, i);
      Pairs(j, k);
      Pairs(k, j);
    }
    DotSwap(l, r, i, j, Rank(l));
  }

  // ---------- permute and transpose ----------

  lemma FromEndWraps(dims: seq<int>, n: nat)
    requires InDims(dims, n)
    ensures InDims(FromEnd(dims, n), n) && Wrapped(FromEnd(dims, n), n) == Wrapped(dims, n)
  {
    var d := FromEnd(dims, n);
    assert forall k :: 0 <= k < |dims| ==> d[k] == if dims[k] >= 0 then dims[k] - n else dims[k];
  }

  /** For a permutation that torch accepts, permute works exactly when the row dimension stays last and
      A is shared by all rows, or the tensor is a plain matrix; and it gives the permuted product. */
  lemma PermuteIsRight(l: Lora, dims: seq<int>)
    requires Valid(l) && TorchPermute(Dense(l), dims).Ok?
    ensures PermuteTo(l, dims).Ok? <==>
            (dims[Dims(l) - 1] in {-1, Dims(l) - 1} && l.a.shape[..Dims(l) - 2] == Ones(Dims(l) - 2)) || Dims(l) == 2
    ensures PermuteTo(l, dims).Ok? ==> StandsFor(PermuteTo(l, dims).value, TorchPermute(Dense(l), dims).value)
  {
    var n := Dims(l);
    var p, d := Wrapped(dims, n), FromEnd(dims, n);
    DenseShape(l);
    FromEndWraps(dims, n);
    assert p[n - 1] == if dims[n - 1] < 0 then dims[n - 1] + n else dims[n - 1];
    assert n == 2 ==> Ones(n - 2) == l.a.shape[..n - 2];
    if p[n - 1] == n - 1 {
      if l.a.shape[..n - 2] == Ones(n - 2) {
        RowsPermute(l, p);
      }
    } else if n == 2 {
      assert p[0] != p[1];
      assert p == [1, 0];
      MatrixTransposes(l);
    }
  }

  lemma ExchangedIsPermutation(n: nat, x: nat, y: nat)
    requires x < n && y < n
    ensures IsPermutation(Exchanged(n, x, y))
    ensures InDims(Exchanged(n, x, y), n) && Wrapped(Exchanged(n, x, y), n) == Exchanged(n, x, y)
  {
  }

  /** transpose works, for two dimensions in range, when neither is the row dimension and A is shared by
      all rows, when it changes nothing, or for a plain matrix; and it gives the transposed product. */
  lemma TransposeIsRight(l: Lora, dim0: int, dim1: int)
    requires Valid(l)
    ensures var n := Dims(l);
      var x, y := Front(dim0, n), Front(dim1, n);
      && (TransposeTo(l, dim0, dim1).Ok? <==>
          && InRange(dim0, n) && InRange(dim1, n)
          && (((x == y || (x != n - 1 && y != n - 1)) && l.a.shape[..n - 2] == Ones(n - 2)) || n == 2))
      && (TransposeTo(l, dim0, dim1).Ok? ==>
            0 <= x < n && 0 <= y < n
            && StandsFor(TransposeTo(l, dim0, dim1).value, Permute(Dense(l), Exchanged(n, x, y))))
  {
    var n := Dims(l);
    if InRange(dim0, n) && InRange(dim1, n) {
      hide PermuteTo, Permute, Dense;
      FrontExchanges(l, Front(dim0, n), Front(dim1, n));
    }
  }

  lemma FrontExchanges(l: Lora, x: nat, y: nat)
    requires Valid(l) && x < Dims(l) && y < Dims(l)
    ensures var n, r := Dims(l), PermuteTo(l, Exchanged(Dims(l), x, y));
      && (r.Ok? <==> ((x == y || (x != n - 1 && y != n - 1)) && l.a.shape[..n - 2] == Ones(n - 2)) || n == 2)
      && (r.Ok? ==> StandsFor(r.value, Permute(Dense(l), Exchanged(n, x, y))))
  {
    var n := Dims(l);
    var dims := Exchanged(n, x, y);
    ExchangedIsPermutation(n, x, y);
    DenseShape(l);
    assert dims[n - 1] == if x == n - 1 then y else if y == n - 1 then x else n - 1;
    hide PermuteTo, Permute, Dense, IsPermutation;
    PermuteIsRight(l, dims);
  }
}
