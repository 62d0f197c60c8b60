/** Dense tensors of any number of dimensions, with the torch operations that LoraTorchTensor
    forwards to. An index is a sequence with one entry for each dimension. */
module Tensors {

  type Index = seq<nat>

  datatype Tensor = Tensor(shape: seq<nat>, at: Index -> real)

  predicate InShape(shape: seq<nat>, i: Index) {
    |i| == |shape| && forall d :: 0 <= d < |shape| ==> i[d] < shape[d]
  }

  /** torch.equal: same shape and same elements. */
  ghost predicate Same(t: Tensor, u: Tensor) {
    t.shape == u.shape && forall i :: InShape(t.shape, i) ==> t.at(i) == u.at(i)
  }

  lemma InShapeSplit(a: seq<nat>, b: seq<nat>, i: Index)
    requires InShape(a + b, i)
    ensures InShape(a, i[..|a|]) && InShape(b, i[|a|..]) && i == i[..|a|] + i[|a|..]
  {
    forall d | 0 <= d < |a|
      ensures i[d] < a[d]
    {
      assert (a + b)[d] == a[d];
    }
    forall d | 0 <= d < |b|
      ensures i[|a|..][d] < b[d]
    {
      assert (a + b)[|a| + d] == b[d];
    }
  }

  lemma NothingInside(shape: seq<nat>)
    requires 0 in shape
    ensures forall i :: !InShape(shape, i)
  {
    var d :| 0 <= d < |shape| && shape[d] == 0;
    forall i: Index | |i| == |shape|
      ensures !InShape(shape, i)
    {
      assert !(i[d] < shape[d]);
    }
  }

  // ---------- selecting ----------

  /** What indexing does to one dimension: keep the listed positions, or fix one and drop the dimension. */
  datatype Sel = Keep(list: seq<nat>) | Drop(i: nat)

  predicate SelOk(s: Sel, n: nat) {
    match s
    case Keep(l) => forall k :: 0 <= k < |l| ==> l[k] < n
    case Drop(i) => i < n
  }

  predicate SelsOk(sels: seq<Sel>, shape: seq<nat>) {
    |sels| == |shape| && forall d :: 0 <= d < |shape| ==> SelOk(sels[d], shape[d])
  }

  function KeptShape(sels: seq<Sel>): seq<nat> {
    if sels == [] then []
    else (if sels[0].Keep? then [|sels[0].list|] else []) + KeptShape(sels[1..])
  }

  /** Where an element of the selection comes from. */
  function Source(sels: seq<Sel>, i: Index): Index {
    if sels == [] then []
    else
      match sels[0]
      case Drop(k) => [k] + Source(sels[1..], i)
      case Keep(l) =>
        if i != [] && i[0] < |l| then [l[i[0]]] + Source(sels[1..], i[1..]) else []
  }

  function Select(t: Tensor, sels: seq<Sel>): Tensor {
    Tensor(KeptShape(sels), i => t.at(Source(sels, i)))
  }

  lemma {:induction false} KeptShapeConcat(a: seq<Sel>, b: seq<Sel>)
    ensures KeptShape(a + b) == KeptShape(a) + KeptShape(b)
    decreases |a|
  {
    if a == [] {
      assert a + b == b;
    } else {
      assert (a + b)[1..] == a[1..] + b;
      KeptShapeConcat(a[1..], b);
      var h := if a[0].Keep? then [|a[0].list|] else [];
      assert h + (KeptShape(a[1..]) + KeptShape(b)) == h + KeptShape(a[1..]) + KeptShape(b);
    }
  }

  lemma {:induction false} SourceConcat(a: seq<Sel>, b: seq<Sel>, i: Index, j: Index)
    requires InShape(KeptShape(a), i)
    ensures Source(a + b, i + j) == Source(a, i) + Source(b, j)
    decreases |a|
  {
    if a == [] {
      assert a + b == b && i + j == j;
    } else {
      assert (a + b)[1..] == a[1..] + b;
      match a[0]
      case Drop(k) =>
        SourceConcat(a[1..], b, i, j);
        assert [k] + (Source(a[1..], i) + Source(b, j)) == [k] + Source(a[1..], i) + Source(b, j);
      case Keep(l) =>
        assert KeptShape(a) == [|l|] + KeptShape(a[1..]);
        InShapeSplit([|l|], KeptShape(a[1..]), i);
        assert (i + j)[0] == i[0] && (i + j)[1..] == i[1..] + j;
        SourceConcat(a[1..], b, i[1..], j);
        assert [l[i[0]]] + (Source(a[1..], i[1..]) + Source(b, j)) == [l[i[0]]] + Source(a[1..], i[1..]) + Source(b, j);
    }
  }

  // ---------- reshaping ----------

  function Prod(shape: seq<nat>): nat {
    if shape == [] then 1 else Prod(shape[..|shape| - 1]) * shape[|shape| - 1]
  }

  /** The place of an element in row-major order. */
  function Flatten(shape: seq<nat>, i: Index): nat
    requires |i| == |shape|
  {
    var n := |shape|;
    if n == 0 then 0 else Flatten(shape[..n - 1], i[..n - 1]) * shape[n - 1] + i[n - 1]
  }

  function Unflatten(shape: seq<nat>, f: nat): (i: Index)
    ensures |i| == |shape|
  {
    var n := |shape|;
    if n == 0 then []
    else if shape[n - 1] == 0 then Unflatten(shape[..n - 1], f) + [0]
    else Unflatten(shape[..n - 1], f / shape[n - 1]) + [f % shape[n - 1]]
  }

  /** torch.reshape to a shape of the same number of elements: the row-major order stays. */
  function Reshape(t: Tensor, shape: seq<nat>): Tensor {
    Tensor(shape, i => if |i| == |shape| then t.at(Unflatten(t.shape, Flatten(shape, i))) else 0.0)
  }

  lemma ProdLast(lead: seq<nat>, m: nat)
    ensures Prod(lead + [m]) == Prod(lead) * m
  {
    assert (lead + [m])[..|lead|] == lead;
  }

  lemma FlattenLast(lead: seq<nat>, m: nat, i: Index, c: nat)
    requires |i| == |lead|
    ensures Flatten(lead + [m], i + [c]) == Flatten(lead, i) * m + c
  {
    assert (lead + [m])[..|lead|] == lead && (i + [c])[..|i|] == i;
  }

  lemma UnflattenLast(lead: seq<nat>, m: nat, q: nat, c: nat)
    requires c < m
    ensures Unflatten(lead + [m], q * m + c) == Unflatten(lead, q) + [c]
  {
    assert (lead + [m])[..|lead|] == lead;
    DivMod(q, m, c);
  }

  lemma MulMonotone(a: nat, b: nat, m: nat)
    requires a <= b
    ensures a * m <= b * m
  {
  }

  lemma QuotientUnique(q: nat, y: nat, m: nat, c: nat, d: nat)
    requires c < m && d < m && q * m + c == y * m + d
    ensures q == y
  {
    if q < y {
      MulMonotone(q + 1, y, m);
    } else if y < q {
      MulMonotone(y + 1, q, m);
    }
  }

  lemma DivMod(q: nat, m: nat, c: nat)
    requires c < m
    ensures (q * m + c) / m == q && (q * m + c) % m == c
  {
    var x := q * m + c;
    QuotientUnique(q, x / m, m, c, x % m);
  }

  /** The two orders undo each other. */
  lemma {:induction false} FlattenUnflatten(shape: seq<nat>, i: Index)
    requires InShape(shape, i)
    ensures Unflatten(shape, Flatten(shape, i)) == i
  {
    var n := |shape|;
    if n > 0 {
      var lead, m, j, c := shape[..n - 1], shape[n - 1], i[..n - 1], i[n - 1];
      FlattenUnflatten(lead, j);
      hide Flatten, Unflatten;
      assert shape == lead + [m] && i == j + [c];
      FlattenLast(lead, m, j, c);
      UnflattenLast(lead, m, Flatten(lead, j), c);
    }
  }

  // ---------- permuting ----------

  predicate IsPermutation(p: seq<nat>) {
    (forall k :: 0 <= k < |p| ==> p[k] < |p|) && (forall j, k :: 0 <= j < k < |p| ==> p[j] != p[k])
  }

  /** The dimension of the result that shows dimension `d` of the source. */
  function Where(p: seq<nat>, d: nat): (w: nat)
    ensures w < |p| ==> p[w] == d
  {
    if p == [] then 0 else if p[0] == d then 0 else 1 + Where(p[1..], d)
  }

  /** The source index: its entry p[k] is entry k of the result's index. */
  function PermSource(p: seq<nat>, i: Index): (r: Index)
    ensures |r| == |p|
  {
    seq(|p|, d requires 0 <= d < |p| => if Where(p, d) < |i| then i[Where(p, d)] else 0)
  }

  function PermShape(p: seq<nat>, shape: seq<nat>): (r: seq<nat>)
    ensures |r| == |p|
  {
    seq(|p|, k requires 0 <= k < |p| => if p[k] < |shape| then shape[p[k]] else 0)
  }

  /** torch.permute. */
  function Permute(t: Tensor, p: seq<nat>): Tensor {
    Tensor(PermShape(p, t.shape), i => t.at(PermSource(p, i)))
  }

  lemma {:induction false} WhereIs(p: seq<nat>, k: nat)
    requires k < |p| && forall j :: 0 <= j < k ==> p[j] != p[k]
    ensures Where(p, p[k]) == k
  {
    if k > 0 {
      WhereIs(p[1..], k - 1);
    }
  }

  // ---------- stacking and joining along dimension 0 ----------

  /** torch.stack at dimension 0, of tensors of one shape. */
  function Stack(ts: seq<Tensor>): Tensor
    requires ts != []
  {
    Tensor([|ts|] + ts[0].shape, i => if i != [] && i[0] < |ts| then ts[i[0]].at(i[1..]) else 0.0)
  }

  function Heights(ts: seq<Tensor>): (hs: seq<nat>)
    ensures |hs| == |ts|
  {
    seq(|ts|, k requires 0 <= k < |ts| => if ts[k].shape == [] then 0 else ts[k].shape[0])
  }

  function Total(hs: seq<nat>): nat {
    if hs == [] then 0 else hs[0] + Total(hs[1..])
  }

  /** Which of the pieces laid one after another holds row `r`, and at which of its own rows. */
  function Pick(hs: seq<nat>, r: nat): (p: (nat, nat))
    requires r < Total(hs)
    ensures p.0 < |hs| && p.1 < hs[p.0]
  {
    if r < hs[0] then (0, r)
    else
      var p := Pick(hs[1..], r - hs[0]);
      (p.0 + 1, p.1)
  }

  lemma {:induction false} PickIs(hs: seq<nat>, r: nat)
    requires r < Total(hs)
    ensures Total(hs[..Pick(hs, r).0]) + Pick(hs, r).1 == r
  {
    if hs[0] <= r {
      PickIs(hs[1..], r - hs[0]);
      var k := Pick(hs[1..], r - hs[0]).0;
      assert hs[..k + 1][1..] == hs[1..][..k];
    }
  }

  /** torch.cat at dimension 0, of tensors that agree in the other dimensions. */
  function Cat(ts: seq<Tensor>): Tensor
    requires ts != [] && ts[0].shape != []
  {
    var hs := Heights(ts);
    Tensor([Total(hs)] + ts[0].shape[1..],
           i => if i != [] && i[0] < Total(hs) then
                  var p := Pick(hs, i[0]);
                  ts[p.0].at([p.1] + i[1..])
                else 0.0)
  }
}
