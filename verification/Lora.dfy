/** LoraTorchTensor: a pair of thin factors A (rank x row) and B (col x rank), with any number of
    leading dimensions, that stands for the product B.A without forming it. Every operation is
    related to the same operation on the product. */
module Lora {
  import opened Text
  import opened Tensors

  /** What a Python call comes to: a value, or the exception it raises. */
  datatype Error =
    | AssertionError | NotImplementedError | IndexError | ValueError | RuntimeError | ZeroDivisionError

  datatype Outcome<T> = Ok(value: T) | Raises(error: Error)

  datatype Lora = Lora(a: Tensor, b: Tensor)

  predicate Valid(l: Lora) {
    && |l.a.shape| == |l.b.shape| >= 2
    && l.a.shape[|l.a.shape| - 2] == l.b.shape[|l.b.shape| - 1]
  }

  /** The constructor. */
  function Make(a: Tensor, b: Tensor): (r: Outcome<Lora>)
    ensures r.Ok? <==> Valid(Lora(a, b))
    ensures r.Ok? ==> r.value == Lora(a, b)
  {
    if |a.shape| != |b.shape| then Raises(AssertionError)
    else if |a.shape| < 2 then Raises(IndexError)
    else if a.shape[|a.shape| - 2] != b.shape[|b.shape| - 1] then Raises(AssertionError)
    else Ok(Lora(a, b))
  }

  function Dims(l: Lora): nat
    requires Valid(l)
  {
    |l.b.shape|
  }

  function Rank(l: Lora): nat
    requires Valid(l)
  {
    l.b.shape[Dims(l) - 1]
  }

  function RowSize(l: Lora): nat
    requires Valid(l)
  {
    l.a.shape[Dims(l) - 1]
  }

  /** The `shape` property. */
  function Shape(l: Lora): (s: seq<nat>)
    requires Valid(l)
    ensures |s| == Dims(l)
  {
    l.b.shape[..Dims(l) - 1] + [RowSize(l)]
  }

  // ---------- the product it stands for ----------

  function Clamp1(n: nat, i: nat): nat {
    if n == 1 then 0 else i
  }

  /** The index broadcast to a shape: 0 where a dimension is 1. */
  function Clamp(lead: seq<nat>, i: Index): Index {
    if lead == [] || i == [] then [] else [Clamp1(lead[0], i[0])] + Clamp(lead[1..], i[1..])
  }

  function Dot(l: Lora, row: Index, lead: Index, col: nat, rank: nat): real {
    if rank == 0 then 0.0
    else Dot(l, row, lead, col, rank - 1) + l.b.at(row + [rank - 1]) * l.a.at(lead + [rank - 1, col])
  }

  /** torch.matmul(B, A): the last two dimensions multiplied, A's leading dimensions broadcast to B's. */
  function Dense(l: Lora): Tensor
    requires Valid(l)
  {
    var n := Dims(l);
    Tensor(Shape(l),
           i => if |i| == n then
                  Dot(l, i[..n - 1], Clamp(l.a.shape[..n - 2], i[..n - 2]), i[n - 1], Rank(l))
                else 0.0)
  }

  predicate Broadcasts(lead: seq<nat>, to: seq<nat>) {
    |lead| == |to| && forall d :: 0 <= d < |lead| ==> lead[d] == 1 || lead[d] == to[d]
  }

  /** A's leading dimensions can be broadcast to B's, so that the product has the shape reported. */
  predicate Matched(l: Lora) {
    Valid(l) && Broadcasts(l.a.shape[..Dims(l) - 2], l.b.shape[..Dims(l) - 2])
  }

  /** The pair stands for the tensor. */
  ghost predicate StandsFor(l: Lora, t: Tensor) {
    Matched(l) && Same(Dense(l), t)
  }

  lemma {:induction false} DotSame(l: Lora, row: Index, lead: Index, col: nat,
                                   m: Lora, row': Index, lead': Index, col': nat, rank: nat)
    requires forall r: nat :: r < rank ==> l.b.at(row + [r]) == m.b.at(row' + [r])
    requires forall r: nat :: r < rank ==> l.a.at(lead + [r, col]) == m.a.at(lead' + [r, col'])
    ensures Dot(l, row, lead, col, rank) == Dot(m, row', lead', col', rank)
  {
    if rank > 0 {
      DotSame(l, row, lead, col, m, row', lead', col', rank - 1);
    }
  }

  /** When B vanishes at all ranks but the first, a single product is left. */
  lemma {:induction false} DotFirst(l: Lora, row: Index, lead: Index, col: nat, rank: nat)
    requires rank > 0 && forall r: nat :: 0 < r < rank ==> l.b.at(row + [r]) == 0.0
    ensures Dot(l, row, lead, col, rank) == l.b.at(row + [0]) * l.a.at(lead + [0, col])
  {
    if rank > 1 {
      DotFirst(l, row, lead, col, rank - 1);
    }
  }

  lemma DenseShape(l: Lora)
    requires Valid(l)
    ensures Dense(l).shape == Shape(l)
  {
  }

  lemma DenseAt(l: Lora, lead: Index, row: nat, col: nat)
    requires Valid(l) && |lead| == Dims(l) - 2
    ensures Dense(l).at(lead + [row, col]) ==
            Dot(l, lead + [row], Clamp(l.a.shape[..Dims(l) - 2], lead), col, Rank(l))
  {
    var n, i := Dims(l), lead + [row, col];
    assert i[..n - 1] == lead + [row] && i[..n - 2] == lead;
  }

  lemma {:induction false} ClampInside(lead: seq<nat>, to: seq<nat>, i: Index)
    requires Broadcasts(lead, to) && InShape(to, i)
    ensures InShape(lead, Clamp(lead, i))
  {
    if lead != [] {
      assert Broadcasts(lead[1..], to[1..]) && InShape(to[1..], i[1..]);
      ClampInside(lead[1..], to[1..], i[1..]);
      assert Clamp1(lead[0], i[0]) < lead[0];
    }
  }

  /** The product depends on the factors' elements only. */
  lemma FactorsDecide(l: Lora, m: Lora)
    requires Matched(l) && Same(l.a, m.a) && Same(l.b, m.b)
    ensures Matched(m) && Same(Dense(l), Dense(m))
  {
    var n, rank := Dims(l), Rank(l);
    forall i | InShape(Dense(l).shape, i)
      ensures Dense(l).at(i) == Dense(m).at(i)
    {
      var lead, p, q := i[..n - 2], i[n - 2], i[n - 1];
      assert i == lead + [p, q];
      ElementDecided(l, m, lead, p, q);
    }
  }

  lemma InShapeTwo(a: seq<nat>, m: nat, n: nat, i: Index, p: nat, q: nat)
    requires InShape(a, i) && p < m && q < n
    ensures InShape(a + [m, n], i + [p, q])
  {
  }

  /** An element of the product is made of elements that both factors have. */
  lemma ElementInside(l: Lora, lead: Index, p: nat, q: nat, k: nat)
    requires Matched(l) && InShape(Shape(l), lead + [p, q]) && k < Rank(l)
    ensures |lead| == Dims(l) - 2
    ensures InShape(l.b.shape, lead + [p, k])
    ensures InShape(l.a.shape, Clamp(l.a.shape[..Dims(l) - 2], lead) + [k, q])
  {
    var n, rank := Dims(l), Rank(l);
    var la, lb, rows := l.a.shape[..n - 2], l.b.shape[..n - 2], l.b.shape[n - 2];
    ShapeParts(l);
    hide Clamp, InShape, Shape, Valid, Rank, RowSize;
    InShapeParts(lb, rows, RowSize(l), lead, p, q);
    InShapeTwo(lb, rows, rank, lead, p, k);
    SameLength(lb, lead);
    ClampInside(la, lb, lead);
    InShapeTwo(la, rank, RowSize(l), Clamp(la, lead), k, q);
  }

  lemma ShapeParts(l: Lora)
    requires Valid(l)
    ensures l.a.shape == l.a.shape[..Dims(l) - 2] + [Rank(l), RowSize(l)]
    ensures l.b.shape == l.b.shape[..Dims(l) - 2] + [l.b.shape[Dims(l) - 2], Rank(l)]
    ensures Shape(l) == l.b.shape[..Dims(l) - 2] + [l.b.shape[Dims(l) - 2], RowSize(l)]
  {
  }

  lemma SameLength(shape: seq<nat>, i: Index)
    requires InShape(shape, i)
    ensures |i| == |shape|
  {
  }

  lemma InShapeParts(a: seq<nat>, m: nat, n: nat, i: Index, p: nat, q: nat)
    requires InShape(a + [m, n], i + [p, q])
    ensures InShape(a, i) && p < m && q < n
  {
    InShapeSplit(a, [m, n], i + [p, q]);
    assert (i + [p, q])[..|a|] == i;
    assert (i + [p, q])[|a|] == p && (i + [p, q])[|a| + 1] == q;
    assert (a + [m, n])[|a|] == m && (a + [m, n])[|a| + 1] == n;
  }

  lemma ElementDecided(l: Lora, m: Lora, lead: Index, p: nat, q: nat)
    requires Matched(l) && Same(l.a, m.a) && Same(l.b, m.b) && Valid(m) && |lead| == Dims(l) - 2
    requires InShape(Shape(l), lead + [p, q])
    ensures Dense(l).at(lead + [p, q]) == Dense(m).at(lead + [p, q])
  {
    hide Dense, Dot, Clamp, InShape, Shape, Broadcasts;
    var rank, at := Rank(l), Clamp(l.a.shape[..Dims(l) - 2], lead);
    DenseAt(l, lead, p, q);
    DenseAt(m, lead, p, q);
    forall k: nat | k < rank
      ensures l.b.at((lead + [p]) + [k]) == m.b.at((lead + [p]) + [k])
      ensures l.a.at(at + [k, q]) == m.a.at(at + [k, q])
    {
      assert (lead + [p]) + [k] == lead + [p, k];
      ElementInside(l, lead, p, q, k);
    }
    DotSame(l, lead + [p], at, q, m, lead + [p], at, q, rank);
  }

  // ---------- selecting from both factors ----------

  function Ascending(n: nat): (r: seq<nat>)
    ensures |r| == n && forall k :: 0 <= k < n ==> r[k] == k
  {
    seq(n, k requires 0 <= k < n => k)
  }

  function All(n: nat): Sel {
    Keep(Ascending(n))
  }

  predicate Paired(x: Sel, y: Sel) {
    x.Keep? == y.Keep?
  }

  predicate Fits(x: Sel, y: Sel)
    requires Paired(x, y)
  {
    x.Keep? ==> |x.list| == 1 || |x.list| == |y.list|
  }

  /** What is selected from a dimension of A goes with what is selected from that dimension of B. */
  predicate Tracks(x: Sel, y: Sel, na: nat) {
    && Paired(x, y)
    && (x.Drop? ==> x.i == Clamp1(na, y.i))
    && (x.Keep? && Fits(x, y) ==>
          forall k :: 0 <= k < |y.list| ==> x.list[Clamp1(|x.list|, k)] == Clamp1(na, y.list[k]))
  }

  predicate AllPaired(sa: seq<Sel>, sb: seq<Sel>) {
    |sa| == |sb| && forall d :: 0 <= d < |sa| ==> Paired(sa[d], sb[d])
  }

  predicate AllFit(sa: seq<Sel>, sb: seq<Sel>)
    requires AllPaired(sa, sb)
  {
    forall d :: 0 <= d < |sa| ==> Fits(sa[d], sb[d])
  }

  predicate AllTrack(sa: seq<Sel>, sb: seq<Sel>, lead: seq<nat>) {
    |sa| == |sb| == |lead| && forall d :: 0 <= d < |sa| ==> Tracks(sa[d], sb[d], lead[d])
  }

  /** What is kept of A's leading dimensions broadcasts to what is kept of B's just when each part fits. */
  lemma {:induction false} KeptBroadcasts(sa: seq<Sel>, sb: seq<Sel>)
    requires AllPaired(sa, sb)
    ensures |KeptShape(sa)| == |KeptShape(sb)|
    ensures Broadcasts(KeptShape(sa), KeptShape(sb)) <==> AllFit(sa, sb)
    decreases |sa|
  {
    if sa != [] {
      assert AllPaired(sa[1..], sb[1..]);
      KeptBroadcasts(sa[1..], sb[1..]);
      AllFitStep(sa, sb);
      BroadcastsStep(sa, sb);
    }
  }

  lemma AllFitStep(sa: seq<Sel>, sb: seq<Sel>)
    requires AllPaired(sa, sb) && sa != [] && AllPaired(sa[1..], sb[1..])
    ensures AllFit(sa, sb) <==> Fits(sa[0], sb[0]) && AllFit(sa[1..], sb[1..])
  {
    if AllFit(sa[1..], sb[1..]) && Fits(sa[0], sb[0]) {
      forall d | 0 <= d < |sa|
        ensures Fits(sa[d], sb[d])
      {
        if d > 0 {
          assert sa[1..][d - 1] == sa[d] && sb[1..][d - 1] == sb[d];
        }
      }
    }
  }

  lemma BroadcastsStep(sa: seq<Sel>, sb: seq<Sel>)
    requires AllPaired(sa, sb) && sa != []
    requires |KeptShape(sa[1..])| == |KeptShape(sb[1..])|
    ensures |KeptShape(sa)| == |KeptShape(sb)|
    ensures Broadcasts(KeptShape(sa), KeptShape(sb)) <==>
            Fits(sa[0], sb[0]) && Broadcasts(KeptShape(sa[1..]), KeptShape(sb[1..]))
  {
    var x, y := KeptShape(sa[1..]), KeptShape(sb[1..]);
    KeptCons(sa[0], sa[1..]);
    KeptCons(sb[0], sb[1..]);
    assert sa == [sa[0]] + sa[1..] && sb == [sb[0]] + sb[1..];
    if sa[0].Keep? {
      BroadcastsCons(|sa[0].list|, x, |sb[0].list|, y);
    }
  }

  lemma BroadcastsCons(m: nat, x: seq<nat>, n: nat, y: seq<nat>)
    requires |x| == |y|
    ensures Broadcasts([m] + x, [n] + y) <==> (m == 1 || m == n) && Broadcasts(x, y)
  {
    var p, q := [m] + x, [n] + y;
    if Broadcasts(p, q) {
      forall d | 0 <= d < |x|
        ensures x[d] == 1 || x[d] == y[d]
      {
        assert p[d + 1] == x[d] && q[d + 1] == y[d];
      }
      assert p[0] == m && q[0] == n;
    }
  }

  lemma KeptCons(x: Sel, s: seq<Sel>)
    ensures KeptShape([x] + s) == if x.Keep? then [|x.list|] + KeptShape(s) else KeptShape(s)
  {
    assert ([x] + s)[1..] == s;
  }

  lemma SourceCons(x: Sel, s: seq<Sel>, i: Index)
    ensures x.Drop? ==> Source([x] + s, i) == [x.i] + Source(s, i)
    ensures x.Keep? && i != [] && i[0] < |x.list| ==> Source([x] + s, i) == [x.list[i[0]]] + Source(s, i[1..])
  {
    assert ([x] + s)[1..] == s;
  }

  lemma ClampCons(n: nat, lead: seq<nat>, c: nat, i: Index)
    ensures Clamp([n] + lead, [c] + i) == [Clamp1(n, c)] + Clamp(lead, i)
  {
    assert ([n] + lead)[1..] == lead && ([c] + i)[1..] == i;
  }

  lemma InShapeCons(n: nat, s: seq<nat>, c: nat, i: Index)
    ensures InShape([n] + s, [c] + i) <==> c < n && InShape(s, i)
  {
    if InShape([n] + s, [c] + i) {
      InShapeSplit([n], s, [c] + i);
      assert ([c] + i)[1..] == i;
      assert ([n] + s)[0] == n;
    }
  }

  /** Selecting and broadcasting the index can be exchanged. */
  lemma {:induction false} SelectionTracks(sa: seq<Sel>, sb: seq<Sel>, lead: seq<nat>, i: Index)
    requires AllTrack(sa, sb, lead) && AllPaired(sa, sb) && AllFit(sa, sb)
    requires InShape(KeptShape(sb), i)
    ensures Source(sa, Clamp(KeptShape(sa), i)) == Clamp(lead, Source(sb, i))
    ensures InShape(KeptShape(sa), Clamp(KeptShape(sa), i))
    decreases |sa|
  {
    if sa != [] {
      var x, y, n, ta, tb, rest := sa[0], sb[0], lead[0], sa[1..], sb[1..], lead[1..];
      assert sa == [x] + ta && sb == [y] + tb && lead == [n] + rest;
      assert Tracks(x, y, n) && Fits(x, y);
      assert AllTrack(ta, tb, rest) && AllPaired(ta, tb) && AllFit(ta, tb);
      hide KeptShape, Source, Clamp, AllTrack, AllPaired, AllFit, InShape, Tracks;
      KeptCons(y, tb);
      if y.Drop? {
        SelectionTracks(ta, tb, rest, i);
        DropTracks(x, y, n, ta, tb, rest, i);
      } else {
        var c, j := i[0], i[1..];
        assert i == [c] + j;
        InShapeCons(|y.list|, KeptShape(tb), c, j);
        SelectionTracks(ta, tb, rest, j);
        KeepTracks(x, y, n, ta, tb, rest, c, j);
      }
    }
  }

  lemma DropTracks(x: Sel, y: Sel, n: nat, sa: seq<Sel>, sb: seq<Sel>, lead: seq<nat>, i: Index)
    requires y.Drop? && Tracks(x, y, n)
    requires Source(sa, Clamp(KeptShape(sa), i)) == Clamp(lead, Source(sb, i))
    requires InShape(KeptShape(sa), Clamp(KeptShape(sa), i))
    ensures var kept := KeptShape([x] + sa);
      Source([x] + sa, Clamp(kept, i)) == Clamp([n] + lead, Source([y] + sb, i)) && InShape(kept, Clamp(kept, i))
  {
    hide KeptShape, Source, Clamp, InShape;
    KeptCons(x, sa);
    SourceCons(x, sa, Clamp(KeptShape(sa), i));
    SourceCons(y, sb, i);
    ClampCons(n, lead, y.i, Source(sb, i));
  }

  lemma KeepTracks(x: Sel, y: Sel, n: nat, sa: seq<Sel>, sb: seq<Sel>, lead: seq<nat>, c: nat, j: Index)
    requires y.Keep? && Tracks(x, y, n) && Fits(x, y) && c < |y.list|
    requires Source(sa, Clamp(KeptShape(sa), j)) == Clamp(lead, Source(sb, j))
    requires InShape(KeptShape(sa), Clamp(KeptShape(sa), j))
    ensures var i, kept := [c] + j, KeptShape([x] + sa);
      Source([x] + sa, Clamp(kept, i)) == Clamp([n] + lead, Source([y] + sb, i)) && InShape(kept, Clamp(kept, i))
  {
    hide KeptShape, Source, Clamp, InShape;
    var i, m, cl := [c] + j, |x.list|, Clamp(KeptShape(sa), j);
    var c' := Clamp1(m, c);
    KeptCons(x, sa);
    ClampCons(m, KeptShape(sa), c, j);
    InShapeCons(m, KeptShape(sa), c', cl);
    SourceCons(x, sa, [c'] + cl);
    assert ([c'] + cl)[1..] == cl && i[1..] == j;
    SourceCons(y, sb, i);
    ClampCons(n, lead, y.list[c], Source(sb, j));
  }

  /** Both factors cut: leading dimensions as given, the rows of B and the columns of A. */
  function Cut(l: Lora, sa: seq<Sel>, sb: seq<Sel>, rows: Sel, cols: Sel): Lora
    requires Valid(l)
  {
    Lora(Select(l.a, sa + [All(Rank(l)), cols]), Select(l.b, sb + [rows, All(Rank(l))]))
  }

  lemma KeptTwo(s: seq<Sel>, x: Sel, y: Sel)
    requires x.Keep? && y.Keep?
    ensures KeptShape(s + [x, y]) == KeptShape(s) + [|x.list|, |y.list|]
  {
    KeptShapeConcat(s, [x, y]);
    assert [x, y][1..] == [y] && [y][1..] == [];
    assert KeptShape([y]) == [|y.list|];
    assert KeptShape([x, y]) == [|x.list|, |y.list|];
  }

  lemma SourceTwo(s: seq<Sel>, x: Sel, y: Sel, i: Index, p: nat, q: nat)
    requires x.Keep? && y.Keep? && p < |x.list| && q < |y.list| && InShape(KeptShape(s), i)
    ensures Source(s + [x, y], i + [p, q]) == Source(s, i) + [x.list[p], y.list[q]]
  {
    SourceConcat(s, [x, y], i, [p, q]);
    assert [x, y][1..] == [y] && [p, q][1..] == [q] && [y][1..] == [] && [q][1..] == [];
    assert Source([y], [q]) == [y.list[q]];
    assert Source([x, y], [p, q]) == [x.list[p], y.list[q]];
  }

  lemma {:induction false} SourceLength(s: seq<Sel>, i: Index)
    requires InShape(KeptShape(s), i)
    ensures |Source(s, i)| == |s|
  {
    if s != [] {
      if s[0].Keep? {
        assert KeptShape(s) == [|s[0].list|] + KeptShape(s[1..]);
        InShapeSplit([|s[0].list|], KeptShape(s[1..]), i);
        SourceLength(s[1..], i[1..]);
      } else {
        SourceLength(s[1..], i);
      }
    }
  }

  lemma CutShape(l: Lora, sa: seq<Sel>, sb: seq<Sel>, rows: Sel, cols: Sel)
    requires Valid(l) && rows.Keep? && cols.Keep? && AllPaired(sa, sb)
    ensures var r := Cut(l, sa, sb, rows, cols);
      && Valid(r) && Rank(r) == Rank(l)
      && Dims(r) == |KeptShape(sa)| + 2 && |KeptShape(sa)| == |KeptShape(sb)|
      && r.a.shape[..Dims(r) - 2] == KeptShape(sa) && r.b.shape[..Dims(r) - 2] == KeptShape(sb)
      && Shape(r) == KeptShape(sb + [rows, cols])
      && (Matched(r) <==> AllFit(sa, sb))
  {
    hide KeptShape;
    KeptTwo(sa, All(Rank(l)), cols);
    KeptTwo(sb, rows, All(Rank(l)));
    KeptTwo(sb, rows, cols);
    KeptBroadcasts(sa, sb);
    var r := Cut(l, sa, sb, rows, cols);
    assert r.a.shape[..Dims(r) - 2] == KeptShape(sa) && r.b.shape[..Dims(r) - 2] == KeptShape(sb);
  }

  lemma CutElement(l: Lora, sa: seq<Sel>, sb: seq<Sel>, rows: Sel, cols: Sel, lead: Index, p: nat, q: nat)
    requires Valid(l) && rows.Keep? && cols.Keep? && p < |rows.list| && q < |cols.list|
    requires AllTrack(sa, sb, l.a.shape[..Dims(l) - 2]) && AllPaired(sa, sb) && AllFit(sa, sb)
    requires InShape(KeptShape(sb), lead)
    requires Valid(Cut(l, sa, sb, rows, cols))
    ensures Dense(Cut(l, sa, sb, rows, cols)).at(lead + [p, q]) ==
            Select(Dense(l), sb + [rows, cols]).at(lead + [p, q])
  {
    hide KeptShape, Source, AllFit, Dense, Clamp, Dot;
    var r, rank, from := Cut(l, sa, sb, rows, cols), Rank(l), Source(sb, lead);
    CutShape(l, sa, sb, rows, cols);
    SelectionTracks(sa, sb, l.a.shape[..Dims(l) - 2], lead);
    SourceLength(sb, lead);
    DenseAt(r, lead, p, q);
    SourceTwo(sb, rows, cols, lead, p, q);
    DenseAt(l, from, rows.list[p], cols.list[q]);
    var ra, la := Clamp(KeptShape(sa), lead), Clamp(l.a.shape[..Dims(l) - 2], from);
    forall k: nat | k < rank
      ensures r.b.at((lead + [p]) + [k]) == l.b.at((from + [rows.list[p]]) + [k])
      ensures r.a.at(ra + [k, q]) == l.a.at(la + [k, cols.list[q]])
    {
      SourceTwo(sb, rows, All(rank), lead, p, k);
      assert (lead + [p]) + [k] == lead + [p, k];
      assert (from + [rows.list[p]]) + [k] == from + [rows.list[p], k];
      SourceTwo(sa, All(rank), cols, ra, k, q);
    }
    DotSame(r, lead + [p], ra, q, l, from + [rows.list[p]], la, cols.list[q], rank);
  }

  /** Cutting the factors cuts the product, whenever what is left of A still broadcasts to what is
      left of B. */
  lemma CutCommutes(l: Lora, sa: seq<Sel>, sb: seq<Sel>, rows: Sel, cols: Sel)
    requires Valid(l) && rows.Keep? && cols.Keep?
    requires AllTrack(sa, sb, l.a.shape[..Dims(l) - 2]) && AllPaired(sa, sb)
    ensures Valid(Cut(l, sa, sb, rows, cols))
    ensures Matched(Cut(l, sa, sb, rows, cols)) <==> AllFit(sa, sb)
    ensures AllFit(sa, sb) ==>
              StandsFor(Cut(l, sa, sb, rows, cols), Select(Dense(l), sb + [rows, cols]))
  {
    hide KeptShape, Source, Dense, AllTrack, AllFit;
    var r := Cut(l, sa, sb, rows, cols);
    CutShape(l, sa, sb, rows, cols);
    if AllFit(sa, sb) {
      var t := Select(Dense(l), sb + [rows, cols]);
      DenseShape(r);
      forall i | InShape(Dense(r).shape, i)
        ensures Dense(r).at(i) == t.at(i)
      {
        KeptTwo(sb, rows, cols);
        InShapeSplit(KeptShape(sb), [|rows.list|, |cols.list|], i);
        CutElement(l, sa, sb, rows, cols, i[..|i| - 2], i[|i| - 2], i[|i| - 1]);
        assert i == i[..|i| - 2] + [i[|i| - 2], i[|i| - 1]];
      }
    }
  }

  // ---------- indexing ----------

  datatype Sub = Int(i: int) | Slice(lo: Option<int>, hi: Option<int>, step: Option<int>)

  const FULL := Slice(None, None, None)

  function Bound(x: Option<int>, unset: nat, n: nat): (b: nat)
    requires unset <= n
    ensures b <= n
  {
    match x
    case None => unset
    case Some(v) => var w := if v < 0 then v + n else v; if w < 0 then 0 else if w > n then n else w
  }

  function Positions(lo: nat, hi: nat, step: nat): (p: seq<nat>)
    requires step > 0
    ensures forall k :: 0 <= k < |p| ==> p[k] < hi
    decreases hi - lo
  {
    if lo < hi then [lo] + Positions(lo + step, hi, step) else []
  }

  /** What one entry of an index selects from a dimension of `n`, as torch reads it. */
  function Resolve(s: Sub, n: nat): (r: Outcome<Sel>)
    ensures r.Ok? ==> SelOk(r.value, n) && (r.value.Keep? <==> s.Slice?)
  {
    match s
    case Int(i) =>
      if 0 <= i + n && i < n then Ok(Drop(if i < 0 then i + n else i)) else Raises(IndexError)
    case Slice(lo, hi, step) =>
      var stride := if step.Some? then step.value else 1;
      if stride <= 0 then Raises(ValueError)
      else Ok(Keep(Positions(Bound(lo, 0, n), Bound(hi, n, n), stride)))
  }

  predicate AllResolve(subs: seq<Sub>, shape: seq<nat>) {
    |subs| == |shape| && forall d :: 0 <= d < |subs| ==> Resolve(subs[d], shape[d]).Ok?
  }

  function FirstError(subs: seq<Sub>, shape: seq<nat>): (e: Option<Error>)
    requires |subs| == |shape|
    ensures e.None? <==> AllResolve(subs, shape)
  {
    if subs == [] then None
    else
      var r := Resolve(subs[0], shape[0]);
      if r.Raises? then Some(r.error)
      else
        assert AllResolve(subs[1..], shape[1..]) ==>
            forall d :: 0 < d < |subs| ==> subs[d] == subs[1..][d - 1] && shape[d] == shape[1..][d - 1];
        FirstError(subs[1..], shape[1..])
  }

  function Sels(subs: seq<Sub>, shape: seq<nat>): (r: seq<Sel>)
    requires AllResolve(subs, shape)
    ensures |r| == |subs|
  {
    seq(|subs|, d requires 0 <= d < |subs| => Resolve(subs[d], shape[d]).value)
  }

  function Fulls(n: nat): (r: seq<Sub>)
    ensures |r| == n
  {
    seq(n, _ => FULL)
  }

  function Padded(subs: seq<Sub>, n: nat): seq<Sub> {
    if |subs| < n then subs + Fulls(n - |subs|) else subs
  }

  /** torch's own indexing, by entries and slices; dimensions not mentioned are kept whole. */
  function TorchIndex(t: Tensor, subs: seq<Sub>): Outcome<Tensor> {
    var all := Padded(subs, |t.shape|);
    if |all| > |t.shape| then Raises(IndexError)
    else
      match FirstError(all, t.shape)
      case Some(e) => Raises(e)
      case None => Ok(Select(t, Sels(all, t.shape)))
  }

  /** Python evaluates A's argument, then B's, then the constructor. */
  function Both(a: Outcome<Tensor>, b: Outcome<Tensor>): Outcome<Lora> {
    match a
    case Raises(e) => Raises(e)
    case Ok(ta) =>
      match b
      case Raises(e) => Raises(e)
      case Ok(tb) => Make(ta, tb)
  }

  /** __getitem__ with one integer. */
  function GetInt(l: Lora, i: int): Outcome<Lora>
    requires Valid(l)
  {
    if Dims(l) > 2 then Both(TorchIndex(l.a, [Int(i)]), TorchIndex(l.b, [Int(i)]))
    else Raises(NotImplementedError)
  }

  /** __getitem__ with one slice. */
  function GetSlice(l: Lora, s: Sub): Outcome<Lora>
    requires Valid(l) && s.Slice?
  {
    if Dims(l) > 2 then Both(TorchIndex(l.a, [s]), TorchIndex(l.b, [s]))
    else Both(Ok(l.a), TorchIndex(l.b, [s]))
  }

  datatype Item = Of(sub: Sub) | Ellipsis

  /** Every ellipsis becomes one full slice for each other entry of the tuple. */
  function Expand(items: seq<Item>, width: nat): seq<Sub> {
    if items == [] then []
    else (if items[0].Ellipsis? then Fulls(width) else [items[0].sub]) + Expand(items[1..], width)
  }

  /** The leading entries of A's index: integers taken modulo A's dimension, slices widened. */
  function LeadsForA(leads: seq<Sub>, shape: seq<nat>): Outcome<seq<Sub>> {
    if leads == [] then Ok([])
    else if leads[0].Int? && shape == [] then Raises(IndexError)
    else if leads[0].Int? && shape[0] == 0 then Raises(ZeroDivisionError)
    else
      match LeadsForA(leads[1..], if shape == [] then [] else shape[1..])
      case Raises(e) => Raises(e)
      case Ok(rest) => Ok([if leads[0].Int? then Int(leads[0].i % shape[0]) else FULL] + rest)
  }

  function GetSubs(l: Lora, subs: seq<Sub>): Outcome<Lora>
    requires Valid(l) && |subs| >= 2
  {
    var n := |subs|;
    match LeadsForA(subs[..n - 2], l.a.shape)
    case Raises(e) => Raises(e)
    case Ok(leads) => Both(TorchIndex(l.a, leads + [FULL, subs[n - 1]]), TorchIndex(l.b, subs[..n - 1]))
  }

  /** __getitem__ with a tuple. */
  function GetTuple(l: Lora, items: seq<Item>): Outcome<Lora>
    requires Valid(l)
    decreases |items|
  {
    if items == [] then Raises(AssertionError)
    else if items[|items| - 1].Ellipsis? then GetTuple(l, items[..|items| - 1])
    else GetSubs(l, Padded(Expand(items, |items| - 1), Dims(l)))
  }

  /** Positions of a slice never outnumber the dimension, and when they are as many they are all of it. */
  lemma {:induction false} PositionsWhole(lo: nat, hi: nat, step: nat)
    requires step > 0
    ensures |Positions(lo, hi, step)| <= if lo < hi then hi - lo else 0
    ensures lo <= hi && |Positions(lo, hi, step)| == hi - lo ==>
              forall k :: 0 <= k < hi - lo ==> Positions(lo, hi, step)[k] == lo + k
    ensures step == 1 && lo <= hi ==> |Positions(lo, hi, step)| == hi - lo
    decreases hi - lo
  {
    if lo < hi {
      PositionsWhole(lo + step, hi, step);
    }
  }

  lemma FullIsAll(n: nat)
    ensures Resolve(FULL, n) == Ok(All(n))
  {
    PositionsWhole(0, n, 1);
    assert Positions(0, n, 1) == Ascending(n);
  }

  /** A slice that keeps as many positions as there are keeps them all, in order. */
  lemma SliceWhole(s: Sub, n: nat)
    requires s.Slice? && Resolve(s, n).Ok?
    ensures |Resolve(s, n).value.list| == n ==> forall k :: 0 <= k < n ==> Resolve(s, n).value.list[k] == k
  {
    var lo, hi := Bound(s.lo, 0, n), Bound(s.hi, n, n);
    PositionsWhole(lo, hi, if s.step.Some? then s.step.value else 1);
  }

  /** The pair that comes of indexing A by `subsA` and B by `subsB`. */
  function Picked(l: Lora, subsA: seq<Sub>, subsB: seq<Sub>): Lora
    requires AllResolve(subsA, l.a.shape) && AllResolve(subsB, l.b.shape)
  {
    Lora(Select(l.a, Sels(subsA, l.a.shape)), Select(l.b, Sels(subsB, l.b.shape)))
  }

  lemma PickedCommutes(l: Lora, subsA: seq<Sub>, subsB: seq<Sub>)
    requires Valid(l) && AllResolve(subsA, l.a.shape) && AllResolve(subsB, l.b.shape)
    requires var n := Dims(l);
      subsA[n - 2] == FULL && subsB[n - 1] == FULL && subsA[n - 1].Slice? && subsB[n - 2].Slice?
    requires var n := Dims(l);
      AllTrack(Sels(subsA, l.a.shape)[..n - 2], Sels(subsB, l.b.shape)[..n - 2], l.a.shape[..n - 2])
    ensures AllResolve(subsB[..Dims(l) - 1] + [subsA[Dims(l) - 1]], Shape(l))
    ensures Valid(Picked(l, subsA, subsB))
    ensures var sa, sb := Sels(subsA, l.a.shape)[..Dims(l) - 2], Sels(subsB, l.b.shape)[..Dims(l) - 2];
      AllPaired(sa, sb) && (Matched(Picked(l, subsA, subsB)) <==> AllFit(sa, sb))
    ensures Matched(Picked(l, subsA, subsB)) ==>
              StandsFor(Picked(l, subsA, subsB),
                        Select(Dense(l), Sels(subsB[..Dims(l) - 1] + [subsA[Dims(l) - 1]], Shape(l))))
  {
    var n := Dims(l);
    var spec := subsB[..n - 1] + [subsA[n - 1]];
    var a, b := Sels(subsA, l.a.shape), Sels(subsB, l.b.shape);
    var sa, sb, rows, cols := a[..n - 2], b[..n - 2], b[n - 2], a[n - 1];
    assert AllResolve(spec, Shape(l));
    FullIsAll(Rank(l));
    hide Resolve, Select, Dense, AllTrack, AllFit, Matched, StandsFor, Cut;
    assert a == sa + [All(Rank(l)), cols];
    assert b == sb + [rows, All(Rank(l))];
    assert Sels(spec, Shape(l)) == sb + [rows, cols];
    CutIs(l, sa, sb, rows, cols);
    assert AllPaired(sa, sb) by { TrackPaired(sa, sb, l.a.shape[..n - 2]); }
    CutCommutes(l, sa, sb, rows, cols);
  }

  lemma TrackPaired(sa: seq<Sel>, sb: seq<Sel>, lead: seq<nat>)
    requires AllTrack(sa, sb, lead)
    ensures AllPaired(sa, sb)
  {
  }

  lemma CutIs(l: Lora, sa: seq<Sel>, sb: seq<Sel>, rows: Sel, cols: Sel)
    requires Valid(l)
    ensures Cut(l, sa, sb, rows, cols) ==
            Lora(Select(l.a, sa + [All(Rank(l)), cols]), Select(l.b, sb + [rows, All(Rank(l))]))
  {
  }

  // ---------- one index, or one slice ----------

  lemma PaddedOne(s: Sub, n: nat)
    requires n > 0
    ensures Padded([s], n) == [s] + Fulls(n - 1)
  {
    assert Fulls(0) == [];
  }

  lemma {:induction false} OneResolves(s: Sub, shape: seq<nat>)
    requires shape != []
    ensures AllResolve([s] + Fulls(|shape| - 1), shape) <==> Resolve(s, shape[0]).Ok?
  {
    var subs := [s] + Fulls(|shape| - 1);
    if Resolve(s, shape[0]).Ok? {
      forall d | 0 <= d < |shape|
        ensures Resolve(subs[d], shape[d]).Ok?
      {
        if d > 0 {
          FullIsAll(shape[d]);
        }
      }
    } else {
      assert subs[0] == s;
    }
  }

  lemma TorchIndexOne(t: Tensor, s: Sub)
    requires t.shape != []
    ensures var subs := [s] + Fulls(|t.shape| - 1);
      && (AllResolve(subs, t.shape) <==> Resolve(s, t.shape[0]).Ok?)
      && (TorchIndex(t, [s]).Ok? <==> Resolve(s, t.shape[0]).Ok?)
      && (TorchIndex(t, [s]).Ok? ==> TorchIndex(t, [s]).value == Select(t, Sels(subs, t.shape)))
  {
    PaddedOne(s, |t.shape|);
    OneResolves(s, t.shape);
  }

  lemma FirstTracks(s: Sub, na: nat, nb: nat)
    requires na == 1 || na == nb
    requires Resolve(s, na).Ok? && Resolve(s, nb).Ok?
    ensures Tracks(Resolve(s, na).value, Resolve(s, nb).value, na)
  {
    if s.Slice? && na == 1 {
      PositionsWhole(Bound(s.lo, 0, 1), Bound(s.hi, 1, 1), if s.step.Some? then s.step.value else 1);
    }
  }

  lemma AllTracks(na: nat, nb: nat)
    requires na == 1 || na == nb
    ensures Tracks(All(na), All(nb), na) && Fits(All(na), All(nb))
  {
  }

  lemma OneIsRight(l: Lora, s: Sub)
    requires Matched(l) && Dims(l) > 2
    ensures var g, t := Both(TorchIndex(l.a, [s]), TorchIndex(l.b, [s])), TorchIndex(Dense(l), [s]);
      && (g.Ok? <==> Resolve(s, l.a.shape[0]).Ok? && Resolve(s, l.b.shape[0]).Ok?)
      && (t.Ok? <==> Resolve(s, l.b.shape[0]).Ok?)
      && (g.Ok? ==> (StandsFor(g.value, t.value) <==>
                     Fits(Resolve(s, l.a.shape[0]).value, Resolve(s, l.b.shape[0]).value)))
  {
    var n, na, nb := Dims(l), l.a.shape[0], l.b.shape[0];
    var subs := [s] + Fulls(n - 1);
    DenseShape(l);
    TorchIndexOne(l.a, s);
    TorchIndexOne(l.b, s);
    TorchIndexOne(Dense(l), s);
    if Resolve(s, na).Ok? && Resolve(s, nb).Ok? {
      var sa, sb, lead := Sels(subs, l.a.shape)[..n - 2], Sels(subs, l.b.shape)[..n - 2], l.a.shape[..n - 2];
      OneTracks(l, s);
      assert subs[..n - 1] + [subs[n - 1]] == subs;
      hide Resolve, Select, Dense, AllTrack, Matched, StandsFor, TorchIndex;
      PickedCommutes(l, subs, subs);
      assert Picked(l, subs, subs) == Lora(Select(l.a, Sels(subs, l.a.shape)), Select(l.b, Sels(subs, l.b.shape)));
      StandsForMatched(Picked(l, subs, subs), Select(Dense(l), Sels(subs, Shape(l))));
    }
  }

  lemma StandsForMatched(l: Lora, t: Tensor)
    ensures StandsFor(l, t) ==> Matched(l)
  {
  }

  lemma OneTracks(l: Lora, s: Sub)
    requires Matched(l) && Dims(l) > 2
    requires Resolve(s, l.a.shape[0]).Ok? && Resolve(s, l.b.shape[0]).Ok?
    requires AllResolve([s] + Fulls(Dims(l) - 1), l.a.shape) && AllResolve([s] + Fulls(Dims(l) - 1), l.b.shape)
    ensures var n, subs := Dims(l), [s] + Fulls(Dims(l) - 1);
      var sa, sb := Sels(subs, l.a.shape)[..n - 2], Sels(subs, l.b.shape)[..n - 2];
      && AllTrack(sa, sb, l.a.shape[..n - 2]) && AllPaired(sa, sb)
      && (AllFit(sa, sb) <==> Fits(Resolve(s, l.a.shape[0]).value, Resolve(s, l.b.shape[0]).value))
  {
    var n, subs := Dims(l), [s] + Fulls(Dims(l) - 1);
    var sa, sb := Sels(subs, l.a.shape)[..n - 2], Sels(subs, l.b.shape)[..n - 2];
    var la, lb := l.a.shape[..n - 2], l.b.shape[..n - 2];
    forall d | 0 <= d < n - 2
      ensures Tracks(sa[d], sb[d], la[d]) && (d > 0 ==> Fits(sa[d], sb[d]))
    {
      assert la[d] == 1 || la[d] == lb[d];
      if d == 0 {
        FirstTracks(s, la[0], lb[0]);
      } else {
        FullIsAll(la[d]);
        FullIsAll(lb[d]);
        AllTracks(la[d], lb[d]);
      }
    }
  }

  /** Taking one matrix of a stack works whenever it works for the product, except that a factor A
      shared by the whole stack has only its place 0 (or -1); and the result is right. */
  lemma IntIsRight(l: Lora, i: int)
    requires Matched(l) && Dims(l) > 2
    ensures GetInt(l, i).Ok? <==>
            TorchIndex(Dense(l), [Int(i)]).Ok? && (l.a.shape[0] == 1 ==> i == 0 || i == -1)
    ensures GetInt(l, i).Ok? ==> StandsFor(GetInt(l, i).value, TorchIndex(Dense(l), [Int(i)]).value)
  {
    OneIsRight(l, Int(i));
  }

  /** Slicing a stack: right unless A is shared by the whole stack and the slice leaves its one place out. */
  lemma SliceIsRight(l: Lora, s: Sub)
    requires Matched(l) && Dims(l) > 2 && s.Slice?
    ensures GetSlice(l, s).Ok? <==> TorchIndex(Dense(l), [s]).Ok?
    ensures GetSlice(l, s).Ok? ==>
              (StandsFor(GetSlice(l, s).value, TorchIndex(Dense(l), [s]).value) <==>
               || l.a.shape[0] == l.b.shape[0] || |Resolve(s, 1).value.list| == 1
               || Resolve(s, l.b.shape[0]).value.list == [])
  {
    OneIsRight(l, s);
    FirstShort(s);
  }

  function Filled(shape: seq<nat>): Tensor {
    Tensor(shape, _ => 1.0)
  }

  /** Two matrices that share one A, and the slice 1: of them: A has nothing left for the second matrix. */
  const SHARED := Lora(Filled([1, 1, 1]), Filled([2, 1, 1]))
  const SECOND := Slice(Some(1), None, None)

  lemma SliceFails()
    ensures Matched(SHARED) && GetSlice(SHARED, SECOND).Ok? && TorchIndex(Dense(SHARED), [SECOND]).Ok?
    ensures !StandsFor(GetSlice(SHARED, SECOND).value, TorchIndex(Dense(SHARED), [SECOND]).value)
  {
    assert Positions(1, 1, 1) == [] && Positions(1, 2, 1) == [1] + Positions(2, 2, 1);
    DenseShape(SHARED);
    TorchIndexOne(Dense(SHARED), SECOND);
    SliceIsRight(SHARED, SECOND);
  }

  lemma FirstShort(s: Sub)
    requires s.Slice?
    ensures Resolve(s, 1).Ok? ==> |Resolve(s, 1).value.list| <= 1
  {
    if Resolve(s, 1).Ok? {
      PositionsWhole(Bound(s.lo, 0, 1), Bound(s.hi, 1, 1), if s.step.Some? then s.step.value else 1);
    }
  }

  /** Slicing the rows of a plain matrix touches only B, and is always right. */
  lemma RowSliceIsRight(l: Lora, s: Sub)
    requires Valid(l) && Dims(l) == 2 && s.Slice?
    ensures GetSlice(l, s).Ok? <==> TorchIndex(Dense(l), [s]).Ok?
    ensures GetSlice(l, s).Ok? ==> StandsFor(GetSlice(l, s).value, TorchIndex(Dense(l), [s]).value)
  {
    DenseShape(l);
    TorchIndexOne(l.b, s);
    TorchIndexOne(Dense(l), s);
    if Resolve(s, l.b.shape[0]).Ok? {
      var rows, rank := Resolve(s, l.b.shape[0]).value, Rank(l);
      FullIsAll(rank);
      FullIsAll(RowSize(l));
      assert Sels([s] + Fulls(1), l.b.shape) == [] + [rows, All(rank)];
      assert Sels([s] + Fulls(1), Shape(l)) == [] + [rows, All(RowSize(l))];
      hide Resolve, TorchIndex, Sels, Matched, Select;
      RowsCommute(l, rows);
    }
  }

  lemma RowsCommute(l: Lora, rows: Sel)
    requires Valid(l) && Dims(l) == 2 && rows.Keep?
    ensures var r := Lora(l.a, Select(l.b, [] + [rows, All(Rank(l))]));
      Valid(r) && StandsFor(r, Select(Dense(l), [] + [rows, All(RowSize(l))]))
  {
    var rank, m, b := Rank(l), RowSize(l), Select(l.b, [] + [rows, All(Rank(l))]);
    KeptTwo([], rows, All(rank));
    CutIs(l, [], [], rows, All(m));
    CutCommutes(l, [], [], rows, All(m));
    SelectAll(l.a);
    hide KeptShape, Source, Dense, Cut;
    var cut := Cut(l, [], [], rows, All(m));
    FactorsDecide(cut, Lora(l.a, b));
  }

  lemma SelectAll(t: Tensor)
    requires |t.shape| == 2
    ensures Same(Select(t, [] + [All(t.shape[0]), All(t.shape[1])]), t)
  {
    KeptTwo([], All(t.shape[0]), All(t.shape[1]));
    hide KeptShape, Source;
    var u := Select(t, [] + [All(t.shape[0]), All(t.shape[1])]);
    assert KeptShape([]) == [] && u.shape == t.shape;
    forall i | InShape(u.shape, i)
      ensures u.at(i) == t.at(i)
    {
      assert i == [] + [i[0], i[1]];
      SourceTwo([], All(t.shape[0]), All(t.shape[1]), [], i[0], i[1]);
    }
  }

  // ---------- a tuple of entries ----------

  lemma {:induction false} LeadsForAIs(leads: seq<Sub>, shape: seq<nat>)
    requires |leads| <= |shape|
    ensures var r := LeadsForA(leads, shape);
      && (r.Ok? <==> forall d :: 0 <= d < |leads| ==> leads[d].Int? ==> shape[d] != 0)
      && (r.Ok? ==> |r.value| == |leads| && forall d :: 0 <= d < |leads| ==>
            r.value[d] == if leads[d].Int? then Int(leads[d].i % shape[d]) else FULL)
  {
    if leads != [] && (leads[0].Int? ==> shape[0] != 0) {
      LeadsForAIs(leads[1..], shape[1..]);
      assert forall d :: 0 < d < |leads| ==> leads[d] == leads[1..][d - 1] && shape[d] == shape[1..][d - 1];
      assert forall d :: 0 <= d < |leads| - 1 ==> leads[1..][d] == leads[d + 1] && shape[1..][d] == shape[d + 1];
    }
  }

  /** The index that A is given. */
  function IndexForA(l: Lora, subs: seq<Sub>): seq<Sub>
    requires Valid(l) && |subs| == Dims(l) && LeadsForA(subs[..Dims(l) - 2], l.a.shape).Ok?
  {
    LeadsForA(subs[..Dims(l) - 2], l.a.shape).value + [FULL, subs[Dims(l) - 1]]
  }

  lemma GetSubsIs(l: Lora, subs: seq<Sub>)
    requires Valid(l) && |subs| == Dims(l)
    ensures var leads, forB := LeadsForA(subs[..Dims(l) - 2], l.a.shape), subs[..Dims(l) - 1] + [FULL];
      leads.Ok? && |leads.value| == Dims(l) - 2 && AllResolve(IndexForA(l, subs), l.a.shape)
        && AllResolve(forB, l.b.shape) ==>
        GetSubs(l, subs) == Make(Select(l.a, Sels(IndexForA(l, subs), l.a.shape)), Select(l.b, Sels(forB, l.b.shape)))
    ensures GetSubs(l, subs).Ok? ==>
              && LeadsForA(subs[..Dims(l) - 2], l.a.shape).Ok?
              && |LeadsForA(subs[..Dims(l) - 2], l.a.shape).value| == Dims(l) - 2
              && AllResolve(IndexForA(l, subs), l.a.shape)
              && AllResolve(subs[..Dims(l) - 1] + [FULL], l.b.shape)
  {
    hide Resolve, Select, Sels, AllResolve;
    LeadsForAIs(subs[..Dims(l) - 2], l.a.shape);
    assert Padded(subs[..Dims(l) - 1], Dims(l)) == subs[..Dims(l) - 1] + [FULL];
  }

  /** A leading slice that leaves A whole is right just when A is shared or the slice leaves B whole too. */
  predicate WholeOrShared(s: Sub, na: nat, nb: nat)
    requires Resolve(s, nb).Ok?
  {
    s.Slice? ==> na == 1 || |Resolve(s, nb).value.list| == nb
  }

  lemma LeadTracks(s: Sub, na: nat, nb: nat)
    requires na == 1 || na == nb
    requires Resolve(s, nb).Ok?
    ensures s.Int? ==> na != 0 && Resolve(Int(s.i % na), na).Ok?
    ensures s.Int? ==> Tracks(Resolve(Int(s.i % na), na).value, Resolve(s, nb).value, na)
    ensures s.Slice? ==> Tracks(All(na), Resolve(s, nb).value, na)
    ensures s.Slice? ==> (Fits(All(na), Resolve(s, nb).value) <==> WholeOrShared(s, na, nb))
  {
    if s.Slice? {
      SliceWhole(s, nb);
    } else {
      IntWraps(s.i, nb);
    }
  }

  lemma IntWraps(i: int, n: nat)
    requires -(n as int) <= i < n
    ensures n > 0 && i % n == if i < 0 then i + n else i
  {
    var m: int := n;
    if i < 0 {
      var q, r := i / m, i % m;
      assert i + m == (q + 1) * m + r;
      if q + 1 >= 0 {
        QuotientUnique(q + 1, 0, m, r, i + m);
      } else {
        MulMonotone(1, -(q + 1), m);
      }
    }
  }

  lemma TupleResolves(l: Lora, subs: seq<Sub>)
    requires Matched(l) && |subs| == Dims(l) && subs[Dims(l) - 1].Slice? && subs[Dims(l) - 2].Slice?
    ensures AllResolve(subs, Shape(l)) <==>
            && LeadsForA(subs[..Dims(l) - 2], l.a.shape).Ok?
            && |LeadsForA(subs[..Dims(l) - 2], l.a.shape).value| == Dims(l) - 2
            && AllResolve(IndexForA(l, subs), l.a.shape)
            && AllResolve(subs[..Dims(l) - 1] + [FULL], l.b.shape)
  {
    var n, shape := Dims(l), Shape(l);
    var leads, forB := LeadsForA(subs[..n - 2], l.a.shape), subs[..n - 1] + [FULL];
    LeadsForAIs(subs[..n - 2], l.a.shape);
    FullIsAll(Rank(l));
    if AllResolve(subs, shape) {
      ProductResolves(l, subs);
      forall d | 0 <= d < n
        ensures Resolve(forB[d], l.b.shape[d]).Ok?
      {
        assert d < n - 1 ==> shape[d] == l.b.shape[d] && Resolve(subs[d], shape[d]).Ok?;
      }
    } else if leads.Ok? && AllResolve(IndexForA(l, subs), l.a.shape) && AllResolve(forB, l.b.shape) {
      FactorsResolve(l, subs);
    }
  }

  lemma FactorsResolve(l: Lora, subs: seq<Sub>)
    requires Valid(l) && |subs| == Dims(l) && LeadsForA(subs[..Dims(l) - 2], l.a.shape).Ok?
    requires |LeadsForA(subs[..Dims(l) - 2], l.a.shape).value| == Dims(l) - 2
    requires AllResolve(IndexForA(l, subs), l.a.shape) && AllResolve(subs[..Dims(l) - 1] + [FULL], l.b.shape)
    ensures AllResolve(subs, Shape(l))
  {
    var n, forA, forB := Dims(l), IndexForA(l, subs), subs[..Dims(l) - 1] + [FULL];
    hide Resolve, LeadsForA;
    forall d | 0 <= d < n
      ensures Resolve(subs[d], Shape(l)[d]).Ok?
    {
      assert Resolve(forB[d], l.b.shape[d]).Ok? && Resolve(forA[d], l.a.shape[d]).Ok?;
    }
  }

  /** An index the product accepts gives an index that A accepts. */
  lemma ProductResolves(l: Lora, subs: seq<Sub>)
    requires Matched(l) && |subs| == Dims(l) && AllResolve(subs, Shape(l))
    ensures LeadsForA(subs[..Dims(l) - 2], l.a.shape).Ok?
    ensures |LeadsForA(subs[..Dims(l) - 2], l.a.shape).value| == Dims(l) - 2
    ensures AllResolve(IndexForA(l, subs), l.a.shape)
  {
    var n, shape, leads := Dims(l), Shape(l), subs[..Dims(l) - 2];
    forall d | 0 <= d < n - 2
      ensures leads[d].Int? ==> l.a.shape[d] != 0 && Resolve(Int(leads[d].i % l.a.shape[d]), l.a.shape[d]).Ok?
    {
      var na, nb := l.a.shape[..n - 2][d], l.b.shape[..n - 2][d];
      assert na == 1 || na == nb;
      assert shape[d] == nb && Resolve(subs[d], shape[d]).Ok?;
      LeadTracks(subs[d], na, nb);
    }
    hide Resolve;
    LeadsForAIs(leads, l.a.shape);
    var forA := IndexForA(l, subs);
    forall d | 0 <= d < n
      ensures Resolve(forA[d], l.a.shape[d]).Ok?
    {
      FullIsAll(l.a.shape[d]);
      assert Resolve(subs[n - 1], shape[n - 1]).Ok?;
    }
  }

  lemma TupleTracks(l: Lora, subs: seq<Sub>)
    requires Matched(l) && |subs| == Dims(l)
    requires AllResolve(subs, Shape(l)) && LeadsForA(subs[..Dims(l) - 2], l.a.shape).Ok?
    requires |LeadsForA(subs[..Dims(l) - 2], l.a.shape).value| == Dims(l) - 2
    requires AllResolve(IndexForA(l, subs), l.a.shape) && AllResolve(subs[..Dims(l) - 1] + [FULL], l.b.shape)
    ensures var n, forB := Dims(l), subs[..Dims(l) - 1] + [FULL];
      var sa, sb := Sels(IndexForA(l, subs), l.a.shape)[..n - 2], Sels(forB, l.b.shape)[..n - 2];
      && AllTrack(sa, sb, l.a.shape[..n - 2]) && AllPaired(sa, sb)
      && (AllFit(sa, sb) <==> forall d :: 0 <= d < n - 2 ==> WholeOrShared(subs[d], l.a.shape[d], l.b.shape[d]))
  {
    var n, forA, forB := Dims(l), IndexForA(l, subs), subs[..Dims(l) - 1] + [FULL];
    var sa, sb := Sels(forA, l.a.shape)[..n - 2], Sels(forB, l.b.shape)[..n - 2];
    LeadsForAIs(subs[..n - 2], l.a.shape);
    forall d | 0 <= d < n - 2
      ensures Resolve(subs[d], l.b.shape[d]).Ok?
      ensures Tracks(sa[d], sb[d], l.a.shape[d])
      ensures Fits(sa[d], sb[d]) <==> WholeOrShared(subs[d], l.a.shape[d], l.b.shape[d])
    {
      var na, nb := l.a.shape[..n - 2][d], l.b.shape[..n - 2][d];
      assert na == 1 || na == nb;
      assert subs[..n - 2][d] == subs[d] && Shape(l)[d] == nb && forB[d] == subs[d];
      assert Resolve(subs[d], Shape(l)[d]).Ok?;
      LeadTracks(subs[d], na, nb);
      FullIsAll(na);
    }
  }

  lemma TorchIndexAll(t: Tensor, subs: seq<Sub>)
    requires |subs| == |t.shape|
    ensures TorchIndex(t, subs).Ok? <==> AllResolve(subs, t.shape)
    ensures AllResolve(subs, t.shape) ==> TorchIndex(t, subs) == Ok(Select(t, Sels(subs, t.shape)))
  {
  }

  lemma TupleParts(l: Lora, subs: seq<Sub>)
    requires Matched(l) && |subs| == Dims(l) && subs[Dims(l) - 1].Slice? && subs[Dims(l) - 2].Slice?
    ensures GetSubs(l, subs).Ok? <==> AllResolve(subs, Shape(l))
    ensures AllResolve(subs, Shape(l)) ==>
              && LeadsForA(subs[..Dims(l) - 2], l.a.shape).Ok?
              && |LeadsForA(subs[..Dims(l) - 2], l.a.shape).value| == Dims(l) - 2
              && AllResolve(IndexForA(l, subs), l.a.shape)
              && AllResolve(subs[..Dims(l) - 1] + [FULL], l.b.shape)
              && GetSubs(l, subs) == Ok(Picked(l, IndexForA(l, subs), subs[..Dims(l) - 1] + [FULL]))
  {
    var n := Dims(l);
    hide Resolve, Select, Dense, AllTrack, AllFit, Matched, StandsFor, LeadsForA, Sels, GetSubs, WholeOrShared;
    GetSubsIs(l, subs);
    TupleResolves(l, subs);
    if AllResolve(subs, Shape(l)) {
      TupleTracks(l, subs);
      PickedCommutes(l, IndexForA(l, subs), subs[..n - 1] + [FULL]);
    }
  }

  lemma IndexSplits(l: Lora, subs: seq<Sub>)
    requires Valid(l) && |subs| == Dims(l) && LeadsForA(subs[..Dims(l) - 2], l.a.shape).Ok?
    requires |LeadsForA(subs[..Dims(l) - 2], l.a.shape).value| == Dims(l) - 2
    ensures var n, forA, forB := Dims(l), IndexForA(l, subs), subs[..Dims(l) - 1] + [FULL];
      && |forA| == |forB| == n && forA[n - 2] == FULL && forB[n - 1] == FULL && forA[n - 1] == subs[n - 1]
      && forB[n - 2] == subs[n - 2] && forB[..n - 1] + [forA[n - 1]] == subs
  {
    hide LeadsForA;
  }

  lemma MatchedIsValid(l: Lora)
    ensures Matched(l) ==> Valid(l)
  {
  }

  /** What comes of a tuple has factors that go together just when each leading slice meets a shared A or
      keeps everything, and then it stands for what the product gives. */
  lemma TupleMatches(l: Lora, subs: seq<Sub>)
    requires Matched(l) && |subs| == Dims(l) && subs[Dims(l) - 1].Slice? && subs[Dims(l) - 2].Slice?
    requires AllResolve(subs, Shape(l))
    ensures var r := GetSubs(l, subs);
      && r.Ok?
      && (Matched(r.value) <==> forall d :: 0 <= d < Dims(l) - 2 ==> WholeOrShared(subs[d], l.a.shape[d], Shape(l)[d]))
      && (Matched(r.value) ==> StandsFor(r.value, Select(Dense(l), Sels(subs, Shape(l)))))
  {
    hide *;
    MatchedIsValid(l);
    TupleParts(l, subs);
    IndexSplits(l, subs);
    TupleTracks(l, subs);
    PickedCommutes(l, IndexForA(l, subs), subs[..Dims(l) - 1] + [FULL]);
    ShapeLeads(l);
  }

  lemma ShapeLeads(l: Lora)
    requires Valid(l)
    ensures forall d :: 0 <= d < Dims(l) - 1 ==> Shape(l)[d] == l.b.shape[d]
    ensures Dims(l) == |l.a.shape| == |l.b.shape|
  {
  }

  /** Indexing by a tuple works whenever it works for the product, provided rows and columns are
      sliced; the result is right just when each leading slice meets a shared A or keeps everything. */
  lemma TupleIsRight(l: Lora, subs: seq<Sub>)
    requires Matched(l) && |subs| == Dims(l) && subs[Dims(l) - 1].Slice? && subs[Dims(l) - 2].Slice?
    ensures GetSubs(l, subs).Ok? <==> TorchIndex(Dense(l), subs).Ok?
    ensures GetSubs(l, subs).Ok? ==> AllResolve(subs, Shape(l))
    ensures GetSubs(l, subs).Ok? ==>
              (StandsFor(GetSubs(l, subs).value, TorchIndex(Dense(l), subs).value) <==>
               forall d :: 0 <= d < Dims(l) - 2 ==> WholeOrShared(subs[d], l.a.shape[d], Shape(l)[d]))
  {
    DenseShape(l);
    hide *;
    TupleParts(l, subs);
    TorchIndexAll(Dense(l), subs);
    if AllResolve(subs, Shape(l)) {
      TupleMatches(l, subs);
      StandsForMatched(GetSubs(l, subs).value, Select(Dense(l), Sels(subs, Shape(l))));
    }
  }

  /** Two matrices with an A each, and the tuple :1, :, : of them: the slice is not applied to A. */
  const PAIR := Lora(Filled([2, 1, 1]), Filled([2, 1, 1]))
  const FIRST_OF_PAIR := [Slice(None, Some(1), None), FULL, FULL]

  lemma TupleFails()
    ensures Matched(PAIR) && GetSubs(PAIR, FIRST_OF_PAIR).Ok? && TorchIndex(Dense(PAIR), FIRST_OF_PAIR).Ok?
    ensures !StandsFor(GetSubs(PAIR, FIRST_OF_PAIR).value, TorchIndex(Dense(PAIR), FIRST_OF_PAIR).value)
  {
    DenseShape(PAIR);
    TorchIndexAll(Dense(PAIR), FIRST_OF_PAIR);
    assert Positions(0, 1, 1) == [0] + Positions(1, 1, 1);
    assert !WholeOrShared(FIRST_OF_PAIR[0], 2, 2);
    hide GetSubs, TorchIndex;
    TupleIsRight(PAIR, FIRST_OF_PAIR);
  }

  lemma KeptLength(s: seq<Sel>, x: Sel, y: Sel)
    ensures |KeptShape(s + [x, y])| ==
            |KeptShape(s)| + (if x.Keep? then 1 else 0) + (if y.Keep? then 1 else 0)
  {
    KeptShapeConcat(s, [x, y]);
    assert [x, y] == [x] + [y] && [y] == [y] + [];
    KeptCons(x, [y]);
    KeptCons(y, []);
  }

  /** An integer for the row or for the column never gives what the product gives: taking one of the
      two leaves factors that do not go together, and taking both leaves one dimension too many. */
  lemma NoSingleRow(l: Lora, subs: seq<Sub>)
    requires Matched(l) && |subs| == Dims(l) && (subs[Dims(l) - 1].Int? || subs[Dims(l) - 2].Int?)
    requires GetSubs(l, subs).Ok? && TorchIndex(Dense(l), subs).Ok?
    ensures !StandsFor(GetSubs(l, subs).value, TorchIndex(Dense(l), subs).value)
  {
    var n, r, t := Dims(l), GetSubs(l, subs).value, TorchIndex(Dense(l), subs).value;
    DenseShape(l);
    GetSubsIs(l, subs);
    FactorsResolve(l, subs);
    TorchIndexAll(Dense(l), subs);
    var forA, forB := IndexForA(l, subs), subs[..n - 1] + [FULL];
    assert r == Picked(l, forA, forB);
    hide GetSubs, TorchIndex, AllResolve, LeadsForA, IndexForA, Matched, Dense;
    PickedDims(l, subs);
    DenseShape(r);
  }

  /** The first row and the first column of each of two matrices: the code takes what is left of the
      factors for the factors of a matrix. */
  const CORNERED := Lora(Filled([2, 2, 3]), Filled([2, 4, 2]))
  const CORNER := [FULL, Int(0), Int(0)]

  lemma CornerFails()
    ensures Matched(CORNERED) && GetSubs(CORNERED, CORNER).Ok? && TorchIndex(Dense(CORNERED), CORNER).Ok?
    ensures !StandsFor(GetSubs(CORNERED, CORNER).value, TorchIndex(Dense(CORNERED), CORNER).value)
  {
    DenseShape(CORNERED);
    TorchIndexAll(Dense(CORNERED), CORNER);
    CornerShapes();
    hide GetSubs, TorchIndex, Dense;
    NoSingleRow(CORNERED, CORNER);
  }

  lemma CornerSels()
    ensures AllResolve([FULL, FULL, Int(0)], [2, 2, 3]) && AllResolve([FULL, Int(0), FULL], [2, 4, 2])
    ensures Sels([FULL, FULL, Int(0)], [2, 2, 3]) == [All(2), All(2), Drop(0)]
    ensures Sels([FULL, Int(0), FULL], [2, 4, 2]) == [All(2), Drop(0), All(2)]
  {
    FullIsAll(2);
    hide All;
    assert Resolve(Int(0), 3) == Ok(Drop(0)) == Resolve(Int(0), 4);
  }

  lemma CornerKept()
    ensures KeptShape([All(2), All(2), Drop(0)]) == [2, 2] == KeptShape([All(2), Drop(0), All(2)])
  {
    hide KeptShape;
    assert [All(2), All(2), Drop(0)] == [All(2)] + ([All(2)] + ([Drop(0)] + []));
    assert [All(2), Drop(0), All(2)] == [All(2)] + ([Drop(0)] + ([All(2)] + []));
    KeptCons(Drop(0), []);
    KeptCons(All(2), []);
    KeptCons(All(2), [Drop(0)] + []);
    KeptCons(Drop(0), [All(2)] + []);
    KeptCons(All(2), [All(2)] + ([Drop(0)] + []));
    KeptCons(All(2), [Drop(0)] + ([All(2)] + []));
    assert KeptShape([]) == [] by { NothingKept(); }
  }

  lemma NothingKept()
    ensures KeptShape([]) == []
  {
  }

  lemma CornerShapes()
    ensures GetSubs(CORNERED, CORNER).Ok?
  {
    assert CORNER[..1] == [FULL] && CORNER[..2] + [FULL] == [FULL, Int(0), FULL];
    LeadsForAIs([FULL], [2, 2, 3]);
    CornerSels();
    CornerKept();
    assert IndexForA(CORNERED, CORNER) == [FULL, FULL, Int(0)];
    hide Sels, KeptShape, LeadsForA, AllResolve, GetSubs;
    GetSubsIs(CORNERED, CORNER);
  }

  /** The product's index takes its last entry from A's and the others from B's. */
  lemma ProductSels(l: Lora, subs: seq<Sub>)
    requires Valid(l) && |subs| == Dims(l) && LeadsForA(subs[..Dims(l) - 2], l.a.shape).Ok?
    requires |LeadsForA(subs[..Dims(l) - 2], l.a.shape).value| == Dims(l) - 2
    requires AllResolve(subs, Shape(l)) && AllResolve(IndexForA(l, subs), l.a.shape)
    requires AllResolve(subs[..Dims(l) - 1] + [FULL], l.b.shape)
    ensures var n := Dims(l);
      var a, b := Sels(IndexForA(l, subs), l.a.shape), Sels(subs[..n - 1] + [FULL], l.b.shape);
      Sels(subs, Shape(l)) == b[..n - 2] + [b[n - 2], a[n - 1]]
  {
    var n, forA, forB := Dims(l), IndexForA(l, subs), subs[..Dims(l) - 1] + [FULL];
    var a, b, c := Sels(forA, l.a.shape), Sels(forB, l.b.shape), Sels(subs, Shape(l));
    hide Resolve, LeadsForA;
    assert forall d :: 0 <= d < n - 1 ==> forB[d] == subs[d] && Shape(l)[d] == l.b.shape[d];
    assert forall d :: 0 <= d < n - 1 ==> c[d] == b[d];
    assert c[n - 1] == a[n - 1];
  }

  lemma PickedDims(l: Lora, subs: seq<Sub>)
    requires Matched(l) && |subs| == Dims(l) && (subs[Dims(l) - 1].Int? || subs[Dims(l) - 2].Int?)
    requires LeadsForA(subs[..Dims(l) - 2], l.a.shape).Ok?
    requires |LeadsForA(subs[..Dims(l) - 2], l.a.shape).value| == Dims(l) - 2
    requires AllResolve(subs, Shape(l)) && AllResolve(IndexForA(l, subs), l.a.shape)
    requires AllResolve(subs[..Dims(l) - 1] + [FULL], l.b.shape)
    ensures var r := Picked(l, IndexForA(l, subs), subs[..Dims(l) - 1] + [FULL]);
      Valid(r) ==> Dims(r) != |KeptShape(Sels(subs, Shape(l)))|
  {
    var r := Picked(l, IndexForA(l, subs), subs[..Dims(l) - 1] + [FULL]);
    if Valid(r) {
      ValidPickedDims(l, subs);
    }
  }

  lemma ValidPickedDims(l: Lora, subs: seq<Sub>)
    requires Matched(l) && |subs| == Dims(l) && (subs[Dims(l) - 1].Int? || subs[Dims(l) - 2].Int?)
    requires LeadsForA(subs[..Dims(l) - 2], l.a.shape).Ok?
    requires |LeadsForA(subs[..Dims(l) - 2], l.a.shape).value| == Dims(l) - 2
    requires AllResolve(subs, Shape(l)) && AllResolve(IndexForA(l, subs), l.a.shape)
    requires AllResolve(subs[..Dims(l) - 1] + [FULL], l.b.shape)
    requires Valid(Picked(l, IndexForA(l, subs), subs[..Dims(l) - 1] + [FULL]))
    ensures Dims(Picked(l, IndexForA(l, subs), subs[..Dims(l) - 1] + [FULL])) != |KeptShape(Sels(subs, Shape(l)))|
  {
    hide *;
    MatchedIsValid(l);
    var n, forA, forB := Dims(l), IndexForA(l, subs), subs[..Dims(l) - 1] + [FULL];
    TupleTracks(l, subs);
    IndexSplits(l, subs);
    PickedSels(l, subs);
    ProductSels(l, subs);
    var a, b := Sels(forA, l.a.shape), Sels(forB, l.b.shape);
    PickedShapes(l, forA, forB);
    CutDims(a[..n - 2], b[..n - 2], a[n - 2], b[n - 1], b[n - 2], a[n - 1]);
  }

  /** Which of the last two dimensions are kept. */
  lemma PickedSels(l: Lora, subs: seq<Sub>)
    requires Valid(l) && |subs| == Dims(l) && LeadsForA(subs[..Dims(l) - 2], l.a.shape).Ok?
    requires |LeadsForA(subs[..Dims(l) - 2], l.a.shape).value| == Dims(l) - 2
    requires AllResolve(IndexForA(l, subs), l.a.shape) && AllResolve(subs[..Dims(l) - 1] + [FULL], l.b.shape)
    ensures var n := Dims(l);
      var a, b := Sels(IndexForA(l, subs), l.a.shape), Sels(subs[..n - 1] + [FULL], l.b.shape);
      && |a| == |b| == n && a == a[..n - 2] + [a[n - 2], a[n - 1]] && b == b[..n - 2] + [b[n - 2], b[n - 1]]
      && a[n - 2].Keep? && b[n - 1].Keep?
      && (a[n - 1].Keep? <==> subs[n - 1].Slice?) && (b[n - 2].Keep? <==> subs[n - 2].Slice?)
  {
    IndexSplits(l, subs);
    hide LeadsForA, IndexForA;
    var n, forA, forB := Dims(l), IndexForA(l, subs), subs[..Dims(l) - 1] + [FULL];
    assert Resolve(forA[n - 2], l.a.shape[n - 2]).Ok? && Resolve(forA[n - 1], l.a.shape[n - 1]).Ok?;
    assert Resolve(forB[n - 2], l.b.shape[n - 2]).Ok? && Resolve(forB[n - 1], l.b.shape[n - 1]).Ok?;
  }

  lemma PickedShapes(l: Lora, subsA: seq<Sub>, subsB: seq<Sub>)
    requires AllResolve(subsA, l.a.shape) && AllResolve(subsB, l.b.shape)
    ensures var r := Picked(l, subsA, subsB);
      Valid(r) ==> Dims(r) == |KeptShape(Sels(subsA, l.a.shape))| == |KeptShape(Sels(subsB, l.b.shape))|
  {
  }

  lemma CutDims(sa: seq<Sel>, sb: seq<Sel>, x: Sel, y: Sel, rows: Sel, cols: Sel)
    requires AllPaired(sa, sb) && x.Keep? && y.Keep? && (rows.Drop? || cols.Drop?)
    requires |KeptShape(sa + [x, cols])| == |KeptShape(sb + [rows, y])|
    ensures |KeptShape(sb + [rows, cols])| != |KeptShape(sb + [rows, y])|
  {
    hide KeptShape;
    KeptBroadcasts(sa, sb);
    KeptLength(sa, x, cols);
    KeptLength(sb, rows, y);
    KeptLength(sb, rows, cols);
  }

  lemma {:induction false} LeadsLength(leads: seq<Sub>, shape: seq<nat>)
    ensures LeadsForA(leads, shape).Ok? ==> |LeadsForA(leads, shape).value| == |leads|
    decreases |leads|
  {
    if leads != [] {
      LeadsLength(leads[1..], if shape == [] then [] else shape[1..]);
    }
  }

  lemma TooManyEntries(l: Lora, subs: seq<Sub>)
    requires Valid(l) && |subs| > Dims(l)
    ensures GetSubs(l, subs).Raises?
  {
    LeadsLength(subs[..|subs| - 2], l.a.shape);
  }
}
