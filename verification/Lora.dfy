/**
 A tensor kept as two factors: the pair (A, B) stands for the product B·A, and every operation on
 the pair must do to the product what it says it does.
 */
module Lora {
  import opened Wrappers
  import opened Tensors

  datatype LoraTensor = LoraTensor(a: Tensor, b: Tensor)

  /** Why an operation is not carried out: the pair refuses it, or the sizes do not fit. */
  datatype Refusal = NotImplemented | Mismatch

  /** The rank is the last axis of B and the last but one of A; a leading axis of A may be repeated. */
  predicate ShapesFit(a: seq<nat>, b: seq<nat>) {
    && |a| == |b| >= 2
    && a[|a| - 2] == b[|b| - 1]
    && forall d | 0 <= d < |a| - 2 :: a[d] == 1 || a[d] == b[d]
  }

  predicate Sound(l: LoraTensor) {
    Tensors.Valid(l.a) && Tensors.Valid(l.b) && ShapesFit(l.a.shape, l.b.shape)
  }

  function Dim(l: LoraTensor): nat {
    |l.b.shape|
  }

  function Rank(l: LoraTensor): nat
    requires Sound(l)
  {
    l.b.shape[Dim(l) - 1]
  }

  /** The axes of B, but the last one from A. */
  function Shape(l: LoraTensor): (s: seq<nat>)
    requires Sound(l)
    ensures |s| == Dim(l) && s[Dim(l) - 1] == l.a.shape[Dim(l) - 1]
    ensures forall d | 0 <= d < Dim(l) - 1 :: s[d] == l.b.shape[d]
  {
    l.b.shape[Dim(l) - 1 := l.a.shape[Dim(l) - 1]]
  }

  // ---------------------------------------------------------------- the product

  function Dot(u: seq<real>, v: seq<real>): real
    requires |u| == |v|
  {
    if u == [] then 0.0 else u[0] * v[0] + Dot(u[1..], v[1..])
  }

  /** A product of which all terms are the same. */
  lemma {:induction false} DotOfSame(u: seq<real>, v: seq<real>, x: real)
    requires |u| == |v| && forall k | 0 <= k < |u| :: u[k] * v[k] == x
    ensures Dot(u, v) == |u| as real * x
  {
    if u != [] {
      DotOfSame(u[1..], v[1..], x);
      assert u[0] * v[0] == x;
      assert (|u| - 1) as real * x + x == |u| as real * x;
    }
  }

  /** The index into B for one term of the product. */
  function BIndex(idx: seq<nat>, k: nat): seq<nat>
    requires idx != []
  {
    idx[|idx| - 1 := k]
  }

  /** The index into A for one term of the product; repeated axes are read at zero. */
  function AIndex(shape: seq<nat>, idx: seq<nat>, k: nat): (r: seq<nat>)
    requires |shape| == |idx| >= 2
    ensures |r| == |idx| && r[|idx| - 2] == k && r[|idx| - 1] == idx[|idx| - 1]
    ensures forall d | 0 <= d < |idx| - 2 :: r[d] == if shape[d] == 1 then 0 else idx[d]
  {
    seq(|idx|, d requires 0 <= d < |idx| =>
      if d == |idx| - 1 then idx[d] else if d == |idx| - 2 then k else if shape[d] == 1 then 0 else idx[d])
  }

  lemma IndicesFit(l: LoraTensor, idx: seq<nat>, k: nat)
    requires Sound(l) && InShape(idx, Shape(l)) && k < Rank(l)
    ensures InShape(BIndex(idx, k), l.b.shape) && InShape(AIndex(l.a.shape, idx, k), l.a.shape)
  {
  }

  function BRow(l: LoraTensor, idx: seq<nat>): (r: seq<real>)
    requires Sound(l) && InShape(idx, Shape(l))
    ensures |r| == Rank(l)
    ensures forall k | 0 <= k < |r| :: InShape(BIndex(idx, k), l.b.shape) && r[k] == At(l.b, BIndex(idx, k))
  {
    assert forall k | 0 <= k < Rank(l) :: InShape(BIndex(idx, k), l.b.shape) by {
      forall k | 0 <= k < Rank(l) ensures InShape(BIndex(idx, k), l.b.shape) { IndicesFit(l, idx, k); }
    }
    seq(Rank(l), k requires 0 <= k < Rank(l) => At(l.b, BIndex(idx, k)))
  }

  function AColumn(l: LoraTensor, idx: seq<nat>): (r: seq<real>)
    requires Sound(l) && InShape(idx, Shape(l))
    ensures |r| == Rank(l)
    ensures forall k | 0 <= k < |r| :: InShape(AIndex(l.a.shape, idx, k), l.a.shape) && r[k] == At(l.a, AIndex(l.a.shape, idx, k))
  {
    assert forall k | 0 <= k < Rank(l) :: InShape(AIndex(l.a.shape, idx, k), l.a.shape) by {
      forall k | 0 <= k < Rank(l) ensures InShape(AIndex(l.a.shape, idx, k), l.a.shape) { IndicesFit(l, idx, k); }
    }
    seq(Rank(l), k requires 0 <= k < Rank(l) => At(l.a, AIndex(l.a.shape, idx, k)))
  }

  function Element(l: LoraTensor, idx: seq<nat>): real
    requires Sound(l) && InShape(idx, Shape(l))
  {
    Dot(BRow(l, idx), AColumn(l, idx))
  }

  /** The tensor that the pair stands for. */
  function Product(l: LoraTensor): (w: Tensor)
    requires Sound(l)
    ensures Tensors.Valid(w) && w.shape == Shape(l)
  {
    Build(Shape(l), idx requires InShape(idx, Shape(l)) => Element(l, idx))
  }

  lemma ProductAt(l: LoraTensor, idx: seq<nat>)
    requires Sound(l) && InShape(idx, Shape(l))
    ensures At(Product(l), idx) == Element(l, idx)
  {
    hide At, Prod, Element;
  }

  /** A tensor with the product's elements is the product. */
  lemma IsProduct(l: LoraTensor, w: Tensor)
    requires Sound(l) && Tensors.Valid(w) && w.shape == Shape(l)
    requires forall idx | InShape(idx, Shape(l)) :: At(w, idx) == Element(l, idx)
    ensures Product(l) == w
  {
    hide At, Prod, Element, Sound, Shape, Tensors.Valid;
    forall idx | InShape(idx, Shape(l)) ensures At(Product(l), idx) == At(w, idx) {
      ProductAt(l, idx);
    }
    SameTensor(Product(l), w);
  }

  // ---------------------------------------------------------------- parts of an axis

  /** Whether a part of this axis is a part of A: not if B alone has it, or if A repeats it. */
  predicate InA(l: LoraTensor, d: nat)
    requires Sound(l) && d < Dim(l)
  {
    d != Dim(l) - 2 && (d == Dim(l) - 1 || l.a.shape[d] != 1)
  }

  function NarrowA(l: LoraTensor, d: nat, start: nat, len: nat): (r: Tensor)
    requires Sound(l) && d < Dim(l) && start + len <= Shape(l)[d]
    ensures Tensors.Valid(r) && r.shape == if InA(l, d) then l.a.shape[d := len] else l.a.shape
  {
    if InA(l, d) then Narrow(l.a, d, start, len) else l.a
  }

  function NarrowB(l: LoraTensor, d: nat, start: nat, len: nat): (r: Tensor)
    requires Sound(l) && d < Dim(l) && start + len <= Shape(l)[d]
    ensures Tensors.Valid(r) && r.shape == if d < Dim(l) - 1 then l.b.shape[d := len] else l.b.shape
  {
    if d < Dim(l) - 1 then Narrow(l.b, d, start, len) else l.b
  }

  /** Part of one axis: the last belongs to A, the last but one to B, and a leading one to both unless A repeats it. */
  function NarrowLora(l: LoraTensor, d: nat, start: nat, len: nat): LoraTensor
    requires Sound(l) && d < Dim(l) && start + len <= Shape(l)[d]
  {
    LoraTensor(NarrowA(l, d, start, len), NarrowB(l, d, start, len))
  }

  /** Two pairs agree in one term of the product at two places. */
  predicate SameTerm(m: LoraTensor, idx: seq<nat>, l: LoraTensor, jdx: seq<nat>, k: nat)
    requires Sound(m) && Sound(l) && |idx| == Dim(m) && |jdx| == Dim(l)
  {
    && InShape(BIndex(idx, k), m.b.shape) && InShape(BIndex(jdx, k), l.b.shape)
    && InShape(AIndex(m.a.shape, idx, k), m.a.shape) && InShape(AIndex(l.a.shape, jdx, k), l.a.shape)
    && At(m.b, BIndex(idx, k)) == At(l.b, BIndex(jdx, k))
    && At(m.a, AIndex(m.a.shape, idx, k)) == At(l.a, AIndex(l.a.shape, jdx, k))
  }

  lemma SameElement(m: LoraTensor, idx: seq<nat>, l: LoraTensor, jdx: seq<nat>)
    requires Sound(m) && Sound(l) && InShape(idx, Shape(m)) && InShape(jdx, Shape(l)) && Rank(m) == Rank(l)
    requires forall k | 0 <= k < Rank(m) :: SameTerm(m, idx, l, jdx, k)
    ensures Element(m, idx) == Element(l, jdx)
  {
    hide At, Prod, Tensors.Valid, BIndex, AIndex;
    forall k | 0 <= k < Rank(m) ensures BRow(m, idx)[k] == BRow(l, jdx)[k] && AColumn(m, idx)[k] == AColumn(l, jdx)[k] {
      assert SameTerm(m, idx, l, jdx, k);
    }
    assert BRow(m, idx) == BRow(l, jdx) && AColumn(m, idx) == AColumn(l, jdx);
  }

  lemma NarrowSound(l: LoraTensor, d: nat, start: nat, len: nat)
    requires Sound(l) && d < Dim(l) && start + len <= Shape(l)[d]
    ensures Sound(NarrowLora(l, d, start, len))
    ensures Shape(NarrowLora(l, d, start, len)) == Shape(l)[d := len]
    ensures Rank(NarrowLora(l, d, start, len)) == Rank(l)
  {
    hide At, Prod, Tensors.Valid, NarrowA, NarrowB;
  }

  /** Moving along the narrowed axis moves the index into each factor that was narrowed, and no other. */
  lemma NarrowIndex(shape: seq<nat>, shape': seq<nat>, d: nat, start: nat, idx: seq<nat>, jdx: seq<nat>, k: nat)
    requires |shape| == |shape'| == |idx| >= 2 && d < |idx| && jdx == idx[d := idx[d] + start]
    requires forall i | 0 <= i < |shape| && i != d :: shape'[i] == shape[i]
    ensures d == |idx| - 1 ==> BIndex(jdx, k) == BIndex(idx, k)
    ensures d < |idx| - 1 ==> BIndex(jdx, k) == BIndex(idx, k)[d := BIndex(idx, k)[d] + start]
    ensures d == |idx| - 1 ==> AIndex(shape, jdx, k) == AIndex(shape', idx, k)[d := AIndex(shape', idx, k)[d] + start]
    ensures d == |idx| - 2 || (d < |idx| - 2 && shape[d] == shape'[d] == 1) ==> AIndex(shape, jdx, k) == AIndex(shape', idx, k)
    ensures d < |idx| - 2 && shape[d] != 1 && (shape'[d] == 1 ==> idx[d] == 0) ==>
              AIndex(shape, jdx, k) == AIndex(shape', idx, k)[d := AIndex(shape', idx, k)[d] + start]
  {
  }

  lemma NarrowATerm(l: LoraTensor, d: nat, start: nat, len: nat, idx: seq<nat>, jdx: seq<nat>, k: nat)
    requires Sound(l) && d < Dim(l) && start + len <= Shape(l)[d] && |idx| == Dim(l)
    requires jdx == idx[d := idx[d] + start]
    requires var a' := NarrowA(l, d, start, len);
             InShape(AIndex(a'.shape, idx, k), a'.shape) && InShape(AIndex(l.a.shape, jdx, k), l.a.shape)
    requires idx[d] < len
    ensures var a' := NarrowA(l, d, start, len);
            At(a', AIndex(a'.shape, idx, k)) == At(l.a, AIndex(l.a.shape, jdx, k))
  {
    hide At, Prod, Tensors.Valid, BIndex, AIndex, Shape, Narrow;
    if InA(l, d) { NarrowAt(l.a, d, start, len, AIndex(NarrowA(l, d, start, len).shape, idx, k)); }
    NarrowIndex(l.a.shape, NarrowA(l, d, start, len).shape, d, start, idx, jdx, k);
  }

  lemma NarrowBTerm(l: LoraTensor, d: nat, start: nat, len: nat, idx: seq<nat>, jdx: seq<nat>, k: nat)
    requires Sound(l) && d < Dim(l) && start + len <= Shape(l)[d] && |idx| == Dim(l)
    requires jdx == idx[d := idx[d] + start]
    requires InShape(BIndex(idx, k), NarrowB(l, d, start, len).shape) && InShape(BIndex(jdx, k), l.b.shape)
    ensures At(NarrowB(l, d, start, len), BIndex(idx, k)) == At(l.b, BIndex(jdx, k))
  {
    hide At, Prod, Tensors.Valid, BIndex, AIndex, Shape, Narrow;
    if d < Dim(l) - 1 { NarrowAt(l.b, d, start, len, BIndex(idx, k)); }
    NarrowIndex(l.b.shape, l.b.shape[d := len], d, start, idx, jdx, k);
  }

  lemma NarrowTerm(l: LoraTensor, d: nat, start: nat, len: nat, idx: seq<nat>, jdx: seq<nat>, k: nat)
    requires Sound(l) && d < Dim(l) && start + len <= Shape(l)[d] && k < Rank(l)
    requires Sound(NarrowLora(l, d, start, len)) && InShape(idx, Shape(NarrowLora(l, d, start, len)))
    requires Shape(NarrowLora(l, d, start, len)) == Shape(l)[d := len] && Rank(NarrowLora(l, d, start, len)) == Rank(l)
    requires jdx == idx[d := idx[d] + start] && InShape(jdx, Shape(l))
    ensures SameTerm(NarrowLora(l, d, start, len), idx, l, jdx, k)
  {
    hide At, Prod, Tensors.Valid, BIndex, AIndex, NarrowA, NarrowB, ShapesFit, Shape, InA;
    IndicesFit(NarrowLora(l, d, start, len), idx, k);
    IndicesFit(l, jdx, k);
    NarrowATerm(l, d, start, len, idx, jdx, k);
    NarrowBTerm(l, d, start, len, idx, jdx, k);
  }

  /** Taking part of an axis of the pair takes that part of the product. */
  lemma NarrowProduct(l: LoraTensor, d: nat, start: nat, len: nat)
    requires Sound(l) && d < Dim(l) && start + len <= Shape(l)[d]
    ensures Sound(NarrowLora(l, d, start, len))
    ensures Product(NarrowLora(l, d, start, len)) == Narrow(Product(l), d, start, len)
  {
    NarrowSound(l, d, start, len);
    hide NarrowLora, At, Prod, Tensors.Valid, Element, Shape, Narrow, Product, SameTerm;
    var m, w := NarrowLora(l, d, start, len), Narrow(Product(l), d, start, len);
    forall idx | InShape(idx, Shape(m)) ensures At(w, idx) == Element(m, idx) {
      var jdx := idx[d := idx[d] + start];
      NarrowAt(Product(l), d, start, len, idx);
      ProductAt(l, jdx);
      forall k | 0 <= k < Rank(m) ensures SameTerm(m, idx, l, jdx, k) {
        NarrowTerm(l, d, start, len, idx, jdx, k);
      }
      SameElement(m, idx, l, jdx);
    }
    IsProduct(m, w);
  }

  // ---------------------------------------------------------------- permuting

  /** Only the leading axes and the rows move: B moves along, and A must not depend on the leading axes. */
  function PermuteKeepingLast(l: LoraTensor, dims: seq<nat>): (m: LoraTensor)
    requires Sound(l) && IsPermutation(dims, Dim(l)) && dims[Dim(l) - 1] == Dim(l) - 1
    requires forall d | 0 <= d < Dim(l) - 2 :: l.a.shape[d] == 1
    ensures Sound(m) && Rank(m) == Rank(l) && Shape(m) == Permuted(Shape(l), dims)
  {
    PermutedShapes(l.a.shape, l.b.shape, dims);
    LoraTensor(l.a, Permute(l.b, dims))
  }

  lemma PermutedShapes(a: seq<nat>, b: seq<nat>, dims: seq<nat>)
    requires ShapesFit(a, b) && IsPermutation(dims, |b|) && dims[|b| - 1] == |b| - 1
    requires forall d | 0 <= d < |a| - 2 :: a[d] == 1
    ensures ShapesFit(a, Permuted(b, dims)) && Permuted(b, dims)[|b| - 1] == b[|b| - 1]
    ensures Permuted(b, dims)[|b| - 1 := a[|a| - 1]] == Permuted(b[|b| - 1 := a[|a| - 1]], dims)
  {
  }

  lemma PermuteIndex(idx: seq<nat>, dims: seq<nat>, k: nat)
    requires idx != [] && IsPermutation(dims, |idx|) && dims[|idx| - 1] == |idx| - 1
    ensures Unpermuted(BIndex(idx, k), dims) == BIndex(Unpermuted(idx, dims), k)
    ensures Unpermuted(idx, dims)[|idx| - 1] == idx[|idx| - 1]
  {
    var n, jdx, u := |idx|, Unpermuted(idx, dims), Unpermuted(BIndex(idx, k), dims);
    assert jdx[dims[n - 1]] == idx[n - 1];
    forall d | 0 <= d < n ensures u[d] == BIndex(jdx, k)[d] {
      var i := Find(dims, d);
      assert u[dims[i]] == BIndex(idx, k)[i] && jdx[dims[i]] == idx[i];
    }
  }

  lemma RepeatedIndex(shape: seq<nat>, idx: seq<nat>, jdx: seq<nat>, k: nat)
    requires |shape| == |idx| == |jdx| >= 2 && idx[|idx| - 1] == jdx[|idx| - 1]
    requires forall d | 0 <= d < |shape| - 2 :: shape[d] == 1
    ensures AIndex(shape, idx, k) == AIndex(shape, jdx, k)
  {
  }

  lemma PermuteBTerm(b: Tensor, dims: seq<nat>, idx: seq<nat>, jdx: seq<nat>, k: nat)
    requires Tensors.Valid(b) && |b.shape| >= 2 && IsPermutation(dims, |b.shape|) && dims[|b.shape| - 1] == |b.shape| - 1
    requires |idx| == |b.shape| && jdx == Unpermuted(idx, dims)
    requires InShape(BIndex(idx, k), Permuted(b.shape, dims)) && InShape(BIndex(jdx, k), b.shape)
    ensures At(Permute(b, dims), BIndex(idx, k)) == At(b, BIndex(jdx, k))
    ensures jdx[|jdx| - 1] == idx[|idx| - 1]
  {
    hide At, Prod, Tensors.Valid, Unpermuted, Permuted, BIndex, IsPermutation, InShape, Permute;
    PermuteIndex(idx, dims, k);
    PermuteAt(b, dims, BIndex(idx, k));
  }

  lemma PermuteTerm(l: LoraTensor, dims: seq<nat>, idx: seq<nat>, jdx: seq<nat>, k: nat)
    requires Sound(l) && IsPermutation(dims, Dim(l)) && dims[Dim(l) - 1] == Dim(l) - 1
    requires forall d | 0 <= d < Dim(l) - 2 :: l.a.shape[d] == 1
    requires InShape(idx, Shape(PermuteKeepingLast(l, dims))) && k < Rank(l)
    requires jdx == Unpermuted(idx, dims) && InShape(jdx, Shape(l))
    ensures SameTerm(PermuteKeepingLast(l, dims), idx, l, jdx, k)
  {
    hide At, Prod, Tensors.Valid, Unpermuted, Permuted, Permute, BIndex, AIndex, IsPermutation, InShape, Shape;
    IndicesFit(PermuteKeepingLast(l, dims), idx, k);
    IndicesFit(l, jdx, k);
    PermuteBTerm(l.b, dims, idx, jdx, k);
    RepeatedIndex(l.a.shape, idx, jdx, k);
  }

  lemma PermuteProduct(l: LoraTensor, dims: seq<nat>)
    requires Sound(l) && IsPermutation(dims, Dim(l)) && dims[Dim(l) - 1] == Dim(l) - 1
    requires forall d | 0 <= d < Dim(l) - 2 :: l.a.shape[d] == 1
    ensures Product(PermuteKeepingLast(l, dims)) == Permute(Product(l), dims)
  {
    hide At, Prod, Tensors.Valid, Element, SameTerm, Shape, Unpermuted, PermuteKeepingLast, Product, Permute;
    var m, w := PermuteKeepingLast(l, dims), Permute(Product(l), dims);
    forall idx | InShape(idx, Shape(m)) ensures At(w, idx) == Element(m, idx) {
      var jdx := Unpermuted(idx, dims);
      PermuteAt(Product(l), dims, idx);
      ProductAt(l, jdx);
      forall k | 0 <= k < Rank(m) ensures SameTerm(m, idx, l, jdx, k) {
        PermuteTerm(l, dims, idx, jdx, k);
      }
      SameElement(m, idx, l, jdx);
    }
    IsProduct(m, w);
  }

  const SWAP: seq<nat> := [1, 0]

  lemma SwapIsPermutation()
    ensures IsPermutation(SWAP, 2)
  {
    assert SWAP[0] == 1 && SWAP[1] == 0;
  }

  lemma SwapPermutes(idx: seq<nat>)
    requires |idx| == 2
    ensures IsPermutation(SWAP, 2) && Unpermuted(idx, SWAP) == [idx[1], idx[0]] && Permuted(idx, SWAP) == [idx[1], idx[0]]
  {
    SwapIsPermutation();
    hide IsPermutation;
    var u := Unpermuted(idx, SWAP);
    assert u[SWAP[0]] == idx[0] && u[SWAP[1]] == idx[1];
  }

  /** A matrix is transposed by transposing both factors and swapping them. */
  function Transpose(l: LoraTensor): (m: LoraTensor)
    requires Sound(l) && Dim(l) == 2
    ensures Sound(m) && Rank(m) == Rank(l) && Shape(m) == [Shape(l)[1], Shape(l)[0]]
  {
    SwapPermutes(l.a.shape);
    SwapPermutes(l.b.shape);
    SwappedFit(l.a.shape, l.b.shape);
    LoraTensor(Permute(l.b, SWAP), Permute(l.a, SWAP))
  }

  lemma SwappedFit(a: seq<nat>, b: seq<nat>)
    requires ShapesFit(a, b) && |a| == 2
    ensures ShapesFit([b[1], b[0]], [a[1], a[0]])
    ensures [a[1], a[0]][1 := [b[1], b[0]][1]] == [b[1 := a[1]][1], b[1 := a[1]][0]]
  {
  }

  lemma {:induction false} DotCommutes(u: seq<real>, v: seq<real>)
    requires |u| == |v|
    ensures Dot(u, v) == Dot(v, u)
  {
    if u != [] { DotCommutes(u[1..], v[1..]); }
  }

  lemma SwapAt(t: Tensor, i: nat, j: nat)
    requires Tensors.Valid(t) && |t.shape| == 2 && InShape([j, i], t.shape)
    ensures IsPermutation(SWAP, 2) && InShape([i, j], Permute(t, SWAP).shape) && At(Permute(t, SWAP), [i, j]) == At(t, [j, i])
  {
    hide At, Prod, Tensors.Valid;
    SwapPermutes(t.shape);
    SwapPermutes([i, j]);
    PermuteAt(t, SWAP, [i, j]);
  }

  lemma MatrixIndices(shape: seq<nat>, i: nat, j: nat, k: nat)
    requires |shape| == 2
    ensures BIndex([i, j], k) == [i, k] && AIndex(shape, [i, j], k) == [k, j]
  {
  }

  lemma TransposeTerm(l: LoraTensor, i: nat, j: nat, k: nat)
    requires Sound(l) && Dim(l) == 2 && k < Rank(l)
    requires InShape([i, j], Shape(Transpose(l))) && InShape([j, i], Shape(l))
    ensures BRow(Transpose(l), [i, j])[k] == AColumn(l, [j, i])[k]
    ensures AColumn(Transpose(l), [i, j])[k] == BRow(l, [j, i])[k]
  {
    hide At, Prod, Tensors.Valid, BIndex, AIndex, IsPermutation, InShape, Shape, BRow, AColumn;
    var m := Transpose(l);
    IndicesFit(l, [j, i], k);
    MatrixIndices(m.a.shape, i, j, k);
    MatrixIndices(l.a.shape, j, i, k);
    SwapAt(l.a, i, k);
    SwapAt(l.b, k, j);
  }

  lemma TransposeElement(l: LoraTensor, i: nat, j: nat)
    requires Sound(l) && Dim(l) == 2 && InShape([i, j], Shape(Transpose(l))) && InShape([j, i], Shape(l))
    ensures Element(Transpose(l), [i, j]) == Element(l, [j, i])
  {
    hide At, Prod, Tensors.Valid, Transpose;
    var m := Transpose(l);
    var r, c, r', c' := BRow(l, [j, i]), AColumn(l, [j, i]), BRow(m, [i, j]), AColumn(m, [i, j]);
    forall k | 0 <= k < Rank(l) ensures r'[k] == c[k] && c'[k] == r[k] {
      TransposeTerm(l, i, j, k);
    }
    assert r' == c && c' == r;
    DotCommutes(r, c);
  }

  lemma TransposeProduct(l: LoraTensor)
    requires Sound(l) && Dim(l) == 2
    ensures IsPermutation(SWAP, 2) && Product(Transpose(l)) == Permute(Product(l), SWAP)
  {
    hide At, Prod, Tensors.Valid, Element, Transpose, Product, Permute;
    SwapPermutes(Shape(l));
    var m, w := Transpose(l), Permute(Product(l), SWAP);
    forall idx | InShape(idx, Shape(m)) ensures At(w, idx) == Element(m, idx) {
      SwapPermutes(idx);
      assert idx == [idx[0], idx[1]];
      PermuteAt(Product(l), SWAP, idx);
      ProductAt(l, [idx[1], idx[0]]);
      TransposeElement(l, idx[0], idx[1]);
    }
    IsProduct(m, w);
  }
}
