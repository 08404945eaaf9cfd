/** Slicing the first axis of a tensor kept as two factors, and exactly when that slices the product. */
module LoraSlices {
  import opened Tensors
  import opened Lora

  // ---------------------------------------------------------------- slices

  datatype Bound = Open | At(i: int)

  /** Negative bounds count from the end, and bounds are clamped; a step that is left out is one. */
  datatype Slice = Slice(lo: Bound, hi: Bound, step: int)

  /** Tensors refuse any other step. */
  predicate Legal(s: Slice) {
    0 < s.step
  }

  function Clamp(i: int, n: nat): (r: nat)
    ensures r <= n
  {
    var j := if i < 0 then i + n else i;
    if j < 0 then 0 else if j > n then n else j
  }

  function Start(s: Slice, n: nat): (r: nat)
    ensures r <= n
  {
    if s.lo.Open? then 0 else Clamp(s.lo.i, n)
  }

  function Stop(s: Slice, n: nat): (r: nat)
    ensures r <= n
  {
    if s.hi.Open? then n else Clamp(s.hi.i, n)
  }

  /** How many entries a slice takes. */
  function Length(s: Slice, n: nat): (r: nat)
    requires Legal(s)
  {
    var w := Stop(s, n) - Start(s, n);
    if w <= 0 then 0 else (CountOf(w, s.step); (w + s.step - 1) / s.step)
  }

  lemma CountOf(w: int, p: int)
    requires 0 < w && 0 < p
    ensures 0 < (w + p - 1) / p
  {
    assert w + p - 1 == p * ((w + p - 1) / p) + (w + p - 1) % p;
  }

  lemma Within(w: int, p: int, i: nat)
    requires 0 < w && 0 < p && i < (w + p - 1) / p
    ensures 0 <= i * p < w
  {
    var q := (w + p - 1) / p;
    assert w + p - 1 == p * q + (w + p - 1) % p;
    Smaller(i + 1, q, p);
    assert (i + 1) * p == i * p + p;
  }

  lemma Smaller(x: int, y: int, p: int)
    requires x <= y && 0 <= p
    ensures x * p <= y * p
  {
  }

  /** The entries that a slice takes of an axis of length n. */
  function Rows(s: Slice, n: nat): (r: seq<nat>)
    requires Legal(s)
    ensures |r| == Length(s, n) && forall i | 0 <= i < |r| :: r[i] < n
    ensures forall i | 0 <= i < |r| :: r[i] == Start(s, n) + i * s.step
  {
    var w := Stop(s, n) - Start(s, n);
    assert forall i: nat | i < Length(s, n) :: 0 <= i * s.step < w by {
      forall i: nat | i < Length(s, n) ensures 0 <= i * s.step < w { Within(w, s.step, i); }
    }
    seq(Length(s, n), (i: nat) requires 0 <= i * s.step => Start(s, n) + i * s.step)
  }

  /** A slice that takes as many entries as there are takes them all, in order. */
  lemma WholeRows(s: Slice, n: nat, i: nat)
    requires Legal(s) && Length(s, n) == n && i < n
    ensures Rows(s, n)[i] == i
  {
    hide Length;
    var last := Rows(s, n)[n - 1];
    assert last == Start(s, n) + (n - 1) * s.step < n;
    Smaller(1, s.step, n - 1);
    if n > 1 && s.step > 1 {
      Smaller(2, s.step, n - 1);
      assert false;
    }
    assert n == 1 || s.step == 1;
    assert n == 1 ==> i * s.step == 0 && Start(s, n) == 0;
  }

  function SliceAxis(t: Tensor, d: nat, s: Slice): (r: Tensor)
    requires Tensors.Valid(t) && d < |t.shape| && Legal(s)
    ensures Tensors.Valid(r) && r.shape == t.shape[d := Length(s, t.shape[d])]
  {
    Take(t, d, Rows(s, t.shape[d]))
  }

  lemma SliceAt(t: Tensor, d: nat, s: Slice, idx: seq<nat>)
    requires Tensors.Valid(t) && d < |t.shape| && Legal(s) && InShape(idx, t.shape[d := Length(s, t.shape[d])])
    ensures |idx| == |t.shape| && idx[d] < Length(s, t.shape[d])
    ensures var jdx := idx[d := Rows(s, t.shape[d])[idx[d]]];
      InShape(jdx, t.shape) && Tensors.At(SliceAxis(t, d, s), idx) == Tensors.At(t, jdx)
  {
    hide Tensors.At, Prod, Take, Rows, Length;
    TakeAt(t, d, Rows(s, t.shape[d]), idx);
  }

  // ---------------------------------------------------------------- the rows of a matrix

  /** Of a matrix only B is sliced. */
  function SliceRows(l: LoraTensor, s: Slice): LoraTensor
    requires Sound(l) && Dim(l) == 2 && Legal(s)
  {
    LoraTensor(l.a, SliceAxis(l.b, 0, s))
  }

  lemma SliceRowsTerm(l: LoraTensor, s: Slice, m: LoraTensor, idx: seq<nat>, jdx: seq<nat>, k: nat)
    requires Sound(l) && Dim(l) == 2 && Legal(s) && m == SliceRows(l, s) && Sound(m) && Rank(m) == Rank(l)
    requires InShape(idx, Shape(m)) && InShape(jdx, Shape(l)) && k < Rank(l)
    requires idx[0] < Length(s, l.b.shape[0]) && jdx == idx[0 := Rows(s, l.b.shape[0])[idx[0]]]
    ensures SameTerm(m, idx, l, jdx, k)
  {
    hide Tensors.At, Prod, Tensors.Valid, SliceAxis, Rows, Length;
    IndicesFit(m, idx, k);
    IndicesFit(l, jdx, k);
    SliceAt(l.b, 0, s, BIndex(idx, k));
    assert BIndex(idx, k)[0 := jdx[0]] == BIndex(jdx, k);
    assert AIndex(m.a.shape, idx, k) == AIndex(l.a.shape, jdx, k);
  }

  lemma SliceRowsSound(l: LoraTensor, s: Slice)
    requires Sound(l) && Dim(l) == 2 && Legal(s)
    ensures var m := SliceRows(l, s);
      Sound(m) && Rank(m) == Rank(l) && Shape(m) == Shape(l)[0 := Length(s, Shape(l)[0])] && Shape(l)[0] == l.b.shape[0]
  {
    hide Tensors.At, Prod, Tensors.Valid, SliceAxis, Length;
  }

  lemma SliceRowsProduct(l: LoraTensor, s: Slice)
    requires Sound(l) && Dim(l) == 2 && Legal(s)
    ensures Sound(SliceRows(l, s)) && Product(SliceRows(l, s)) == SliceAxis(Product(l), 0, s)
  {
    hide Tensors.At, Prod, Tensors.Valid, SliceAxis, Rows, Length, Element, Shape, SliceRows, SameTerm, Sound;
    SliceRowsSound(l, s);
    var m, w := SliceRows(l, s), SliceAxis(Product(l), 0, s);
    forall idx | InShape(idx, Shape(m)) ensures Tensors.At(w, idx) == Element(m, idx) {
      SliceAt(Product(l), 0, s, idx);
      var jdx := idx[0 := Rows(s, Shape(l)[0])[idx[0]]];
      ProductAt(l, jdx);
      forall k | 0 <= k < Rank(m) ensures SameTerm(m, idx, l, jdx, k) {
        SliceRowsTerm(l, s, m, idx, jdx, k);
      }
      SameElement(m, idx, l, jdx);
    }
    IsProduct(m, w);
  }

  // ---------------------------------------------------------------- the first of many axes

  /** With more than two axes the first axis of both factors is sliced alike. */
  function SliceLeading(l: LoraTensor, s: Slice): LoraTensor
    requires Sound(l) && Dim(l) > 2 && Legal(s)
  {
    LoraTensor(SliceAxis(l.a, 0, s), SliceAxis(l.b, 0, s))
  }

  /** Slicing fails to mean anything when A is repeated along the axis and the slice misses its one entry. */
  predicate MissesRepeated(l: LoraTensor, s: Slice)
    requires Sound(l) && Dim(l) > 2 && Legal(s)
  {
    l.a.shape[0] != l.b.shape[0] && Length(s, 1) == 0 && Length(s, l.b.shape[0]) != 0
  }

  /** Of one entry a slice takes that one or none. */
  lemma LengthOfOne(s: Slice)
    requires Legal(s)
    ensures Length(s, 1) <= 1 && (Length(s, 1) == 1 ==> Rows(s, 1)[0] == 0)
  {
    assert (1 + s.step - 1) / s.step == 1;
  }

  lemma SliceLeadingSound(l: LoraTensor, s: Slice)
    requires Sound(l) && Dim(l) > 2 && Legal(s)
    ensures var m := SliceLeading(l, s);
      && (Sound(m) <==> !MissesRepeated(l, s))
      && (Sound(m) ==> Rank(m) == Rank(l) && Shape(m) == Shape(l)[0 := Length(s, l.b.shape[0])])
    ensures Shape(l)[0] == l.b.shape[0]
  {
    hide Tensors.At, Prod, Tensors.Valid, SliceAxis, Length, Rows;
    LengthOfOne(s);
    var a, b := SliceLeading(l, s).a.shape, SliceLeading(l, s).b.shape;
    assert l.a.shape[0] == 1 || l.a.shape[0] == l.b.shape[0];
    assert a[0] == Length(s, l.a.shape[0]) && b[0] == Length(s, l.b.shape[0]);
    assert forall d | 0 < d < Dim(l) :: a[d] == l.a.shape[d] && b[d] == l.b.shape[d];
  }

  /** The entry of A that belongs to an entry of the slice is the slice's entry of A. */
  lemma SlicedIndex(a: seq<nat>, n: nat, s: Slice, idx: seq<nat>, jdx: seq<nat>, k: nat)
    requires |a| == |idx| > 2 && Legal(s) && (a[0] == 1 || a[0] == n) && idx[0] < Length(s, n)
    requires jdx == idx[0 := Rows(s, n)[idx[0]]] && Length(s, a[0]) > 0
    ensures var x := AIndex(a[0 := Length(s, a[0])], idx, k);
      x[0] < Length(s, a[0]) && x[0 := Rows(s, a[0])[x[0]]] == AIndex(a, jdx, k)
  {
    hide Length, Rows;
    LengthOfOne(s);
  }

  lemma SliceLeadingTerm(l: LoraTensor, s: Slice, m: LoraTensor, idx: seq<nat>, jdx: seq<nat>, k: nat)
    requires Sound(l) && Dim(l) > 2 && Legal(s) && m == SliceLeading(l, s) && Sound(m) && Rank(m) == Rank(l)
    requires InShape(idx, Shape(m)) && InShape(jdx, Shape(l)) && k < Rank(l)
    requires idx[0] < Length(s, l.b.shape[0]) && jdx == idx[0 := Rows(s, l.b.shape[0])[idx[0]]]
    requires Length(s, l.a.shape[0]) > 0
    ensures SameTerm(m, idx, l, jdx, k)
  {
    hide Tensors.At, Prod, Tensors.Valid, SliceAxis, Rows, Length, AIndex;
    IndicesFit(m, idx, k);
    IndicesFit(l, jdx, k);
    SliceAt(l.b, 0, s, BIndex(idx, k));
    assert BIndex(idx, k)[0 := jdx[0]] == BIndex(jdx, k);
    SliceAt(l.a, 0, s, AIndex(m.a.shape, idx, k));
    SlicedIndex(l.a.shape, l.b.shape[0], s, idx, jdx, k);
  }

  lemma SliceLeadingElement(l: LoraTensor, s: Slice, m: LoraTensor, idx: seq<nat>)
    requires Sound(l) && Dim(l) > 2 && Legal(s) && m == SliceLeading(l, s) && Sound(m)
    requires Rank(m) == Rank(l) && Shape(m) == Shape(l)[0 := Length(s, l.b.shape[0])] && InShape(idx, Shape(m))
    ensures InShape(idx, SliceAxis(Product(l), 0, s).shape)
    ensures Tensors.At(SliceAxis(Product(l), 0, s), idx) == Element(m, idx)
  {
    hide Tensors.At, Prod, Tensors.Valid, SliceAxis, Rows, Length, Element, SliceLeading, SameTerm, MissesRepeated;
    SliceLeadingSound(l, s);
    NotMissed(l, s);
    SliceAt(Product(l), 0, s, idx);
    var jdx := idx[0 := Rows(s, l.b.shape[0])[idx[0]]];
    ProductAt(l, jdx);
    forall k | 0 <= k < Rank(m) ensures SameTerm(m, idx, l, jdx, k) {
      SliceLeadingTerm(l, s, m, idx, jdx, k);
    }
    SameElement(m, idx, l, jdx);
  }

  lemma NotMissed(l: LoraTensor, s: Slice)
    requires Sound(l) && Dim(l) > 2 && Legal(s) && !MissesRepeated(l, s)
    ensures Length(s, l.b.shape[0]) > 0 ==> Length(s, l.a.shape[0]) > 0
  {
    hide Length, Tensors.Valid;
    assert l.a.shape[0] == 1 || l.a.shape[0] == l.b.shape[0];
  }

  /** A slice of the first axis stands for that slice of the product exactly when it does not miss a repeated A. */
  lemma SliceLeadingProduct(l: LoraTensor, s: Slice)
    requires Sound(l) && Dim(l) > 2 && Legal(s)
    ensures Sound(SliceLeading(l, s)) <==> !MissesRepeated(l, s)
    ensures !MissesRepeated(l, s) ==> Product(SliceLeading(l, s)) == SliceAxis(Product(l), 0, s)
  {
    hide Tensors.At, Prod, Tensors.Valid, SliceAxis, Length, Shape, Sound, SliceLeading, Element, MissesRepeated;
    SliceLeadingSound(l, s);
    if !MissesRepeated(l, s) {
      var m, w := SliceLeading(l, s), SliceAxis(Product(l), 0, s);
      forall idx | InShape(idx, Shape(m)) ensures Tensors.At(w, idx) == Element(m, idx) {
        SliceLeadingElement(l, s, m, idx);
      }
      IsProduct(m, w);
    }
  }
}
