/** Reshaping and scaling a tensor kept as two factors. */
module LoraReshape {
  import opened Wrappers
  import opened Tensors
  import opened Lora

  // ---------------------------------------------------------------- storage order

  /** The place of entry `i` in row `q`, when rows have length `n`. */
  function Place(q: nat, n: nat, i: nat): nat {
    q * n + i
  }

  /** The last axis moves fastest, so an element lies in a row of its own. */
  lemma RavelLast(shape: seq<nat>, idx: seq<nat>)
    requires shape != [] && InShape(idx, shape)
    ensures InShape(idx[..|idx| - 1], shape[..|shape| - 1])
    ensures Ravel(shape, idx) == Place(Ravel(shape[..|shape| - 1], idx[..|idx| - 1]), shape[|shape| - 1], idx[|idx| - 1])
  {
  }

  predicate AllOnes(shape: seq<nat>) {
    forall d | 0 <= d < |shape| :: shape[d] == 1
  }

  lemma {:induction false} OnesHoldOne(shape: seq<nat>, idx: seq<nat>)
    requires AllOnes(shape) && InShape(idx, shape)
    ensures Prod(shape) == 1 && Ravel(shape, idx) == 0
  {
    if shape != [] {
      OnesHoldOne(shape[..|shape| - 1], idx[..|idx| - 1]);
    }
  }

  lemma {:induction false} ProductOfOne(shape: seq<nat>)
    requires Prod(shape) == 1
    ensures AllOnes(shape)
  {
    if shape != [] {
      var front, last := Prod(shape[..|shape| - 1]), shape[|shape| - 1];
      OneTimesOne(front, last);
      ProductOfOne(shape[..|shape| - 1]);
    }
  }

  lemma OneTimesOne(x: nat, y: nat)
    requires x * y == 1
    ensures x == 1 && y == 1
  {
  }

  lemma ProdLast(shape: seq<nat>, n: nat)
    ensures Prod(shape + [n]) == Prod(shape) * n
  {
    assert (shape + [n])[..|shape|] == shape;
  }

  lemma ProdLastTwo(shape: seq<nat>, r: nat, n: nat)
    ensures Prod(shape + [r, n]) == Prod(shape) * r * n
  {
    ProdLast(shape, r);
    ProdLast(shape + [r], n);
    assert shape + [r] + [n] == shape + [r, n];
  }

  lemma Cancel(x: nat, y: nat, n: nat)
    requires n > 0 && x * n == y * n
    ensures x == y
  {
  }

  // ---------------------------------------------------------------- reshape

  function Ones(n: nat): (s: seq<nat>)
    ensures |s| == n && AllOnes(s)
  {
    seq(n, d => 1)
  }

  /** The new shape of A: its leading axes are gone. */
  function ShapeA(l: LoraTensor, shape: seq<nat>): seq<nat>
    requires Sound(l) && |shape| >= 2
  {
    Ones(|shape| - 2) + [Rank(l), Shape(l)[Dim(l) - 1]]
  }

  function ShapeB(l: LoraTensor, shape: seq<nat>): seq<nat>
    requires Sound(l) && |shape| >= 2
  {
    shape[..|shape| - 1] + [Rank(l)]
  }

  /** The last axis may not change; the factors are reshaped if they have as many elements as their new shapes. */
  function ReshapeLora(l: LoraTensor, shape: seq<nat>): Result<LoraTensor, Refusal>
    requires Sound(l)
  {
    if |shape| < 2 || shape[|shape| - 1] != Shape(l)[Dim(l) - 1] then Err(NotImplemented)
    else if Prod(ShapeA(l, shape)) != Prod(l.a.shape) || Prod(ShapeB(l, shape)) != Prod(l.b.shape) then Err(Mismatch)
    else Ok(LoraTensor(Reshape(l.a, ShapeA(l, shape)), Reshape(l.b, ShapeB(l, shape))))
  }

  lemma ReshapeSound(l: LoraTensor, shape: seq<nat>)
    requires Sound(l) && ReshapeLora(l, shape).Ok?
    ensures var m := ReshapeLora(l, shape).value;
            Sound(m) && Rank(m) == Rank(l) && Dim(m) == |shape| && Shape(m) == shape
            && m.a.shape == ShapeA(l, shape) && m.b.shape == ShapeB(l, shape)
  {
    hide Prod;
  }

  /** The rows of the product, row by row, are the rows of B. */
  lemma RowCounts(l: LoraTensor, shape: seq<nat>)
    requires Sound(l) && ReshapeLora(l, shape).Ok? && Rank(l) > 0
    ensures Prod(shape) == Prod(Shape(l))
    ensures Prod(shape[..|shape| - 1]) == Prod(l.b.shape[..Dim(l) - 1])
  {
    hide Prod, Tensors.Valid;
    var rows, rows' := l.b.shape[..Dim(l) - 1], shape[..|shape| - 1];
    ProdLast(rows', Rank(l));
    Rejoined(l.b.shape);
    Cancel(Prod(rows'), Prod(rows), Rank(l));
    Rejoined(shape);
    Rejoined(Shape(l));
    assert Shape(l)[..Dim(l) - 1] == rows;
  }

  lemma Rejoined(shape: seq<nat>)
    requires shape != []
    ensures Prod(shape) == Prod(shape[..|shape| - 1]) * shape[|shape| - 1]
  {
  }

  /** A row of A lies where its number says, if the leading axes have length one. */
  lemma RowOfA(shape: seq<nat>, idx: seq<nat>, n: nat)
    requires n == |shape| >= 2 && InShape(idx, shape) && AllOnes(shape[..n - 2])
    ensures Ravel(shape, idx) == Place(idx[n - 2], shape[n - 1], idx[n - 1])
  {
    RavelLast(shape, idx);
    RavelLast(shape[..n - 1], idx[..n - 1]);
    assert shape[..n - 1][..n - 2] == shape[..n - 2] && idx[..n - 1][..n - 2] == idx[..n - 2];
    OnesHoldOne(shape[..n - 2], idx[..n - 2]);
  }

  lemma LeadingOnes(l: LoraTensor, shape: seq<nat>)
    requires Sound(l) && ReshapeLora(l, shape).Ok? && Rank(l) > 0 && Shape(l)[Dim(l) - 1] > 0
    ensures AllOnes(l.a.shape[..Dim(l) - 2])
  {
    hide Prod, Tensors.Valid, Reshape;
    var n, r, c := Dim(l), Rank(l), Shape(l)[Dim(l) - 1];
    ProdLastTwo(Ones(|shape| - 2), r, c);
    OnesHoldOne(Ones(|shape| - 2), seq(|shape| - 2, d => 0));
    ProdLastTwo(l.a.shape[..n - 2], r, c);
    assert l.a.shape == l.a.shape[..n - 2] + [r, c];
    Cancel(Prod(l.a.shape[..n - 2]) * r, 1 * r, c);
    Cancel(Prod(l.a.shape[..n - 2]), 1, r);
    ProductOfOne(l.a.shape[..n - 2]);
  }

  lemma SplitOnce(q: nat, i: nat, q': nat, i': nat, n: nat)
    requires i < n && i' < n && Place(q, n, i) == Place(q', n, i')
    ensures q == q' && i == i'
  {
    RowOf(q, i, n);
    RowOf(q', i', n);
  }

  lemma LastFits(shape: seq<nat>, idx: seq<nat>)
    requires shape != [] && InShape(idx, shape)
    ensures |idx| == |shape| && idx[|idx| - 1] < shape[|shape| - 1]
  {
  }

  /** An element found at the same place in storage has the same last index and lies in the same row. */
  lemma SameRow(shape: seq<nat>, idx: seq<nat>, shape': seq<nat>, jdx: seq<nat>)
    requires shape != [] && shape' != [] && InShape(idx, shape) && InShape(jdx, shape')
    requires shape[|shape| - 1] == shape'[|shape'| - 1] && Ravel(shape, idx) == Ravel(shape', jdx)
    ensures idx[|idx| - 1] == jdx[|jdx| - 1]
    ensures InShape(idx[..|idx| - 1], shape[..|shape| - 1]) && InShape(jdx[..|jdx| - 1], shape'[..|shape'| - 1])
    ensures Ravel(shape[..|shape| - 1], idx[..|idx| - 1]) == Ravel(shape'[..|shape'| - 1], jdx[..|jdx| - 1])
  {
    hide Ravel, Prod, Place, InShape;
    RavelLast(shape, idx);
    RavelLast(shape', jdx);
    LastFits(shape, idx);
    LastFits(shape', jdx);
    SplitOnce(Ravel(shape[..|shape| - 1], idx[..|idx| - 1]), idx[|idx| - 1],
              Ravel(shape'[..|shape'| - 1], jdx[..|jdx| - 1]), jdx[|jdx| - 1], shape[|shape| - 1]);
  }

  lemma RowOfB(shape: seq<nat>, idx: seq<nat>, k: nat)
    requires shape != [] && |idx| == |shape| && InShape(BIndex(idx, k), shape) && InShape(idx[..|idx| - 1], shape[..|shape| - 1])
    ensures Ravel(shape, BIndex(idx, k)) == Place(Ravel(shape[..|shape| - 1], idx[..|idx| - 1]), shape[|shape| - 1], k)
  {
    RavelLast(shape, BIndex(idx, k));
    assert BIndex(idx, k)[..|idx| - 1] == idx[..|idx| - 1];
  }

  lemma FrontShape(l: LoraTensor)
    requires Sound(l)
    ensures Shape(l)[..Dim(l) - 1] == l.b.shape[..Dim(l) - 1]
  {
  }

  lemma ReshapeTermB(l: LoraTensor, m: LoraTensor, shape: seq<nat>, idx: seq<nat>, jdx: seq<nat>, k: nat)
    requires Sound(l) && Sound(m) && Shape(m) == shape && Rank(m) == Rank(l) && m.b.data == l.b.data
    requires InShape(idx, shape) && InShape(jdx, Shape(l)) && k < Rank(l)
    requires shape[|shape| - 1] == Shape(l)[Dim(l) - 1] && Ravel(shape, idx) == Ravel(Shape(l), jdx)
    requires InShape(BIndex(idx, k), m.b.shape) && InShape(BIndex(jdx, k), l.b.shape)
    ensures At(m.b, BIndex(idx, k)) == At(l.b, BIndex(jdx, k))
  {
    hide Prod, Ravel, BIndex, Tensors.Valid, Place;
    SameRow(shape, idx, Shape(l), jdx);
    FrontShape(l);
    FrontShape(m);
    RowOfB(m.b.shape, idx, k);
    RowOfB(l.b.shape, jdx, k);
  }

  lemma ReshapeTermA(l: LoraTensor, m: LoraTensor, idx: seq<nat>, jdx: seq<nat>, k: nat)
    requires Sound(l) && Sound(m) && Rank(m) == Rank(l) && m.a.data == l.a.data && |idx| == Dim(m) && |jdx| == Dim(l)
    requires AllOnes(l.a.shape[..Dim(l) - 2]) && AllOnes(m.a.shape[..Dim(m) - 2])
    requires idx[|idx| - 1] == jdx[|jdx| - 1] && m.a.shape[Dim(m) - 1] == l.a.shape[Dim(l) - 1]
    requires InShape(AIndex(m.a.shape, idx, k), m.a.shape) && InShape(AIndex(l.a.shape, jdx, k), l.a.shape)
    ensures At(m.a, AIndex(m.a.shape, idx, k)) == At(l.a, AIndex(l.a.shape, jdx, k))
  {
    RowOfA(m.a.shape, AIndex(m.a.shape, idx, k), Dim(m));
    RowOfA(l.a.shape, AIndex(l.a.shape, jdx, k), Dim(l));
  }

  lemma ReshapeTerm(l: LoraTensor, m: LoraTensor, shape: seq<nat>, idx: seq<nat>, jdx: seq<nat>, k: nat)
    requires Sound(l) && ReshapeLora(l, shape) == Ok(m) && Sound(m) && Shape(m) == shape && Rank(m) == Rank(l)
    requires InShape(idx, shape) && InShape(jdx, Shape(l)) && k < Rank(l)
    requires Ravel(shape, idx) == Ravel(Shape(l), jdx)
    ensures SameTerm(m, idx, l, jdx, k)
  {
    IndicesFit(m, idx, k);
    IndicesFit(l, jdx, k);
    SameRow(shape, idx, Shape(l), jdx);
    LeadingOnes(l, shape);
    assert m.a.shape[..Dim(m) - 2] == Ones(|shape| - 2);
    hide At, Ravel, Prod, BIndex, AIndex, Tensors.Valid;
    ReshapeTermA(l, m, idx, jdx, k);
    ReshapeTermB(l, m, shape, idx, jdx, k);
  }

  /** Without elements to count, reshaping factors of rank zero may change the number of elements of the product. */
  predicate Resizes(l: LoraTensor, shape: seq<nat>)
    requires Sound(l)
  {
    Rank(l) == 0 && Prod(shape) != Prod(Shape(l))
  }

  /** The rows of the new product are as many as those of the old one, unless the reshaping resizes it. */
  lemma ReshapeCounts(l: LoraTensor, shape: seq<nat>)
    requires Sound(l) && ReshapeLora(l, shape).Ok?
    ensures Prod(shape) == Prod(Shape(l)) <==> !Resizes(l, shape)
  {
    hide Prod, ReshapeLora, Shape;
    if Rank(l) > 0 { RowCounts(l, shape); }
  }

  /** Reshaping both factors reshapes the product, unless it resizes it. */
  lemma ReshapeProduct(l: LoraTensor, shape: seq<nat>)
    requires Sound(l) && ReshapeLora(l, shape).Ok?
    ensures Sound(ReshapeLora(l, shape).value) && Product(ReshapeLora(l, shape).value).shape == shape
    ensures Prod(shape) == Prod(Shape(l)) <==> !Resizes(l, shape)
    ensures !Resizes(l, shape) ==> Product(ReshapeLora(l, shape).value) == Reshape(Product(l), shape)
  {
    hide ReshapeLora, Prod, Ravel, Unravel, Element, SameTerm, Resizes;
    ReshapeSound(l, shape);
    ReshapeCounts(l, shape);
    if !Resizes(l, shape) {
      var m, w := ReshapeLora(l, shape).value, Reshape(Product(l), shape);
      forall idx | InShape(idx, shape) ensures At(w, idx) == Element(m, idx) {
        var jdx := Unravel(Shape(l), Ravel(shape, idx));
        ProductAt(l, jdx);
        assert At(w, idx) == At(Product(l), jdx);
        forall k | 0 <= k < Rank(m) ensures SameTerm(m, idx, l, jdx, k) {
          ReshapeTerm(l, m, shape, idx, jdx, k);
        }
        SameElement(m, idx, l, jdx);
      }
      IsProduct(m, w);
    }
  }

  // ---------------------------------------------------------------- inferred axes

  /** The product of the given axes, an axis to be inferred counting as one. */
  function Known(shape: seq<int>): int {
    if shape == [] then 1 else Known(shape[..|shape| - 1]) * (if shape[|shape| - 1] == -1 then 1 else shape[|shape| - 1])
  }

  /** An axis given as -1 gets what is left of the number of elements. */
  function Resolve(orig: seq<nat>, shape: seq<int>): Result<seq<nat>, Refusal> {
    if exists d | 0 <= d < |shape| :: shape[d] < -1 then Err(Mismatch)
    else if -1 !in shape then Ok(seq(|shape|, d requires 0 <= d < |shape| => if shape[d] < 0 then 0 else shape[d]))
    else if Known(shape) <= 0 || Prod(orig) % Known(shape) != 0 then Err(Mismatch)
    else Ok(seq(|shape|, d requires 0 <= d < |shape| => if shape[d] < 0 then Prod(orig) / Known(shape) else shape[d]))
  }

  // ---------------------------------------------------------------- repeating

  /** B may be repeated along axes of length one; A is then repeated along them without being changed. */
  predicate Enlarges(l: LoraTensor, shape: seq<nat>)
    requires Sound(l)
  {
    |shape| == Dim(l) && Broadcasts(l.b.shape, shape) && shape[Dim(l) - 1] == Rank(l)
  }

  function ExpandLora(l: LoraTensor, shape: seq<nat>): LoraTensor
    requires Sound(l) && Enlarges(l, shape)
  {
    LoraTensor(l.a, Expand(l.b, shape))
  }

  lemma ExpandSound(l: LoraTensor, shape: seq<nat>)
    requires Sound(l) && Enlarges(l, shape)
    ensures var m := ExpandLora(l, shape);
      Sound(m) && Rank(m) == Rank(l) && Dim(m) == Dim(l) && m.b.shape == shape && Broadcasts(Shape(l), Shape(m))
  {
    hide At, Prod, Tensors.Valid;
  }

  lemma ExpandTerm(l: LoraTensor, shape: seq<nat>, m: LoraTensor, idx: seq<nat>, jdx: seq<nat>, k: nat)
    requires Sound(l) && Enlarges(l, shape) && m == ExpandLora(l, shape) && Sound(m) && m.b.shape == shape
    requires InShape(idx, Shape(m)) && k < Rank(l)
    requires jdx == FactorIndex(Shape(l), idx) && InShape(jdx, Shape(l))
    ensures SameTerm(m, idx, l, jdx, k)
  {
    hide At, Prod, Tensors.Valid, Expand;
    IndicesFit(m, idx, k);
    IndicesFit(l, jdx, k);
    ExpandAt(l.b, shape, BIndex(idx, k));
    assert FactorIndex(l.b.shape, BIndex(idx, k)) == BIndex(jdx, k);
    assert AIndex(l.a.shape, idx, k) == AIndex(l.a.shape, jdx, k);
  }

  /** Repeating B repeats the product. */
  lemma ExpandProduct(l: LoraTensor, shape: seq<nat>)
    requires Sound(l) && Enlarges(l, shape)
    ensures var m := ExpandLora(l, shape);
      Sound(m) && Broadcasts(Shape(l), Shape(m)) && Product(m) == Expand(Product(l), Shape(m))
  {
    hide At, Prod, Tensors.Valid, Element, Expand, SameTerm, FactorIndex, Shape, Broadcasts, ExpandLora, Sound, Enlarges;
    ExpandSound(l, shape);
    var m := ExpandLora(l, shape);
    var w := Expand(Product(l), Shape(m));
    forall idx | InShape(idx, Shape(m)) ensures At(w, idx) == Element(m, idx) {
      ExpandAt(Product(l), Shape(m), idx);
      var jdx := FactorIndex(Shape(l), idx);
      ProductAt(l, jdx);
      forall k | 0 <= k < Rank(m) ensures SameTerm(m, idx, l, jdx, k) {
        ExpandTerm(l, shape, m, idx, jdx, k);
      }
      SameElement(m, idx, l, jdx);
    }
    IsProduct(m, w);
  }

  // ---------------------------------------------------------------- scaling

  /** A factor that is the same for a whole row, and that B has the shape for, is applied to B. */
  function ScaleRows(l: LoraTensor, factor: Tensor): LoraTensor
    requires Sound(l) && Tensors.Valid(factor) && Broadcasts(factor.shape, l.b.shape)
  {
    LoraTensor(l.a, Times(l.b, factor))
  }

  lemma {:induction false} DotScaled(u: seq<real>, u': seq<real>, v: seq<real>, c: real)
    requires |u| == |u'| == |v| && forall k | 0 <= k < |u| :: u'[k] == u[k] * c
    ensures Dot(u', v) == Dot(u, v) * c
  {
    if u != [] {
      DotScaled(u[1..], u'[1..], v[1..], c);
      assert u[0] * c * v[0] == u[0] * v[0] * c;
      assert (u[0] * v[0] + Dot(u[1..], v[1..])) * c == u[0] * v[0] * c + Dot(u[1..], v[1..]) * c;
    }
  }

  lemma FactorOfRow(factor: seq<nat>, idx: seq<nat>, k: nat)
    requires |factor| <= |idx| && idx != [] && (factor != [] ==> factor[|factor| - 1] == 1)
    ensures FactorIndex(factor, BIndex(idx, k)) == FactorIndex(factor, idx)
  {
  }

  lemma TimesTerm(b: Tensor, factor: Tensor, idx: seq<nat>, k: nat)
    requires Tensors.Valid(b) && Tensors.Valid(factor) && Broadcasts(factor.shape, b.shape)
    requires factor.shape != [] ==> factor.shape[|factor.shape| - 1] == 1
    requires |idx| == |b.shape| && idx != [] && InShape(BIndex(idx, k), b.shape)
    ensures InShape(FactorIndex(factor.shape, idx), factor.shape)
    ensures At(Times(b, factor), BIndex(idx, k)) == At(b, BIndex(idx, k)) * At(factor, FactorIndex(factor.shape, idx))
  {
    FactorOfRow(factor.shape, idx, k);
    hide At, Prod, Tensors.Valid, FactorIndex, BIndex;
    TimesAt(b, factor, BIndex(idx, k));
  }

  /** The factor is the same for a whole row. */
  predicate RowFactor(factor: seq<nat>) {
    factor == [] || factor[|factor| - 1] == 1
  }

  lemma TimesElement(l: LoraTensor, factor: Tensor, m: LoraTensor, idx: seq<nat>)
    requires Sound(l) && Tensors.Valid(factor) && Broadcasts(factor.shape, l.b.shape) && RowFactor(factor.shape)
    requires m == ScaleRows(l, factor) && Sound(m) && Rank(m) == Rank(l)
    requires InShape(idx, Shape(l)) && InShape(idx, Shape(m)) && InShape(FactorIndex(factor.shape, idx), factor.shape)
    ensures Element(m, idx) == Element(l, idx) * At(factor, FactorIndex(factor.shape, idx))
  {
    hide At, Prod, Tensors.Valid, FactorIndex, BIndex, AIndex, Times, Shape;
    var c := At(factor, FactorIndex(factor.shape, idx));
    var b, b', a, a' := BRow(l, idx), BRow(m, idx), AColumn(l, idx), AColumn(m, idx);
    forall k | 0 <= k < Rank(l) ensures b'[k] == b[k] * c && a'[k] == a[k] {
      TimesTerm(l.b, factor, idx, k);
    }
    assert a' == a;
    DotScaled(b, b', a, c);
  }

  lemma ScaleRowsSound(l: LoraTensor, factor: Tensor)
    requires Sound(l) && Tensors.Valid(factor) && Broadcasts(factor.shape, l.b.shape) && RowFactor(factor.shape)
    ensures var m := ScaleRows(l, factor);
      Sound(m) && Rank(m) == Rank(l) && Shape(m) == Shape(l) && Broadcasts(factor.shape, Shape(l))
  {
    hide Prod, At, Tensors.Valid;
  }

  lemma ScaleRowsProduct(l: LoraTensor, factor: Tensor)
    requires Sound(l) && Tensors.Valid(factor) && Broadcasts(factor.shape, l.b.shape) && RowFactor(factor.shape)
    ensures var m := ScaleRows(l, factor);
      Sound(m) && Broadcasts(factor.shape, Shape(l)) && Product(m) == Times(Product(l), factor)
  {
    hide Prod, At, Tensors.Valid, Element, FactorIndex, ScaleRows, Broadcasts, Shape, Times, InShape, ShapesFit, Sound;
    hide RowFactor;
    ScaleRowsSound(l, factor);
    var m := ScaleRows(l, factor);
    forall idx | InShape(idx, Shape(m)) ensures At(Times(Product(l), factor), idx) == Element(m, idx) {
      TimesAt(Product(l), factor, idx);
      ProductAt(l, idx);
      TimesElement(l, factor, m, idx);
    }
    IsProduct(m, Times(Product(l), factor));
  }

  /** Only a factor that is the same for a whole row may be applied: to B, which may have to be repeated for it. */
  function TimesLora(l: LoraTensor, factor: Tensor): Result<LoraTensor, Refusal>
    requires Sound(l) && Tensors.Valid(factor)
  {
    if !RowFactor(factor.shape) then Err(NotImplemented)
    else if !FitTogether(l.b.shape, factor.shape) then Err(Mismatch)
    else Ok(LoraTensor(l.a, Scaled(l.b, factor)))
  }

  /** Such a factor leaves the last axis alone, whatever its length. */
  lemma JointLast(shape: seq<nat>, factor: seq<nat>, x: nat)
    requires shape != [] && RowFactor(factor) && FitTogether(shape, factor)
    ensures Joint(shape, factor)[|shape| - 1] == shape[|shape| - 1]
    ensures FitTogether(shape[|shape| - 1 := x], factor)
    ensures Joint(shape[|shape| - 1 := x], factor) == Joint(shape, factor)[|shape| - 1 := x]
  {
    assert LinedUp(factor, |shape|, |shape| - 1) == 1;
    hide LinedUp;
  }

  lemma JointEnlarges(l: LoraTensor, factor: seq<nat>)
    requires Sound(l) && RowFactor(factor) && FitTogether(l.b.shape, factor)
    ensures Enlarges(l, Joint(l.b.shape, factor)) && FitTogether(Shape(l), factor)
    ensures Joint(l.b.shape, factor)[Dim(l) - 1 := Shape(l)[Dim(l) - 1]] == Joint(Shape(l), factor)
  {
    hide At, Prod, Tensors.Valid, FitTogether, Joint, RowFactor, Broadcasts;
    BothFill(l.b.shape, factor);
    JointLast(l.b.shape, factor, Shape(l)[Dim(l) - 1]);
  }

  /** Scaling the rows of B scales the rows of the product. */
  lemma TimesProduct(l: LoraTensor, factor: Tensor)
    requires Sound(l) && Tensors.Valid(factor) && TimesLora(l, factor).Ok?
    ensures var m := TimesLora(l, factor).value;
      Sound(m) && FitTogether(Shape(l), factor.shape) && Product(m) == Scaled(Product(l), factor)
  {
    hide Prod, At, Tensors.Valid, Element, FactorIndex, Broadcasts, Times, InShape, RowFactor, Expand, Joint, Enlarges;
    var shape := Joint(l.b.shape, factor.shape);
    JointEnlarges(l, factor.shape);
    BothFill(l.b.shape, factor.shape);
    BothFill(Shape(l), factor.shape);
    ExpandSound(l, shape);
    ExpandProduct(l, shape);
    ScaleRowsProduct(ExpandLora(l, shape), factor);
  }
}
