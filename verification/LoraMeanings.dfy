/** What each operation on a dense tensor gives, element by element, and what of it a pair refuses. */
module LoraMeanings {
  import opened Wrappers
  import opened Tensors
  import opened Lora
  import opened LoraReshape
  import opened LoraSlices
  import opened LoraIndices
  import opened LoraEllipsis
  import opened LoraOps
  import opened LoraStacks
  import opened LoraJoins
  import opened LoraRuns

  /** The axis that a number means: one below zero counts from the end. */
  function Axis(i: int, n: nat): int {
    if i < 0 then n + i else i
  }

  lemma FromEndIs(i: int, n: nat)
    ensures FromEnd(i, n).Ok? <==> 0 <= Axis(i, n) < n
    ensures FromEnd(i, n).Ok? ==> FromEnd(i, n).value == Axis(i, n)
  {
  }

  // ---------------------------------------------------------------- splitting

  /** Parts of n entries: there is one for every n entries begun, and one of none if there are none. */
  lemma {:induction false} EvenSizes(total: nat, n: nat, which: nat)
    requires n > 0 || total == 0
    ensures var r := SplitSizes(total, Every(n));
      && r.Ok?
      && (which < |r.value| <==> HasPart(total, n, which))
      && (which < |r.value| ==> r.value[which] == PartLength(total, n, which) && Total(r.value[..which]) == which * n)
    decreases total
  {
    if n > 0 && total > n {
      if which > 0 {
        EvenSizes(total - n, n, which - 1);
        OneLess(which, n);
        var r := SplitSizes(total, Every(n)).value;
        assert r == [n] + ChunkSizes(total - n, n);
        assert which < |r| ==> r[..which][1..] == ChunkSizes(total - n, n)[..which - 1];
      }
    } else {
      Many(which, n);
    }
  }

  lemma OneLess(k: nat, n: nat)
    requires k > 0
    ensures (k - 1) * n == k * n - n
  {
  }

  lemma Many(k: nat, n: nat)
    ensures k > 0 ==> k * n >= n
  {
    if k > 0 { OneLess(k, n); }
  }

  lemma {:induction false} SplitIs(w: Tensor, d: nat, start: nat, sizes: seq<nat>, which: nat)
    requires Tensors.Valid(w) && d < |w.shape| && start + Total(sizes) <= w.shape[d] && which < |sizes|
    ensures var from := start + Total(sizes[..which]);
      from + sizes[which] <= w.shape[d] && Split(w, d, start, sizes)[which] == Narrow(w, d, from, sizes[which])
    decreases sizes
  {
    hide Narrow, Tensors.Valid, Split;
    SplitStep(w, d, start, sizes);
    if which > 0 {
      SplitIs(w, d, start + sizes[0], sizes[1..], which - 1);
      assert sizes[..which][1..] == sizes[1..][..which - 1];
    } else {
      assert sizes[..0] == [];
    }
  }

  lemma SplitStep(w: Tensor, d: nat, start: nat, sizes: seq<nat>)
    requires Tensors.Valid(w) && d < |w.shape| && start + Total(sizes) <= w.shape[d] && sizes != []
    ensures sizes[0] + Total(sizes[1..]) == Total(sizes)
    ensures Split(w, d, start, sizes) == [Narrow(w, d, start, sizes[0])] + Split(w, d, start + sizes[0], sizes[1..])
  {
    hide Narrow, Tensors.Valid;
  }

  /** A part of an axis, given by how long it is and which entry it starts with. */
  ghost predicate IsPart(w: Tensor, d: int, from: int, len: int, r: Result<Tensor, Refusal>)
    requires Tensors.Valid(w)
  {
    && 0 <= d < |w.shape| && 0 <= from && 0 <= len && from + len <= w.shape[d]
    && r.Ok? && Tensors.Valid(r.value) && r.value.shape == w.shape[d := len]
    && forall idx | InShape(idx, r.value.shape) ::
      var jdx := idx[d := from + idx[d]]; InShape(jdx, w.shape) && Tensors.At(r.value, idx) == Tensors.At(w, jdx)
  }

  lemma NarrowIsPart(w: Tensor, d: nat, from: nat, len: nat)
    requires Tensors.Valid(w) && d < |w.shape| && from + len <= w.shape[d]
    ensures IsPart(w, d, from, len, Ok(Narrow(w, d, from, len)))
  {
    hide Tensors.At, Prod, Narrow;
    forall idx | InShape(idx, w.shape[d := len])
      ensures var jdx := idx[d := from + idx[d]];
        InShape(jdx, w.shape) && Tensors.At(Narrow(w, d, from, len), idx) == Tensors.At(w, jdx)
    {
      NarrowAt(w, d, from, len, idx);
    }
  }

  /** A part is looked up among the sizes. */
  lemma PartFound(w: Tensor, sizes: Sizes, dim: int, which: nat)
    requires Tensors.Valid(w)
    ensures var r, d := ApplyDense(w, Part(sizes, dim, which)), Axis(dim, |w.shape|);
      && (r.Ok? <==>
        && 0 <= d < |w.shape| && SplitSizes(w.shape[d], sizes).Ok?
        && which < |SplitSizes(w.shape[d], sizes).value|)
      && (r.Ok? ==> var list := SplitSizes(w.shape[d], sizes).value; IsPart(w, d, Total(list[..which]), list[which], r))
  {
    hide Tensors.Valid, IsPart, Narrow, Split, SplitSizes, FromEnd;
    FromEndIs(dim, |w.shape|);
    var d := Axis(dim, |w.shape|);
    if 0 <= d < |w.shape| && SplitSizes(w.shape[d], sizes).Ok? && which < |SplitSizes(w.shape[d], sizes).value| {
      var list := SplitSizes(w.shape[d], sizes).value;
      SplitIs(w, d, 0, list, which);
      NarrowIsPart(w, d, Total(list[..which]), list[which]);
    }
  }

  /** Splitting into parts of given sizes: the sizes make up the axis, and each part starts behind those before it. */
  lemma PartOfSizes(w: Tensor, sizes: seq<nat>, dim: int, which: nat)
    requires Tensors.Valid(w)
    ensures var r, d := ApplyDense(w, Part(These(sizes), dim, which)), Axis(dim, |w.shape|);
      && (r.Ok? <==> 0 <= d < |w.shape| && Total(sizes) == w.shape[d] && which < |sizes|)
      && (r.Ok? ==> IsPart(w, d, Total(sizes[..which]), sizes[which], r))
  {
    hide Tensors.Valid, IsPart, ApplyDense;
    PartFound(w, These(sizes), dim, which);
  }

  /** There is a part for every n entries begun, and one of none if there are none. */
  predicate HasPart(total: nat, n: nat, which: nat) {
    if total == 0 then which == 0 else n > 0 && which * n < total
  }

  function PartLength(total: nat, n: nat, which: nat): int {
    if total - which * n < n then total - which * n else n
  }

  /** Splitting into parts of n entries: all have n but for the last, which has what is left. */
  lemma PartOfEvery(w: Tensor, n: nat, dim: int, which: nat)
    requires Tensors.Valid(w)
    ensures var r, d := ApplyDense(w, Part(Every(n), dim, which)), Axis(dim, |w.shape|);
      && (r.Ok? <==> 0 <= d < |w.shape| && HasPart(w.shape[d], n, which))
      && (r.Ok? ==> IsPart(w, d, which * n, PartLength(w.shape[d], n, which), r))
  {
    hide Tensors.Valid, IsPart, ApplyDense, SplitSizes, HasPart, PartLength;
    PartFound(w, Every(n), dim, which);
    var d := Axis(dim, |w.shape|);
    if 0 <= d < |w.shape| {
      if n > 0 || w.shape[d] == 0 { EvenSizes(w.shape[d], n, which); } else { NoneOfNothing(w.shape[d], which); }
    }
  }

  lemma NoneOfNothing(total: nat, which: nat)
    requires total > 0
    ensures SplitSizes(total, Every(0)).Err? && !HasPart(total, 0, which)
  {
  }

  // ---------------------------------------------------------------- slices

  /** An entry is not before the lower bound of a slice; a bound below zero counts from the end. */
  predicate NotBefore(b: Bound, n: nat, j: int) {
    b.Open? || Axis(b.i, n) <= j
  }

  predicate Before(b: Bound, n: nat, j: int) {
    b.Open? || j < Axis(b.i, n)
  }

  /** Entries are in order. */
  predicate Rising(rows: seq<nat>) {
    forall i, k | 0 <= i < k < |rows| :: rows[i] < rows[k]
  }

  /** The entry is the first one not before the lower bound, or a number of steps behind it. */
  ghost predicate OnStep(s: Slice, n: nat, j: int)
    requires Legal(s)
  {
    exists first: nat :: IsFirst(s, n, first) && first <= j && (j - first) % s.step == 0
  }

  ghost predicate IsFirst(s: Slice, n: nat, first: nat) {
    NotBefore(s.lo, n, first) && forall j: nat | NotBefore(s.lo, n, j) :: first <= j
  }

  lemma FirstIs(s: Slice, n: nat, first: nat)
    requires IsFirst(s, n, first)
    ensures first < n || Start(s, n) < n ==> first == Start(s, n)
    ensures first >= n <==> Start(s, n) == n
  {
    var least := if s.lo.Open? || Axis(s.lo.i, n) < 0 then 0 else Axis(s.lo.i, n);
    assert NotBefore(s.lo, n, least);
  }

  lemma AFirst(s: Slice, n: nat) returns (first: nat)
    ensures IsFirst(s, n, first)
  {
    first := if s.lo.Open? || Axis(s.lo.i, n) < 0 then 0 else Axis(s.lo.i, n);
  }

  /** The entries that a slice takes: those between its bounds and on its steps, in order. */
  lemma RowsMean(s: Slice, n: nat)
    requires Legal(s)
    ensures Rising(Rows(s, n))
    ensures forall j: nat :: j in Rows(s, n) <==> j < n && NotBefore(s.lo, n, j) && Before(s.hi, n, j) && OnStep(s, n, j)
  {
    hide Rows, Length, OnStep, IsFirst;
    RowsRise(s, n);
    forall j: nat ensures j in Rows(s, n) <==> j < n && NotBefore(s.lo, n, j) && Before(s.hi, n, j) && OnStep(s, n, j) {
      if j in Rows(s, n) { RowMeans(s, n, j); }
      if j < n && NotBefore(s.lo, n, j) && Before(s.hi, n, j) && OnStep(s, n, j) { MeantRow(s, n, j); }
    }
  }

  lemma RowsRise(s: Slice, n: nat)
    requires Legal(s)
    ensures Rising(Rows(s, n))
  {
    hide Length, Start;
    var rows := Rows(s, n);
    forall i: nat, k: nat | i < k < |rows| ensures rows[i] < rows[k] {
      Smaller(i + 1, k, s.step);
      assert (i + 1) * s.step == i * s.step + s.step;
    }
  }

  lemma RowMeans(s: Slice, n: nat, j: nat)
    requires Legal(s) && j in Rows(s, n)
    ensures j < n && NotBefore(s.lo, n, j) && Before(s.hi, n, j) && OnStep(s, n, j)
  {
    hide Rows, IsFirst;
    var i: nat :| i < |Rows(s, n)| && Rows(s, n)[i] == j;
    var first := AFirst(s, n);
    FirstIs(s, n, first);
    var w := Stop(s, n) - Start(s, n);
    Within(w, s.step, i);
    RowOf(i, 0, s.step);
    assert j - first == i * s.step;
  }

  lemma MeantRow(s: Slice, n: nat, j: nat)
    requires Legal(s) && j < n && NotBefore(s.lo, n, j) && Before(s.hi, n, j) && OnStep(s, n, j)
    ensures j in Rows(s, n)
  {
    hide Rows, IsFirst, Length;
    var first: nat :| IsFirst(s, n, first) && first <= j && (j - first) % s.step == 0;
    FirstIs(s, n, first);
    TakenRow(s, n, j);
  }

  lemma TakenRow(s: Slice, n: nat, j: nat)
    requires Legal(s) && Start(s, n) <= j < Stop(s, n) && (j - Start(s, n)) % s.step == 0
    ensures j in Rows(s, n)
  {
    hide Rows, Start, Stop;
    var x, p := j - Start(s, n), s.step;
    var k := x / p;
    assert x == p * k + x % p;
    assert k * p == x;
    StepsWithin(Stop(s, n) - Start(s, n), p, k);
    assert Rows(s, n)[k] == j;
  }

  lemma StepsWithin(w: int, p: int, k: nat)
    requires 0 < p && k * p < w
    ensures k < (w + p - 1) / p
  {
    var q := (w + p - 1) / p;
    assert w + p - 1 == p * q + (w + p - 1) % p;
    Multiply(k, q, p);
  }

  lemma Multiply(k: int, q: int, p: int)
    requires 0 < p && k * p < q * p
    ensures k < q
  {
    if q <= k { Smaller(q, k, p); }
  }

  /** Slicing the first axis takes those entries. */
  lemma SliceMeans(w: Tensor, s: Slice)
    requires Tensors.Valid(w)
    ensures var r := ApplyDense(w, First(s));
      && (r.Ok? <==> w.shape != [] && s.step > 0)
      && (r.Ok? ==>
        var rows := Rows(s, w.shape[0]);
        && Tensors.Valid(r.value) && r.value.shape == w.shape[0 := |rows|]
        && forall idx | InShape(idx, r.value.shape) ::
          && idx[0] < |rows| && InShape(idx[0 := rows[idx[0]]], w.shape)
          && Tensors.At(r.value, idx) == Tensors.At(w, idx[0 := rows[idx[0]]]))
  {
    hide Tensors.At, Prod, Rows, Length, SliceAxis;
    if w.shape != [] && s.step > 0 {
      var rows, t := Rows(s, w.shape[0]), SliceAxis(w, 0, s);
      forall idx | InShape(idx, t.shape)
        ensures idx[0] < |rows| && InShape(idx[0 := rows[idx[0]]], w.shape)
        ensures Tensors.At(t, idx) == Tensors.At(w, idx[0 := rows[idx[0]]])
      {
        SliceAt(w, 0, s, idx);
      }
    }
  }

  // ---------------------------------------------------------------- permuting

  predicate NamesEachOnce(dims: seq<int>, n: nat) {
    && |dims| == n
    && (forall i | 0 <= i < n :: 0 <= Axis(dims[i], n) < n)
    && (forall i, j | 0 <= i < j < n :: Axis(dims[i], n) != Axis(dims[j], n))
  }

  /** Distinct numbers below n, n of them, are all the numbers below n. */
  lemma AllNamed(ds: seq<nat>, n: nat)
    requires |ds| == n && (forall i | 0 <= i < n :: ds[i] < n) && (forall i, j | 0 <= i < j < n :: ds[i] != ds[j])
    ensures forall d: nat | d < n :: d in ds
  {
    var all, named := Below(n), set i | 0 <= i < n :: ds[i];
    CountNamed(ds);
    assert named <= all;
    SameCount(named, all);
    forall d: nat | d < n ensures d in ds { assert d in all; }
  }

  function Below(n: nat): (r: set<nat>)
    ensures |r| == n && forall d: nat :: d in r <==> d < n
  {
    if n == 0 then {} else Below(n - 1) + {n - 1}
  }

  lemma {:induction false} CountNamed(ds: seq<nat>)
    requires forall i, j | 0 <= i < j < |ds| :: ds[i] != ds[j]
    ensures |set i | 0 <= i < |ds| :: ds[i]| == |ds|
  {
    if ds != [] {
      var m := |ds| - 1;
      CountNamed(ds[..m]);
      var front := set i | 0 <= i < m :: ds[..m][i];
      assert (set i | 0 <= i < |ds| :: ds[i]) == front + {ds[m]};
    }
  }

  lemma SameCount(a: set<nat>, b: set<nat>)
    requires a <= b && |a| == |b|
    ensures a == b
  {
    if a != b {
      var x :| x in b && x !in a;
      assert a <= b - {x};
      Fewer(a, b - {x});
    }
  }

  lemma {:induction false} Fewer(a: set<nat>, b: set<nat>)
    requires a <= b
    ensures |a| <= |b|
    decreases a
  {
    if a != {} {
      var x :| x in a;
      Fewer(a - {x}, b - {x});
    }
  }

  lemma AxesMean(dims: seq<int>, n: nat)
    ensures Axes(dims, n).Ok? <==> NamesEachOnce(dims, n)
    ensures Axes(dims, n).Ok? ==> forall i | 0 <= i < n :: Axes(dims, n).value[i] == Axis(dims[i], n)
  {
    if |dims| == n && forall i | 0 <= i < n :: FromEnd(dims[i], n).Ok? {
      var ds := seq(n, i requires 0 <= i < n => if FromEnd(dims[i], n).Ok? then FromEnd(dims[i], n).value else 0);
      assert forall i | 0 <= i < n :: ds[i] == Axis(dims[i], n);
      if NamesEachOnce(dims, n) { AllNamed(ds, n); }
    }
  }

  /** Permuting: axis i of the outcome is the axis that entry i of the list names. */
  lemma PermuteMeans(w: Tensor, dims: seq<int>)
    requires Tensors.Valid(w)
    ensures var r, n := ApplyDense(w, Permuting(dims)), |w.shape|;
      && (r.Ok? <==> NamesEachOnce(dims, n))
      && (r.Ok? ==>
        && Tensors.Valid(r.value) && |r.value.shape| == n
        && (forall i | 0 <= i < n :: r.value.shape[i] == w.shape[Axis(dims[i], n)])
        && (forall idx, jdx | InShape(idx, w.shape) && |jdx| == n && (forall i | 0 <= i < n :: jdx[i] == idx[Axis(dims[i], n)]) ::
          InShape(jdx, r.value.shape) && Tensors.At(r.value, jdx) == Tensors.At(w, idx)))
  {
    hide Tensors.At, Prod, Tensors.Valid, Permute, Axes;
    var n := |w.shape|;
    AxesMean(dims, n);
    if NamesEachOnce(dims, n) {
      var ds := Axes(dims, n).value;
      forall idx, jdx | InShape(idx, w.shape) && |jdx| == n && (forall i | 0 <= i < n :: jdx[i] == idx[Axis(dims[i], n)])
        ensures InShape(jdx, Permuted(w.shape, ds)) && Tensors.At(Permute(w, ds), jdx) == Tensors.At(w, idx)
      {
        PermuteAt(w, ds, jdx);
        SameUnpermuted(idx, jdx, ds);
      }
    }
  }

  lemma SameUnpermuted(idx: seq<nat>, jdx: seq<nat>, ds: seq<nat>)
    requires IsPermutation(ds, |idx|) && |jdx| == |idx| && forall i | 0 <= i < |idx| :: jdx[i] == idx[ds[i]]
    ensures Unpermuted(jdx, ds) == idx
  {
    var u := Unpermuted(jdx, ds);
    forall d | 0 <= d < |idx| ensures u[d] == idx[d] {
      var i := Tensors.Find(ds, d);
      assert u[ds[i]] == jdx[i];
    }
  }

  // ---------------------------------------------------------------- reshaping

  /** The index comes first when rows are read one after the other. */
  predicate ComesFirst(idx: seq<nat>, jdx: seq<nat>) {
    |idx| == |jdx| && exists d | 0 <= d < |idx| :: idx[d] < jdx[d] && idx[..d] == jdx[..d]
  }

  /** Elements are stored row by row: the one that comes first is stored first. */
  lemma {:induction false} StoredInOrder(shape: seq<nat>, idx: seq<nat>, jdx: seq<nat>)
    requires InShape(idx, shape) && InShape(jdx, shape) && ComesFirst(idx, jdx)
    ensures Ravel(shape, idx) < Ravel(shape, jdx)
  {
    var m := |shape| - 1;
    var d :| 0 <= d < |idx| && idx[d] < jdx[d] && idx[..d] == jdx[..d];
    var n, q, q' := shape[m], Ravel(shape[..m], idx[..m]), Ravel(shape[..m], jdx[..m]);
    if d < m {
      assert idx[..m][..d] == idx[..d] && jdx[..m][..d] == jdx[..d];
      StoredInOrder(shape[..m], idx[..m], jdx[..m]);
      RowEnd(q, idx[m], q', n);
    } else {
      assert idx[..m] == jdx[..m];
    }
  }

  /** The list with every -1 replaced by the same number. */
  function Filled(shape: seq<int>, q: nat): (r: seq<nat>)
    requires NoneBelow(shape)
    ensures |r| == |shape| && forall d | 0 <= d < |shape| :: r[d] == if shape[d] == -1 then q else shape[d]
  {
    seq(|shape|, d requires 0 <= d < |shape| => if shape[d] == -1 then q else shape[d])
  }

  function Opened(shape: seq<int>): nat {
    if shape == [] then 0 else Opened(shape[..|shape| - 1]) + if shape[|shape| - 1] == -1 then 1 else 0
  }

  lemma {:induction false} NoneOpened(shape: seq<int>)
    ensures Opened(shape) == 0 <==> -1 !in shape
  {
    if shape != [] {
      var m := |shape| - 1;
      NoneOpened(shape[..m]);
      assert shape == shape[..m] + [shape[m]];
    }
  }

  lemma {:induction false} FilledCount(shape: seq<int>, q: nat)
    requires forall d | 0 <= d < |shape| :: shape[d] >= -1
    ensures Known(shape) == Prod(Filled(shape, 1))
    ensures Opened(shape) == 0 ==> Prod(Filled(shape, q)) == Known(shape)
    ensures Opened(shape) == 1 ==> Prod(Filled(shape, q)) == Known(shape) * q
  {
    if shape != [] {
      var m := |shape| - 1;
      var front, x := shape[..m], shape[m];
      FilledCount(front, q);
      assert Filled(shape, q)[..m] == Filled(front, q) && Filled(shape, 1)[..m] == Filled(front, 1);
      if x != -1 { Exchanged(Known(front), q, x); }
    }
  }

  lemma Exchanged(k: int, q: int, x: int)
    ensures (k * q) * x == (k * x) * q
  {
  }

  lemma Quotient(k: nat, q: nat)
    requires k > 0
    ensures k * q % k == 0 && k * q / k == q
  {
    RowOf(q, 0, k);
  }

  predicate NoneBelow(shape: seq<int>) {
    forall d | 0 <= d < |shape| :: shape[d] >= -1
  }

  /** What an inferred axis comes to. */
  lemma ResolvedWith(orig: seq<nat>, shape: seq<int>) returns (fill: nat)
    requires Resolve(orig, shape).Ok?
    ensures NoneBelow(shape) && Resolve(orig, shape).value == Filled(shape, fill)
    ensures -1 in shape ==> Known(shape) > 0 && fill == Prod(orig) / Known(shape)
  {
    hide Prod, Known;
    assert NoneBelow(shape);
    fill := if -1 in shape then Prod(orig) / Known(shape) else 0;
    var r := Resolve(orig, shape).value;
    assert forall d | 0 <= d < |shape| :: r[d] == if shape[d] == -1 then fill else shape[d];
  }

  lemma Resolves(orig: seq<nat>, shape: seq<int>)
    requires NoneBelow(shape) && (-1 in shape ==> Known(shape) > 0 && Prod(orig) % Known(shape) == 0)
    ensures Resolve(orig, shape).Ok?
  {
    hide Prod, Known;
  }

  lemma FilledSame(shape: seq<int>, q: nat, fill: nat)
    requires NoneBelow(shape) && -1 !in shape
    ensures Filled(shape, q) == Filled(shape, fill)
  {
  }

  /** The length that makes the number of elements right is found. */
  lemma ResolvedTo(orig: seq<nat>, shape: seq<int>, q: nat)
    requires NoneBelow(shape) && Prod(Filled(shape, q)) == Prod(orig)
    requires Opened(shape) == 0 || (Opened(shape) == 1 && Prod(Filled(shape, 1)) > 0)
    ensures Resolve(orig, shape) == Ok(Filled(shape, q))
  {
    hide Prod, Known, Filled, Resolve;
    NoneOpened(shape);
    FilledCount(shape, q);
    if -1 in shape { Quotient(Known(shape), q); }
    Resolves(orig, shape);
    var fill := ResolvedWith(orig, shape);
    if -1 !in shape { FilledSame(shape, q, fill); }
  }

  /** Reshaping keeps the elements as they are stored; -1 stands for the length that makes their number right. */
  lemma ReshapeMeans(w: Tensor, shape: seq<int>, q: nat)
    requires Tensors.Valid(w)
    ensures var r := ApplyDense(w, Reshaping(shape));
      && (r.Ok? ==>
        && r.value.data == w.data && Prod(r.value.shape) == Prod(w.shape)
        && NoneBelow(shape) && exists fill :: r.value.shape == Filled(shape, fill))
      && (NoneBelow(shape) && Prod(Filled(shape, q)) == Prod(w.shape)
        && (Opened(shape) == 0 || (Opened(shape) == 1 && Prod(Filled(shape, 1)) > 0))
        ==> r.Ok? && r.value.shape == Filled(shape, q))
  {
    hide Prod, Filled, Resolve, NoneBelow;
    if Resolve(w.shape, shape).Ok? { var fill := ResolvedWith(w.shape, shape); }
    if NoneBelow(shape) && Prod(Filled(shape, q)) == Prod(w.shape)
      && (Opened(shape) == 0 || (Opened(shape) == 1 && Prod(Filled(shape, 1)) > 0))
    {
      ResolvedTo(w.shape, shape, q);
    }
  }

  // ---------------------------------------------------------------- joining, stacking, scaling

  /** Every element of the k-th tensor behind the first one. */
  lemma {:induction false} JoinedAt(w: Tensor, others: seq<Tensor>, k: nat, idx: seq<nat>)
    requires Joinable(w, others) && k < |others| && InShape(idx, others[k].shape)
    ensures var row, c := w.shape[0] + TotalLead(others[..k]) + idx[0], CatAll(w, others);
      Tensors.Valid(c) && InShape(idx[0 := row], c.shape) && Tensors.At(c, idx[0 := row]) == Tensors.At(others[k], idx)
    decreases |others|
  {
    hide Tensors.At, Prod, Cat, Tensors.Valid;
    CatAllStep(w, others);
    CatAllShape(w, others);
    var w' := Cat(w, others[0]);
    if k == 0 {
      var jdx := idx[0 := w.shape[0] + idx[0]];
      TailAt(w.shape, others[0].shape);
      CatAt(w, others[0], jdx);
      assert jdx[0 := jdx[0] - w.shape[0]] == idx;
      CatAllFront(w', others[1..], jdx);
    } else {
      assert others[..k][1..] == others[1..][..k - 1];
      JoinedAt(w', others[1..], k - 1, idx);
    }
  }

  lemma StackedAt(ts: seq<Tensor>, shape: seq<nat>, k: nat, idx: seq<nat>)
    requires (forall i | 0 <= i < |ts| :: Tensors.Valid(ts[i]) && ts[i].shape == shape) && k < |ts| && InShape(idx, shape)
    ensures InShape([k] + idx, [|ts|] + shape) && Tensors.At(Stack(ts, shape), [k] + idx) == Tensors.At(ts[k], idx)
  {
    hide Tensors.At, Prod, Stack, Tensors.Valid;
    assert ([k] + idx)[1..] == idx;
    StackAt(ts, shape, [k] + idx);
  }

  /** Stacking: entry k of the new first axis is the k-th tensor. */
  lemma StackMeans(w: Tensor, others: seq<LoraTensor>, k: nat, idx: seq<nat>)
    requires Tensors.Valid(w) && InShape(idx, w.shape) && k <= |others|
    ensures var r := ApplyDense(w, Stacking(others));
      && (r.Ok? <==> forall i | 0 <= i < |others| :: Sound(others[i]) && Shape(others[i]) == w.shape)
      && (r.Ok? ==>
        && Tensors.Valid(r.value) && r.value.shape == [1 + |others|] + w.shape
        && InShape([k] + idx, r.value.shape)
        && Tensors.At(r.value, [k] + idx) == if k == 0 then Tensors.At(w, idx) else Tensors.At(Product(others[k - 1]), idx))
  {
    hide Tensors.At, Prod, Product, Stack, Tensors.Valid, ShapesFit, InShape, Sound, Shape;
    if forall i | 0 <= i < |others| :: Sound(others[i]) && Shape(others[i]) == w.shape {
      var ts := [w] + Products(others);
      assert forall i | 0 < i < |ts| :: ts[i] == Product(others[i - 1]);
      StackedAt(ts, w.shape, k, idx);
    }
  }

  /** An entry along an axis that may have to be repeated. */
  function Shared(len: nat, i: nat): nat {
    if len == 1 then 0 else i
  }

  /** Scaling: each element times the factor's in line with it, where axes are lined up from the last one. */
  lemma ScaleMeans(w: Tensor, factor: Tensor, idx: seq<nat>, jdx: seq<nat>, kdx: seq<nat>)
    requires Tensors.Valid(w) && Tensors.Valid(factor)
    requires ApplyDense(w, Scaling(factor)).Ok?
    requires InShape(idx, ApplyDense(w, Scaling(factor)).value.shape)
    requires |jdx| == |w.shape| == |idx| && forall d | 0 <= d < |jdx| :: jdx[d] == Shared(w.shape[d], idx[d])
    requires |kdx| == |factor.shape| <= |idx|
    requires forall d | 0 <= d < |kdx| :: kdx[d] == Shared(factor.shape[d], idx[|idx| - |kdx| + d])
    ensures Tensors.Valid(ApplyDense(w, Scaling(factor)).value) && InShape(jdx, w.shape) && InShape(kdx, factor.shape)
    ensures Tensors.At(ApplyDense(w, Scaling(factor)).value, idx) == Tensors.At(w, jdx) * Tensors.At(factor, kdx)
  {
    hide Tensors.At, Prod, Scaled, Joint, Tensors.Valid, FitTogether;
    ScaledAt(w, factor, idx);
    assert FactorIndex(w.shape, idx) == jdx && FactorIndex(factor.shape, idx) == kdx;
  }

  lemma ScaledAt(w: Tensor, factor: Tensor, idx: seq<nat>)
    requires Tensors.Valid(w) && Tensors.Valid(factor) && FitTogether(w.shape, factor.shape)
    requires InShape(idx, Joint(w.shape, factor.shape))
    ensures |idx| == |w.shape| && InShape(FactorIndex(w.shape, idx), w.shape)
    ensures InShape(FactorIndex(factor.shape, idx), factor.shape)
    ensures Tensors.At(Scaled(w, factor), idx)
      == Tensors.At(w, FactorIndex(w.shape, idx)) * Tensors.At(factor, FactorIndex(factor.shape, idx))
  {
    hide Tensors.At, Prod, Times, Expand, Joint, Tensors.Valid, FitTogether, FactorIndex;
    var joint := Joint(w.shape, factor.shape);
    BothFill(w.shape, factor.shape);
    ExpandAt(w, joint, idx);
    TimesAt(Expand(w, joint), factor, idx);
  }

  /** Factors are taken when each axis, lined up from the last, is the tensor's or one of the two is one. */
  lemma ScalesExactly(w: Tensor, factor: Tensor)
    requires Tensors.Valid(w)
    ensures var n, m := |w.shape|, |factor.shape|;
      ApplyDense(w, Scaling(factor)).Ok? <==>
        && Tensors.Valid(factor) && m <= n
        && forall d | 0 <= d < m :: factor.shape[d] == 1 || w.shape[n - m + d] == 1 || factor.shape[d] == w.shape[n - m + d]
  {
    var n, m := |w.shape|, |factor.shape|;
    if m <= n && !FitTogether(w.shape, factor.shape) {
      var d :| 0 <= d < n && !(LinedUp(factor.shape, n, d) == 1 || w.shape[d] == 1 || LinedUp(factor.shape, n, d) == w.shape[d]);
      assert factor.shape[d - (n - m)] != 1;
    }
    if FitTogether(w.shape, factor.shape) {
      forall d | 0 <= d < m ensures factor.shape[d] == 1 || w.shape[n - m + d] == 1 || factor.shape[d] == w.shape[n - m + d] {
        assert LinedUp(factor.shape, n, n - m + d) == factor.shape[d];
      }
    }
  }

  // ---------------------------------------------------------------- index tuples

  /** How many axes of the outcome come from the first d axes: a number drops its axis. */
  function KeptAxes(ix: seq<Index>, d: nat): nat {
    if d == 0 || ix == [] then d else (if ix[0].Number? then 0 else 1) + KeptAxes(ix[1..], d - 1)
  }

  predicate FitsAxis(i: Index, n: nat) {
    match i
    case Number(j) => 0 <= Axis(j, n) < n
    case Span(s) => s.step > 0
    case Ellipsis => false
  }

  predicate FitsShape(ix: seq<Index>, shape: seq<nat>) {
    |ix| <= |shape| && forall d | 0 <= d < |ix| :: FitsAxis(ix[d], shape[d])
  }

  lemma {:induction false} ShapedExactly(shape: seq<nat>, ix: seq<Index>)
    ensures Shaped(shape, ix).Some? <==> FitsShape(ix, shape)
    ensures Shaped(shape, ix).Some? ==> |Shaped(shape, ix).value| == KeptAxes(ix, |shape|)
    decreases |ix|
  {
    hide Length;
    if ix != [] && shape != [] {
      ShapedExactly(shape[1..], ix[1..]);
      if FitsShape(ix[1..], shape[1..]) && FitsAxis(ix[0], shape[0]) {
        forall d | 0 <= d < |ix| ensures FitsAxis(ix[d], shape[d]) {
          if d > 0 { assert FitsAxis(ix[1..][d - 1], shape[1..][d - 1]); }
        }
      }
      if FitsShape(ix, shape) {
        forall d | 0 <= d < |ix| - 1 ensures FitsAxis(ix[1..][d], shape[1..][d]) { assert FitsAxis(ix[d + 1], shape[d + 1]); }
        assert FitsAxis(ix[0], shape[0]);
      }
    }
  }

  /** Where an element comes from along one axis. */
  predicate ComesFrom(shape: seq<nat>, ix: seq<Index>, r: seq<nat>, d: nat, p: nat)
    requires d < |shape|
  {
    if d < |ix| && ix[d].Number? then p == Axis(ix[d].i, shape[d])
    else
      var k := KeptAxes(ix, d);
      && k < |r|
      && if d < |ix| && ix[d].Span? then
           Legal(ix[d].slice) && r[k] < |Rows(ix[d].slice, shape[d])| && p == Rows(ix[d].slice, shape[d])[r[k]]
         else p == r[k] < shape[d]
  }

  lemma ComesFromNext(shape: seq<nat>, ix: seq<Index>, r: seq<nat>, d: nat, p: nat)
    requires 0 < d < |shape| && ix != [] && (ix[0].Span? ==> r != []) && ix[0] != Ellipsis
    requires ComesFrom(shape[1..], ix[1..], Onward(ix[0], r), d - 1, p)
    ensures ComesFrom(shape, ix, r, d, p)
  {
    hide Rows;
    var more := KeptAxes(ix[1..], d - 1);
    assert KeptAxes(ix, d) == (if ix[0].Number? then 0 else 1) + more;
    assert d < |ix| ==> ix[1..][d - 1] == ix[d];
    assert shape[1..][d - 1] == shape[d];
  }

  lemma FirstComesFrom(shape: seq<nat>, ix: seq<Index>, r: seq<nat>)
    requires ix != [] && shape != [] && Shaped(shape, ix).Some? && InShape(r, Shaped(shape, ix).value)
    ensures ComesFrom(shape, ix, r, 0, Places(shape, ix, r)[0])
    ensures ix[0].Span? ==> r != []
  {
    hide Rows, Length;
    assert Places(shape, ix, r)[0] == Fetch(ix[0], shape[0], r);
  }

  lemma {:induction false} PlacesMean(shape: seq<nat>, ix: seq<Index>, r: seq<nat>, d: nat)
    requires Shaped(shape, ix).Some? && InShape(r, Shaped(shape, ix).value) && d < |shape|
    ensures ComesFrom(shape, ix, r, d, Places(shape, ix, r)[d])
    decreases |ix|
  {
    hide Length, Rows, Fetch, ComesFrom;
    if ix == [] {
      NoIndex(shape, r, d);
    } else {
      FirstComesFrom(shape, ix, r);
      if d > 0 {
        PlacesMean(shape[1..], ix[1..], Onward(ix[0], r), d - 1);
        ComesFromNext(shape, ix, r, d, Places(shape, ix, r)[d]);
      }
    }
  }

  lemma NoIndex(shape: seq<nat>, r: seq<nat>, d: nat)
    requires InShape(r, shape) && d < |shape|
    ensures ComesFrom(shape, [], r, d, Places(shape, [], r)[d])
  {
  }

  /** A tuple of slices and numbers: numbers pin their axis, slices take their entries, other axes stay whole. */
  lemma IndexMeans(w: Tensor, ix: seq<Index>, idx: seq<nat>, jdx: seq<nat>)
    requires Tensors.Valid(w) && LoraEllipsis.Plain(ix)
    ensures var r := ApplyDense(w, Tuple(ix));
      && (r.Ok? <==> FitsShape(ix, w.shape))
      && (r.Ok? ==> Tensors.Valid(r.value) && |r.value.shape| == KeptAxes(ix, |w.shape|))
      && (r.Ok? && InShape(idx, r.value.shape)
        && |jdx| == |w.shape| && (forall d | 0 <= d < |jdx| :: ComesFrom(w.shape, ix, idx, d, jdx[d]))
        ==> InShape(jdx, w.shape) && Tensors.At(r.value, idx) == Tensors.At(w, jdx))
  {
    hide Tensors.At, Prod, Shaped, Places, Rows, Length, ComesFrom, KeptAxes, FitsShape, Indexed;
    ShapedExactly(w.shape, ix);
    if Shaped(w.shape, ix).Some? && InShape(idx, Shaped(w.shape, ix).value)
      && |jdx| == |w.shape| && (forall d | 0 <= d < |jdx| :: ComesFrom(w.shape, ix, idx, d, jdx[d]))
    {
      var p := Places(w.shape, ix, idx);
      forall d | 0 <= d < |jdx| ensures jdx[d] == p[d] {
        PlacesMean(w.shape, ix, idx, d);
        OnePlace(w.shape, ix, idx, d, jdx[d], p[d]);
      }
      assert jdx == p;
      IndexedAt(w, ix, idx);
    }
  }

  lemma OnePlace(shape: seq<nat>, ix: seq<Index>, r: seq<nat>, d: nat, p: nat, q: nat)
    requires d < |shape| && ComesFrom(shape, ix, r, d, p) && ComesFrom(shape, ix, r, d, q)
    ensures p == q
  {
    hide Rows;
  }

  // ---------------------------------------------------------------- what a pair refuses

  /** A split of the pair is refused only where the product's is. */
  lemma PartAccepted(l: LoraTensor, sizes: Sizes, dim: int, which: nat)
    requires Sound(l)
    ensures Apply(l, Part(sizes, dim, which)).Ok? <==> ApplyDense(Product(l), Part(sizes, dim, which)).Ok?
  {
    hide Prod, Tensors.At, Product, SplitSizes, NarrowLora, Narrow;
  }

  /** A slice of the first axis is refused besides only when A is repeated along it and loses its one entry. */
  lemma SliceAccepted(l: LoraTensor, s: Slice)
    requires Sound(l)
    ensures Apply(l, First(s)).Ok? <==>
      && ApplyDense(Product(l), First(s)).Ok?
      && (Dim(l) > 2 && l.a.shape[0] == 1 && l.b.shape[0] != 1 && Rows(s, l.b.shape[0]) != [] ==> 0 in Rows(s, 1))
  {
    hide Prod, Tensors.At, Product, SliceAxis, SliceRows, SliceLeading, Rows, Length;
    ProductShape(l);
    if Legal(s) {
      LengthOfOne(s);
      assert Dim(l) > 2 ==> l.a.shape[0] == 1 || l.a.shape[0] == l.b.shape[0];
    }
  }

  /** A permutation is refused besides unless the last axis stays and A has no axes of its own, or a matrix is transposed. */
  lemma PermuteAccepted(l: LoraTensor, dims: seq<int>)
    requires Sound(l)
    ensures var n := Dim(l);
      Apply(l, Permuting(dims)).Ok? <==>
        && ApplyDense(Product(l), Permuting(dims)).Ok?
        && if Axis(dims[n - 1], n) == n - 1 then forall d | 0 <= d < n - 2 :: l.a.shape[d] == 1 else n == 2
  {
    hide Prod, Tensors.At, Product, Permute, Axes, PermuteKeepingLast, Transpose;
    ProductShape(l);
    AxesMean(dims, Dim(l));
  }

  /** A factor is refused besides unless it is the same for a whole row. */
  lemma ScaleAccepted(l: LoraTensor, factor: Tensor)
    requires Sound(l)
    ensures Apply(l, Scaling(factor)).Ok? <==>
      && ApplyDense(Product(l), Scaling(factor)).Ok?
      && (factor.shape == [] || factor.shape[|factor.shape| - 1] == 1)
  {
    hide Prod, Tensors.At, Tensors.Valid, Product, Scaled, Joint;
    ProductShape(l);
    var m := |factor.shape|;
    if m <= Dim(l) && RowFactor(factor.shape) {
      var b, s, n := l.b.shape, Shape(l), Dim(l);
      assert LinedUp(factor.shape, n, n - 1) == 1;
      forall d | 0 <= d < n ensures
        (LinedUp(factor.shape, n, d) == 1 || s[d] == 1 || LinedUp(factor.shape, n, d) == s[d])
        <==> (LinedUp(factor.shape, n, d) == 1 || b[d] == 1 || LinedUp(factor.shape, n, d) == b[d]) {
      }
    }
  }

  /** Reshaping with nothing empty is refused besides unless the last axis stays and A has no axes of its own. */
  lemma ReshapeAccepted(l: LoraTensor, shape: seq<int>)
    requires Sound(l)
    ensures var n := Dim(l);
      var last := Shape(l)[n - 1];
      Rank(l) > 0 && last > 0 ==>
        (Apply(l, Reshaping(shape)).Ok? <==>
          && ApplyDense(Product(l), Reshaping(shape)).Ok?
          && |shape| >= 2 && (var s := ApplyDense(Product(l), Reshaping(shape)).value.shape; s[|s| - 1] == last)
          && Prod(l.a.shape[..n - 2]) == 1)
  {
    hide Prod, Tensors.At, Tensors.Valid, Product, Reshape, Resolve, ShapeA, ShapeB;
    ProductShape(l);
    var r := Resolve(Shape(l), shape);
    if r.Ok? && |r.value| >= 2 && r.value[|r.value| - 1] == Shape(l)[Dim(l) - 1] { ReshapeSizes(l, r.value); }
    if r.Ok? { var fill := ResolvedWith(Shape(l), shape); }
  }

  lemma ReshapeSizes(l: LoraTensor, shape: seq<nat>)
    requires Sound(l) && |shape| >= 2 && shape[|shape| - 1] == Shape(l)[Dim(l) - 1]
    ensures Rank(l) > 0 && Shape(l)[Dim(l) - 1] > 0 ==>
      (Prod(ShapeA(l, shape)) == Prod(l.a.shape) && Prod(ShapeB(l, shape)) == Prod(l.b.shape)
       <==> Prod(shape) == Prod(Shape(l)) && Prod(l.a.shape[..Dim(l) - 2]) == 1)
  {
    hide Prod, Tensors.Valid, Shape;
    var n, m, rank, last := Dim(l), |shape|, Rank(l), Shape(l)[Dim(l) - 1];
    var leads, rows, rows' := Prod(l.a.shape[..n - 2]), Prod(l.b.shape[..n - 1]), Prod(shape[..m - 1]);
    TwoLast(l.a.shape);
    TwoLast(ShapeA(l, shape));
    assert ShapeA(l, shape)[..m - 2] == LoraReshape.Ones(m - 2);
    OnesCount(LoraReshape.Ones(m - 2));
    OneLast(l.b.shape);
    OneLast(Shape(l));
    OneLast(shape);
    OneLast(ShapeB(l, shape));
    assert ShapeB(l, shape)[..m - 1] == shape[..m - 1] && Shape(l)[..n - 1] == l.b.shape[..n - 1];
    SameTimes(rows, rows', rank);
    SameTimes(rows, rows', last);
    SameTimes(leads * rank, rank, last);
    SameTimes(leads, 1, rank);
  }

  lemma OneLast(s: seq<nat>)
    requires s != []
    ensures Prod(s) == Prod(s[..|s| - 1]) * s[|s| - 1]
  {
  }

  lemma TwoLast(s: seq<nat>)
    requires |s| >= 2
    ensures Prod(s) == Prod(s[..|s| - 2]) * s[|s| - 2] * s[|s| - 1]
  {
    hide Prod;
    OneLast(s);
    OneLast(s[..|s| - 1]);
    assert s[..|s| - 1][..|s| - 2] == s[..|s| - 2];
  }

  lemma {:induction false} OnesCount(s: seq<nat>)
    requires AllOnes(s)
    ensures Prod(s) == 1
  {
    if s != [] { OnesCount(s[..|s| - 1]); }
  }

  lemma SameTimes(x: nat, y: nat, p: nat)
    ensures p > 0 ==> (x * p == y * p <==> x == y)
  {
    if p > 0 && x != y {
      if x < y { Apart(x, y, p); } else { Apart(y, x, p); }
    }
  }

  lemma Apart(x: nat, y: nat, p: nat)
    requires x < y && p > 0
    ensures x * p < y * p
  {
    Smaller(x + 1, y, p);
    assert (x + 1) * p == x * p + p;
  }
}
