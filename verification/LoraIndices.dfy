/** Tuples of slices, numbers and ellipses: exactly when indexing a pair with one indexes the product. */
module LoraIndices {
  import opened Wrappers
  import opened Tensors
  import opened Lora
  import opened LoraSlices

  datatype Index = Number(i: int) | Span(slice: Slice) | Ellipsis

  const WHOLE: Index := Span(Slice(Open, Open, 1))

  /** A number below zero counts from the end. */
  function FromEnd(i: int, n: nat): (r: Result<nat, Refusal>)
    ensures r.Ok? ==> r.value < n
  {
    if 0 <= i < n then Ok(i) else if i < 0 <= i + n then Ok(i + n) else Err(Mismatch)
  }

  // ---------------------------------------------------------------- indexing a tensor

  /** What one index makes of an axis of length n in front of others: a number drops it. */
  function Put(i: Index, n: nat, rest: Option<seq<nat>>): Option<seq<nat>> {
    if rest.None? then None
    else
      match i
      case Span(s) => if Legal(s) then Some([Length(s, n)] + rest.value) else None
      case Number(i) => if FromEnd(i, n).Ok? then rest else None
      case Ellipsis => None
  }

  /** The shape that a tuple of slices and numbers leaves; axes without an index stay whole. */
  function Shaped(shape: seq<nat>, ix: seq<Index>): Option<seq<nat>> {
    if ix == [] then Some(shape)
    else if shape == [] then None
    else Put(ix[0], shape[0], Shaped(shape[1..], ix[1..]))
  }

  /** The entry of an axis of length n that an index takes for an element of the outcome. */
  function Fetch(i: Index, n: nat, r: seq<nat>): (e: nat)
    requires match i case Span(s) => Legal(s) && r != [] && r[0] < Length(s, n) case Number(j) => FromEnd(j, n).Ok? case Ellipsis => false
    ensures e < n
  {
    match i
    case Span(s) => Rows(s, n)[r[0]]
    case Number(j) => FromEnd(j, n).value
  }

  /** What is left of the element's index for the other axes. */
  function Onward(i: Index, r: seq<nat>): seq<nat> {
    if i.Span? && r != [] then r[1..] else r
  }

  /** Where an element of the outcome comes from. */
  function Places(shape: seq<nat>, ix: seq<Index>, r: seq<nat>): (p: seq<nat>)
    requires Shaped(shape, ix).Some? && InShape(r, Shaped(shape, ix).value)
    ensures InShape(p, shape)
  {
    if ix == [] then r
    else [Fetch(ix[0], shape[0], r)] + Places(shape[1..], ix[1..], Onward(ix[0], r))
  }

  function Indexed(w: Tensor, ix: seq<Index>): (r: Result<Tensor, Refusal>)
    requires Tensors.Valid(w)
    ensures r.Ok? <==> Shaped(w.shape, ix).Some?
    ensures r.Err? ==> r.error == Mismatch
    ensures r.Ok? ==> Tensors.Valid(r.value) && r.value.shape == Shaped(w.shape, ix).value
  {
    var shape := Shaped(w.shape, ix);
    if shape.None? then Err(Mismatch)
    else Ok(Build(shape.value, r requires InShape(r, shape.value) => Tensors.At(w, Places(w.shape, ix, r))))
  }

  lemma IndexedAt(w: Tensor, ix: seq<Index>, r: seq<nat>)
    requires Tensors.Valid(w) && Shaped(w.shape, ix).Some? && InShape(r, Shaped(w.shape, ix).value)
    ensures Tensors.At(Indexed(w, ix).value, r) == Tensors.At(w, Places(w.shape, ix, r))
  {
    hide Tensors.At, Prod, Shaped, Places;
  }

  /** Whole slices change nothing. */
  lemma {:induction false} WholesShaped(shape: seq<nat>, wholes: seq<Index>)
    requires |wholes| <= |shape| && forall i | 0 <= i < |wholes| :: wholes[i] == WHOLE
    ensures Shaped(shape, wholes) == Some(shape)
    ensures forall r | InShape(r, shape) :: Places(shape, wholes, r) == r
    decreases |wholes|
  {
    hide Rows, Length;
    if wholes != [] {
      WholesShaped(shape[1..], wholes[1..]);
      WholeIndex(shape[0]);
      assert [shape[0]] + shape[1..] == shape;
      forall r | InShape(r, shape) ensures Places(shape, wholes, r) == r {
        assert InShape(r[1..], shape[1..]) && [r[0]] + r[1..] == r;
      }
    }
  }

  lemma {:induction false} WholesBehind(shape: seq<nat>, ix: seq<Index>, wholes: seq<Index>)
    requires |ix| + |wholes| <= |shape| && forall i | 0 <= i < |wholes| :: wholes[i] == WHOLE
    ensures Shaped(shape, ix + wholes) == Shaped(shape, ix)
    ensures Shaped(shape, ix).Some? ==> forall r | InShape(r, Shaped(shape, ix).value) ::
      Places(shape, ix + wholes, r) == Places(shape, ix, r)
    decreases |ix|
  {
    hide Rows, Length;
    if ix != [] {
      assert (ix + wholes)[0] == ix[0] && (ix + wholes)[1..] == ix[1..] + wholes;
      WholesBehind(shape[1..], ix[1..], wholes);
    } else {
      assert ix + wholes == wholes;
      WholesShaped(shape, wholes);
    }
  }

  lemma WholeIndex(n: nat)
    ensures Length(WHOLE.slice, n) == n && forall i: nat | i < n :: Rows(WHOLE.slice, n)[i] == i
  {
    forall i: nat | i < n ensures Rows(WHOLE.slice, n)[i] == i { WholeRows(WHOLE.slice, n, i); }
  }

  // ---------------------------------------------------------------- indexing a pair

  /** What a leading axis of A is indexed with: a number modulo its own length, or it stays whole. */
  function LeadForA(n: nat, i: Index): Index {
    if i.Number? then Number(if n == 0 then 0 else i.i % n) else WHOLE
  }

  /** What A is indexed with; the axis of the rank stays whole. */
  function ForA(a: seq<nat>, c: seq<Index>): (r: seq<Index>)
    requires |a| == |c| >= 2
    ensures |r| == |c|
  {
    if |c| == 2 then [WHOLE, c[1]]
    else [LeadForA(a[0], c[0])] + ForA(a[1..], c[1..])
  }

  /** One index for each axis. What the code refuses, and factors that do not fit each other, are no result. */
  function IndexBoth(l: LoraTensor, c: seq<Index>): (r: Result<LoraTensor, Refusal>)
    requires Sound(l) && |c| == Dim(l)
    ensures r.Ok? ==> Sound(r.value)
  {
    var a, b := Indexed(l.a, ForA(l.a.shape, c)), Indexed(l.b, c[..Dim(l) - 1]);
    if a.Err? || b.Err? || !Sound(LoraTensor(a.value, b.value)) then Err(Mismatch) else Ok(LoraTensor(a.value, b.value))
  }

  // ---------------------------------------------------------------- shapes and places, axis by axis

  /** The shape of the product of factors with these shapes. */
  function Mixed(a: seq<nat>, b: seq<nat>): (r: seq<nat>)
    requires |a| == |b| >= 2
    ensures |r| == |b|
  {
    b[|b| - 1 := a[|a| - 1]]
  }

  /** The leading axes of A are repeated or as long as those of B. */
  predicate LeadsFit(a: seq<nat>, b: seq<nat>)
    requires |a| == |b| >= 2
  {
    forall d | 0 <= d < |a| - 2 :: a[d] == 1 || a[d] == b[d]
  }

  predicate EndsInSlices(c: seq<Index>) {
    |c| >= 2 && c[|c| - 1].Span? && c[|c| - 2].Span?
  }

  /** The shapes of two factors after indexing, and that of the product. */
  predicate Agree(x: Option<seq<nat>>, y: Option<seq<nat>>, z: Option<seq<nat>>, rank: nat, inner: nat) {
    && (z.Some? <==> x.Some? && y.Some?)
    && (z.Some? ==>
      && |x.value| == |y.value| >= 2 && z.value == Mixed(x.value, y.value)
      && y.value[|y.value| - 1] == rank && x.value[|x.value| - 2] == inner)
  }

  lemma PutAgrees(
    i: Index, n: nat, n': nat, x: Option<seq<nat>>, y: Option<seq<nat>>, z: Option<seq<nat>>, rank: nat, inner: nat)
    requires Agree(x, y, z, rank, inner) && (n == 1 || n == n')
    ensures Agree(Put(LeadForA(n, i), n, x), Put(i, n', y), Put(i, n', z), rank, inner)
  {
    hide Length;
    WholeIndex(n);
  }

  /** After indexing, the shapes of the factors are those of a pair whose product has the shape of the indexed product. */
  lemma {:induction false} ShapesFound(a: seq<nat>, b: seq<nat>, c: seq<Index>)
    requires |a| == |b| == |c| && EndsInSlices(c) && LeadsFit(a, b)
    ensures Agree(Shaped(a, ForA(a, c)), Shaped(b, c[..|c| - 1]), Shaped(Mixed(a, b), c), b[|b| - 1], a[|a| - 2])
    decreases |c|
  {
    hide Put, Agree, LeadForA;
    if |c| == 2 {
      TwoShapes(a, b, c);
    } else {
      ShapesFound(a[1..], b[1..], c[1..]);
      Tails(a, b, c);
      PutAgrees(c[0], a[0], b[0],
        Shaped(a[1..], ForA(a[1..], c[1..])), Shaped(b[1..], c[1..][..|c| - 2]), Shaped(Mixed(a[1..], b[1..]), c[1..]),
        b[|b| - 1], a[|a| - 2]);
    }
  }

  lemma Tails(a: seq<nat>, b: seq<nat>, c: seq<Index>)
    requires |a| == |b| == |c| > 2
    ensures Mixed(a, b)[0] == b[0] && Mixed(a, b)[1..] == Mixed(a[1..], b[1..])
    ensures c[..|c| - 1][0] == c[0] && c[..|c| - 1][1..] == c[1..][..|c| - 2]
    ensures ForA(a, c)[0] == LeadForA(a[0], c[0]) && ForA(a, c)[1..] == ForA(a[1..], c[1..])
  {
  }

  lemma TwoShapes(a: seq<nat>, b: seq<nat>, c: seq<Index>)
    requires |a| == |b| == |c| == 2 && EndsInSlices(c)
    ensures Agree(Shaped(a, ForA(a, c)), Shaped(b, c[..1]), Shaped(Mixed(a, b), c), b[1], a[0])
  {
    hide Length, Shaped;
    WholeIndex(a[0]);
    assert ForA(a, c) == [WHOLE, c[1]] && c[..1] == [c[0]] && c == [c[0], c[1]] && Mixed(a, b) == [b[0], a[1]];
    TwoIndices(a, WHOLE, c[1]);
    FirstIndex(b, c[0]);
    TwoIndices(Mixed(a, b), c[0], c[1]);
  }

  lemma FirstIndex(shape: seq<nat>, i: Index)
    requires shape != []
    ensures Shaped(shape, [i]) == Put(i, shape[0], Some(shape[1..]))
  {
    hide Put;
    assert [i][1..] == [];
  }

  lemma TwoIndices(shape: seq<nat>, i: Index, j: Index)
    requires |shape| == 2
    ensures Shaped(shape, [i, j]) == Put(i, shape[0], Put(j, shape[1], Some([])))
  {
    hide Put;
    assert [i, j][1..] == [j] && shape[1..][1..] == [];
    FirstIndex(shape[1..], j);
  }

  /** The entry that a leading axis of A is read at for an entry of the product. */
  function Repeated(n: nat, e: nat): nat {
    if n == 1 then 0 else e
  }

  lemma FetchForA(i: Index, n: nat, n': nat, r: seq<nat>, r': seq<nat>)
    requires n == 1 || n == n'
    requires match i case Span(s) => Legal(s) && r != [] && r[0] < Length(s, n') case Number(j) => FromEnd(j, n').Ok? case Ellipsis => false
    requires i.Span? ==> (n == 1 || n == Length(i.slice, n')) && r' != [] && r'[0] == Repeated(n, r[0])
    ensures match LeadForA(n, i) case Span(s) => Legal(s) && r'[0] < Length(s, n) case Number(j) => FromEnd(j, n).Ok? case Ellipsis => false
    ensures Fetch(LeadForA(n, i), n, r') == Repeated(n, Fetch(i, n', r))
  {
    hide Length, Rows;
    WholeIndex(n);
    match i
    case Span(s) =>
      if n != 1 { WholeRows(s, n', r[0]); }
    case Number(j) =>
      Wrapped(j, n');
      Wrapped(j, n);
  }

  lemma Wrapped(j: int, n: nat)
    requires 0 < n
    ensures 0 <= j % n < n && (FromEnd(j, n).Ok? ==> FromEnd(j, n).value == j % n)
  {
    if j < 0 <= j + n {
      assert j == (-1) * n + (j + n);
      assert (j + n) % n == j + n;
    }
  }

  /** A tuple for every axis of a pair with these shapes, which its product can be indexed with. */
  predicate Fitting(a: seq<nat>, b: seq<nat>, c: seq<Index>)
    requires |a| == |b| == |c| >= 2
  {
    EndsInSlices(c) && LeadsFit(a, b) && Shaped(Mixed(a, b), c).Some?
  }

  /** What is left of such a tuple behind the first of more than two axes. */
  lemma FittingTail(a: seq<nat>, b: seq<nat>, c: seq<Index>)
    requires |a| == |b| == |c| > 2 && Fitting(a, b, c)
    ensures Fitting(a[1..], b[1..], c[1..]) && c[0] != Ellipsis
    ensures Shaped(Mixed(a, b), c).Some?
    ensures Shaped(Mixed(a, b), c) == Put(c[0], b[0], Shaped(Mixed(a[1..], b[1..]), c[1..]))
    ensures a[0] == 1 || a[0] == b[0]
  {
    hide Put;
    Tails(a, b, c);
    PutSome(c[0], b[0], Shaped(Mixed(a[1..], b[1..]), c[1..]));
  }

  lemma PutSome(i: Index, n: nat, rest: Option<seq<nat>>)
    requires Put(i, n, rest).Some?
    ensures i != Ellipsis && rest.Some?
  {
    hide Length;
  }

  /** The element's index fits the first axis, and what is left of it fits the others. */
  lemma FetchFits(i: Index, n: nat, rest: Option<seq<nat>>, r: seq<nat>)
    requires Put(i, n, rest).Some? && InShape(r, Put(i, n, rest).value)
    ensures rest.Some? && InShape(Onward(i, r), rest.value)
    ensures match i case Span(s) => Legal(s) && r != [] && r[0] < Length(s, n) case Number(j) => FromEnd(j, n).Ok? case Ellipsis => false
  {
    hide Length;
    if i.Span? {
      var shape := [Length(i.slice, n)] + rest.value;
      assert forall d | 0 <= d < |rest.value| :: rest.value[d] == shape[d + 1];
    }
  }

  lemma BIndexOnward(i: Index, r: seq<nat>, k: nat)
    requires |r| >= 2
    ensures Onward(i, BIndex(r, k)) == BIndex(Onward(i, r), k) && BIndex(r, k)[0] == r[0]
  {
  }

  /** B is indexed where the product is. */
  lemma {:induction false} BPlaces(a: seq<nat>, b: seq<nat>, c: seq<Index>, r: seq<nat>, k: nat)
    requires |a| == |b| == |c| >= 2 && Fitting(a, b, c)
    requires InShape(r, Shaped(Mixed(a, b), c).value) && k < b[|b| - 1]
    ensures |r| >= 2 && Shaped(b, c[..|c| - 1]).Some? && InShape(BIndex(r, k), Shaped(b, c[..|c| - 1]).value)
    ensures Places(b, c[..|c| - 1], BIndex(r, k)) == BIndex(Places(Mixed(a, b), c, r), k)
    decreases |c|
  {
    hide Put, Fitting, LeadsFit, EndsInSlices, Fetch, Onward, ForA, Length;
    BFits(a, b, c, r, k);
    if |c| == 2 {
      TwoBPlaces(a, b, c, r, k);
    } else {
      FittingTail(a, b, c);
      Tails(a, b, c);
      var s := Mixed(a[1..], b[1..]);
      FetchFits(c[0], b[0], Shaped(s, c[1..]), r);
      BIndexOnward(c[0], r, k);
      SameFetch(c[0], b[0], r, BIndex(r, k));
      BPlaces(a[1..], b[1..], c[1..], Onward(c[0], r), k);
      var e, p := Fetch(c[0], b[0], r), Places(s, c[1..], Onward(c[0], r));
      assert BIndex([e] + p, k) == [e] + BIndex(p, k);
    }
  }

  lemma SameFetch(i: Index, n: nat, r: seq<nat>, r': seq<nat>)
    requires match i case Span(s) => Legal(s) && r != [] && r[0] < Length(s, n) case Number(j) => FromEnd(j, n).Ok? case Ellipsis => false
    requires i.Span? ==> r' != [] && r'[0] == r[0]
    ensures Fetch(i, n, r) == Fetch(i, n, r')
  {
    hide Length, Rows;
  }

  lemma BFits(a: seq<nat>, b: seq<nat>, c: seq<Index>, r: seq<nat>, k: nat)
    requires |a| == |b| == |c| >= 2 && Fitting(a, b, c)
    requires InShape(r, Shaped(Mixed(a, b), c).value) && k < b[|b| - 1]
    ensures |r| >= 2 && Shaped(b, c[..|c| - 1]).Some? && InShape(BIndex(r, k), Shaped(b, c[..|c| - 1]).value)
  {
    hide Shaped, EndsInSlices, LeadsFit;
    ShapesFound(a, b, c);
  }

  lemma FirstPlaced(shape: seq<nat>, i: Index, r: seq<nat>)
    requires shape != [] && Shaped(shape, [i]).Some? && InShape(r, Shaped(shape, [i]).value)
    ensures Put(i, shape[0], Some(shape[1..])).Some? && InShape(r, Put(i, shape[0], Some(shape[1..])).value)
    ensures Places(shape, [i], r) == [Fetch(i, shape[0], r)] + Onward(i, r)
  {
    hide Put, Fetch, Onward;
    FirstIndex(shape, i);
    assert [i][1..] == [];
  }

  lemma BothPlaced(shape: seq<nat>, s: Slice, t: Slice, r: seq<nat>)
    requires |shape| == 2 && Shaped(shape, [Span(s), Span(t)]).Some? && InShape(r, Shaped(shape, [Span(s), Span(t)]).value)
    ensures Legal(s) && Legal(t) && |r| == 2 && r[0] < Length(s, shape[0]) && r[1] < Length(t, shape[1])
    ensures Places(shape, [Span(s), Span(t)], r) == [Rows(s, shape[0])[r[0]], Rows(t, shape[1])[r[1]]]
  {
    hide Length, Rows;
    TwoIndices(shape, Span(s), Span(t));
    assert [Span(s), Span(t)][1..] == [Span(t)] && shape[1..][1..] == [] && r[1..][1..] == [];
    FirstIndex(shape[1..], Span(t));
    FirstPlaced(shape[1..], Span(t), r[1..]);
  }

  lemma OnePlaced(shape: seq<nat>, s: Slice, r: seq<nat>)
    requires |shape| == 2 && Shaped(shape, [Span(s)]).Some? && InShape(r, Shaped(shape, [Span(s)]).value)
    ensures Legal(s) && |r| == 2 && r[0] < Length(s, shape[0])
    ensures Places(shape, [Span(s)], r) == [Rows(s, shape[0])[r[0]], r[1]]
  {
    hide Length, Rows;
    FirstIndex(shape, Span(s));
    FirstPlaced(shape, Span(s), r);
  }

  lemma TwoBPlaces(a: seq<nat>, b: seq<nat>, c: seq<Index>, r: seq<nat>, k: nat)
    requires |a| == |b| == |c| == 2 && Fitting(a, b, c) && InShape(r, Shaped(Mixed(a, b), c).value) && k < b[1]
    requires |r| >= 2 && Shaped(b, c[..1]).Some? && InShape(BIndex(r, k), Shaped(b, c[..1]).value)
    ensures Places(b, c[..1], BIndex(r, k)) == BIndex(Places(Mixed(a, b), c, r), k)
  {
    hide Length, Rows, Places, Shaped, LeadsFit, InShape;
    assert c == [Span(c[0].slice), Span(c[1].slice)] && c[..1] == [Span(c[0].slice)] && Mixed(a, b) == [b[0], a[1]];
    BothPlaced(Mixed(a, b), c[0].slice, c[1].slice, r);
    OnePlaced(b, c[0].slice, BIndex(r, k));
  }

  /** The shape of A after indexing; its leading axes fit those of B. */
  predicate FittingA(a: seq<nat>, b: seq<nat>, c: seq<Index>)
    requires |a| == |b| == |c| >= 2 && Fitting(a, b, c)
  {
    ShapesFound(a, b, c);
    LeadsFit(Shaped(a, ForA(a, c)).value, Shaped(b, c[..|c| - 1]).value)
  }

  lemma AFits(a: seq<nat>, b: seq<nat>, c: seq<Index>, r: seq<nat>, k: nat)
    requires |a| == |b| == |c| >= 2 && Fitting(a, b, c) && FittingA(a, b, c)
    requires InShape(r, Shaped(Mixed(a, b), c).value) && k < a[|a| - 2]
    ensures Shaped(a, ForA(a, c)).Some? && |Shaped(a, ForA(a, c)).value| == |r| >= 2
    ensures InShape(AIndex(Shaped(a, ForA(a, c)).value, r, k), Shaped(a, ForA(a, c)).value)
  {
    hide Shaped, EndsInSlices;
    ShapesFound(a, b, c);
  }

  lemma LeadsFitOnward(i: Index, n: nat, n': nat, x: Option<seq<nat>>, y: Option<seq<nat>>)
    requires x.Some? && y.Some? && |x.value| == |y.value| >= 2
    requires Put(LeadForA(n, i), n, x).Some? && Put(i, n', y).Some?
    requires var x', y' := Put(LeadForA(n, i), n, x).value, Put(i, n', y).value; |x'| == |y'| >= 2 && LeadsFit(x', y')
    ensures LeadsFit(x.value, y.value)
    ensures i.Span? ==> Legal(i.slice) && (n == 1 || n == Length(i.slice, n'))
  {
    hide Length;
    WholeIndex(n);
    if i.Span? {
      var x', y' := [n] + x.value, [Length(i.slice, n')] + y.value;
      forall d | 0 <= d < |x.value| - 2 ensures x.value[d] == 1 || x.value[d] == y.value[d] {
        assert x'[d + 1] == x.value[d] && y'[d + 1] == y.value[d];
      }
      assert x'[0] == n && y'[0] == Length(i.slice, n');
    }
  }

  lemma FittingATail(a: seq<nat>, b: seq<nat>, c: seq<Index>)
    requires |a| == |b| == |c| > 2 && Fitting(a, b, c) && FittingA(a, b, c) && Fitting(a[1..], b[1..], c[1..])
    ensures FittingA(a[1..], b[1..], c[1..])
    ensures Shaped(a, ForA(a, c)).Some? && Shaped(a[1..], ForA(a[1..], c[1..])).Some?
    ensures Shaped(a, ForA(a, c)) == Put(LeadForA(a[0], c[0]), a[0], Shaped(a[1..], ForA(a[1..], c[1..])))
    ensures c[0].Span? ==> Legal(c[0].slice) && (a[0] == 1 || a[0] == Length(c[0].slice, b[0]))
  {
    hide Put, LeadForA, LeadsFit;
    Tails(a, b, c);
    ShapesFound(a, b, c);
    ShapesFound(a[1..], b[1..], c[1..]);
    LeadsFitOnward(c[0], a[0], b[0], Shaped(a[1..], ForA(a[1..], c[1..])), Shaped(b[1..], c[1..][..|c| - 2]));
  }

  lemma AIndexOnward(i: Index, n: nat, x: seq<nat>, r: seq<nat>, k: nat)
    requires |r| >= 2 && (i.Span? ==> |r| > 2)
    requires |x| == |Onward(i, r)|
    ensures i.Span? ==> Onward(WHOLE, AIndex([n] + x, r, k)) == AIndex(x, Onward(i, r), k)
    ensures i.Span? ==> AIndex([n] + x, r, k)[0] == Repeated(n, r[0])
    ensures i.Number? ==> Onward(i, r) == r
  {
    if i.Span? {
      assert ([n] + x)[1..] == x;
    }
  }

  /** A is indexed where the product is, repeated axes at zero. */
  lemma {:induction false} APlaces(a: seq<nat>, b: seq<nat>, c: seq<Index>, r: seq<nat>, k: nat)
    requires |a| == |b| == |c| >= 2 && Fitting(a, b, c) && FittingA(a, b, c)
    requires InShape(r, Shaped(Mixed(a, b), c).value) && k < a[|a| - 2]
    ensures Shaped(a, ForA(a, c)).Some? && |Shaped(a, ForA(a, c)).value| == |r| >= 2
    ensures InShape(AIndex(Shaped(a, ForA(a, c)).value, r, k), Shaped(a, ForA(a, c)).value)
    ensures Places(a, ForA(a, c), AIndex(Shaped(a, ForA(a, c)).value, r, k)) == AIndex(a, Places(Mixed(a, b), c, r), k)
    decreases |c|
  {
    hide Put, Fitting, FittingA, LeadsFit, Fetch, Onward, LeadForA;
    AFits(a, b, c, r, k);
    if |c| == 2 {
      TwoAPlaces(a, b, c, r, k);
    } else {
      FittingTail(a, b, c);
      FittingATail(a, b, c);
      Tails(a, b, c);
      var s := Mixed(a[1..], b[1..]);
      FetchFits(c[0], b[0], Shaped(s, c[1..]), r);
      APlaces(a[1..], b[1..], c[1..], Onward(c[0], r), k);
      LeadAPlaces(c[0], a[0], b[0], Shaped(a[1..], ForA(a[1..], c[1..])), r, k);
      var e, p := Fetch(c[0], b[0], r), Places(s, c[1..], Onward(c[0], r));
      AIndexCons(a, e, p, k);
    }
  }

  lemma AIndexCons(a: seq<nat>, e: nat, p: seq<nat>, k: nat)
    requires |a| == |p| + 1 > 2
    ensures AIndex(a, [e] + p, k) == [Repeated(a[0], e)] + AIndex(a[1..], p, k)
  {
  }

  /** What the first of more than two axes takes of the index into A, and what it leaves. */
  lemma LeadAPlaces(i: Index, n: nat, n': nat, x: Option<seq<nat>>, r: seq<nat>, k: nat)
    requires i != Ellipsis && (n == 1 || n == n') && x.Some? && |x.value| == |Onward(i, r)| >= 2
    requires match i case Span(s) => Legal(s) && r != [] && r[0] < Length(s, n') case Number(j) => FromEnd(j, n').Ok? case Ellipsis => false
    requires i.Span? ==> n == 1 || n == Length(i.slice, n')
    ensures var lead := LeadForA(n, i);
      && Put(lead, n, x).Some? && |Put(lead, n, x).value| == |r|
      && var y := AIndex(Put(lead, n, x).value, r, k);
        && Onward(lead, y) == AIndex(x.value, Onward(i, r), k)
        && (match lead case Span(s) => Legal(s) && y[0] < Length(s, n) case Number(j) => FromEnd(j, n).Ok? case Ellipsis => false)
        && Fetch(lead, n, y) == Repeated(n, Fetch(i, n', r))
  {
    hide Length, Rows, Fetch;
    WholeIndex(n);
    var lead := LeadForA(n, i);
    if i.Span? {
      AIndexOnward(i, n, x.value, r, k);
      FetchForA(i, n, n', r, AIndex([n] + x.value, r, k));
    } else {
      FetchForA(i, n, n', r, AIndex(x.value, r, k));
    }
  }

  lemma TwoAPlaces(a: seq<nat>, b: seq<nat>, c: seq<Index>, r: seq<nat>, k: nat)
    requires |a| == |b| == |c| == 2 && Fitting(a, b, c) && InShape(r, Shaped(Mixed(a, b), c).value) && k < a[0]
    requires Shaped(a, ForA(a, c)).Some? && |Shaped(a, ForA(a, c)).value| == |r| >= 2
    requires InShape(AIndex(Shaped(a, ForA(a, c)).value, r, k), Shaped(a, ForA(a, c)).value)
    ensures Places(a, ForA(a, c), AIndex(Shaped(a, ForA(a, c)).value, r, k)) == AIndex(a, Places(Mixed(a, b), c, r), k)
  {
    hide Length, Rows, Places, Shaped;
    WholeIndex(a[0]);
    assert c == [Span(c[0].slice), Span(c[1].slice)] && Mixed(a, b) == [b[0], a[1]];
    assert ForA(a, c) == [Span(WHOLE.slice), Span(c[1].slice)];
    BothPlaced(Mixed(a, b), c[0].slice, c[1].slice, r);
    BothPlaced(a, WHOLE.slice, c[1].slice, AIndex(Shaped(a, ForA(a, c)).value, r, k));
  }

  // ---------------------------------------------------------------- the indexed pair

  lemma ShapeIsMixed(l: LoraTensor)
    requires Sound(l)
    ensures |l.a.shape| == |l.b.shape| >= 2 && LeadsFit(l.a.shape, l.b.shape)
    ensures Shape(l) == Mixed(l.a.shape, l.b.shape) && Rank(l) == l.b.shape[Dim(l) - 1] == l.a.shape[Dim(l) - 2]
  {
    hide Tensors.Valid;
  }

  /** Carrying out a tuple that ends in two slices. */
  lemma IndexedShapes(l: LoraTensor, c: seq<Index>)
    requires Sound(l) && |c| == Dim(l) && EndsInSlices(c)
    ensures |l.a.shape| == |l.b.shape| >= 2
    ensures IndexBoth(l, c).Ok? ==>
      && Fitting(l.a.shape, l.b.shape, c) && FittingA(l.a.shape, l.b.shape, c)
      && var m := IndexBoth(l, c).value;
        && m == LoraTensor(Indexed(l.a, ForA(l.a.shape, c)).value, Indexed(l.b, c[..|c| - 1]).value)
        && Rank(m) == Rank(l) && Shaped(Shape(l), c) == Some(Shape(m))
  {
    hide Shaped, EndsInSlices, ForA, Tensors.Valid, Indexed;
    ShapeIsMixed(l);
    ShapesFound(l.a.shape, l.b.shape, c);
    if IndexBoth(l, c).Ok? { ShapeIsMixed(IndexBoth(l, c).value); }
  }

  lemma IndexedTerm(l: LoraTensor, c: seq<Index>, m: LoraTensor, r: seq<nat>, k: nat)
    requires Sound(l) && |c| == Dim(l) && EndsInSlices(c) && IndexBoth(l, c) == Ok(m) && Rank(m) == Rank(l)
    requires Shaped(Shape(l), c) == Some(Shape(m)) && InShape(r, Shape(m)) && k < Rank(l)
    ensures SameTerm(m, r, l, Places(Shape(l), c, r), k)
  {
    hide Tensors.At, Prod, Tensors.Valid, Indexed, Places, Shaped, EndsInSlices, Fitting, FittingA, ForA, IndexBoth, InShape;
    IndexedShapes(l, c);
    ShapeIsMixed(l);
    IndicesFit(m, r, k);
    IndicesFit(l, Places(Shape(l), c, r), k);
    BPlaces(l.a.shape, l.b.shape, c, r, k);
    APlaces(l.a.shape, l.b.shape, c, r, k);
    IndexedAt(l.b, c[..|c| - 1], BIndex(r, k));
    IndexedAt(l.a, ForA(l.a.shape, c), AIndex(m.a.shape, r, k));
  }

  lemma IndexedElement(l: LoraTensor, c: seq<Index>, m: LoraTensor, r: seq<nat>)
    requires Sound(l) && |c| == Dim(l) && EndsInSlices(c) && IndexBoth(l, c) == Ok(m) && Rank(m) == Rank(l)
    requires Shaped(Shape(l), c) == Some(Shape(m)) && InShape(r, Shape(m))
    ensures Tensors.At(Indexed(Product(l), c).value, r) == Element(m, r)
  {
    hide Tensors.At, Prod, Tensors.Valid, Indexed, Places, Shaped, EndsInSlices, IndexBoth, SameTerm, Element, Shape;
    var p := Places(Shape(l), c, r);
    IndexedAt(Product(l), c, r);
    ProductAt(l, p);
    forall k | 0 <= k < Rank(m) ensures SameTerm(m, r, l, p, k) {
      IndexedTerm(l, c, m, r, k);
    }
    SameElement(m, r, l, p);
  }

  /** What a tuple that ends in two slices does to the pair, it does to the product. */
  lemma IndexBothProduct(l: LoraTensor, c: seq<Index>)
    requires Sound(l) && |c| == Dim(l) && EndsInSlices(c) && IndexBoth(l, c).Ok?
    ensures Rank(IndexBoth(l, c).value) == Rank(l)
    ensures Indexed(Product(l), c) == Ok(Product(IndexBoth(l, c).value))
  {
    hide Tensors.At, Prod, Tensors.Valid, Indexed, Shaped, EndsInSlices, IndexBoth, Element, Shape;
    IndexedShapes(l, c);
    var m := IndexBoth(l, c).value;
    var w := Indexed(Product(l), c).value;
    forall r | InShape(r, Shape(m)) ensures Tensors.At(w, r) == Element(m, r) {
      IndexedElement(l, c, m, r);
    }
    IsProduct(m, w);
  }

  // ---------------------------------------------------------------- slices alone

  predicate AllSlices(c: seq<Index>) {
    forall d | 0 <= d < |c| :: c[d].Span? && Legal(c[d].slice)
  }

  lemma {:induction false} SlicesShaped(shape: seq<nat>, c: seq<Index>)
    requires AllSlices(c) && |c| <= |shape|
    ensures Shaped(shape, c).Some? && |Shaped(shape, c).value| == |shape|
    ensures forall d | 0 <= d < |shape| ::
      Shaped(shape, c).value[d] == if d < |c| then Length(c[d].slice, shape[d]) else shape[d]
    decreases |c|
  {
    hide Length;
    if c != [] {
      SlicesShaped(shape[1..], c[1..]);
      var rest := Shaped(shape[1..], c[1..]).value;
      assert Shaped(shape, c) == Some([Length(c[0].slice, shape[0])] + rest);
      forall d | 0 < d < |shape|
        ensures rest[d - 1] == if d < |c| then Length(c[d].slice, shape[d]) else shape[d]
      {
        assert shape[1..][d - 1] == shape[d] && (d < |c| ==> c[1..][d - 1] == c[d]);
      }
    }
  }

  lemma {:induction false} SlicesPlaced(shape: seq<nat>, c: seq<Index>, r: seq<nat>)
    requires AllSlices(c) && |c| == |shape| && Shaped(shape, c).Some? && InShape(r, Shaped(shape, c).value)
    ensures |r| == |shape|
    ensures forall d | 0 <= d < |shape| ::
      r[d] < Length(c[d].slice, shape[d]) && Places(shape, c, r)[d] == Rows(c[d].slice, shape[d])[r[d]]
    decreases |c|
  {
    hide Length, Rows;
    SlicesShaped(shape, c);
    if c != [] {
      FetchFits(c[0], shape[0], Shaped(shape[1..], c[1..]), r);
      SlicesPlaced(shape[1..], c[1..], r[1..]);
      var p := Places(shape[1..], c[1..], r[1..]);
      assert Places(shape, c, r) == [Rows(c[0].slice, shape[0])[r[0]]] + p;
      forall d | 0 < d < |shape|
        ensures r[d] < Length(c[d].slice, shape[d]) && p[d - 1] == Rows(c[d].slice, shape[d])[r[d]]
      {
        assert shape[1..][d - 1] == shape[d] && c[1..][d - 1] == c[d] && r[1..][d - 1] == r[d];
      }
    }
  }

  /** Slices of leading axes that A does not repeat keep these axes whole. */
  predicate KeepsAll(a: seq<nat>, b: seq<nat>, c: seq<Index>)
    requires |a| == |b| == |c| >= 2 && AllSlices(c)
  {
    forall d | 0 <= d < |c| - 2 :: a[d] == 1 || Length(c[d].slice, b[d]) == b[d]
  }

  lemma {:induction false} SlicesForA(a: seq<nat>, c: seq<Index>)
    requires |a| == |c| >= 2 && AllSlices(c)
    ensures AllSlices(ForA(a, c))
    ensures forall d | 0 <= d < |c| :: ForA(a, c)[d] == if d < |c| - 1 then WHOLE else c[d]
    decreases |c|
  {
    if |c| > 2 { SlicesForA(a[1..], c[1..]); }
  }

  /**
   A slice for each axis: the pair carries this out exactly when every slice of a leading axis that A does not repeat
   keeps that axis whole; the outcome is those slices of the product. Matrices have no leading axes.
   */
  lemma SlicesProduct(l: LoraTensor, c: seq<Index>)
    requires Sound(l) && |c| == Dim(l) && AllSlices(c)
    ensures |l.a.shape| == |l.b.shape| >= 2
    ensures IndexBoth(l, c).Ok? <==> KeepsAll(l.a.shape, l.b.shape, c)
    ensures IndexBoth(l, c).Ok? ==> Indexed(Product(l), c) == Ok(Product(IndexBoth(l, c).value))
  {
    hide Tensors.At, Prod, Tensors.Valid, Indexed, Shaped, Length, Product;
    ShapeIsMixed(l);
    var a, b, front := l.a.shape, l.b.shape, c[..|c| - 1];
    SlicesForA(a, c);
    SlicesShaped(a, ForA(a, c));
    assert AllSlices(front);
    SlicesShaped(b, front);
    forall d | 0 <= d < |c| - 1 ensures Length(ForA(a, c)[d].slice, a[d]) == a[d] { WholeIndex(a[d]); }
    SlicesFit(l, c, Shaped(a, ForA(a, c)).value, Shaped(b, front).value);
    if IndexBoth(l, c).Ok? { IndexBothProduct(l, c); }
  }

  lemma SlicesFit(l: LoraTensor, c: seq<Index>, x: seq<nat>, y: seq<nat>)
    requires Sound(l) && |c| == Dim(l) == |l.a.shape| == |x| == |y| && AllSlices(c)
    requires forall d | 0 <= d < |c| - 1 :: x[d] == l.a.shape[d] && y[d] == Length(c[d].slice, l.b.shape[d])
    requires y[|c| - 1] == l.b.shape[|c| - 1]
    ensures ShapesFit(x, y) <==> KeepsAll(l.a.shape, l.b.shape, c)
  {
    hide Length, Tensors.Valid;
    ShapeIsMixed(l);
    var a, b := l.a.shape, l.b.shape;
    forall d | 0 <= d < |c| - 2
      ensures x[d] == 1 || x[d] == y[d] <==> a[d] == 1 || Length(c[d].slice, b[d]) == b[d]
    {
      assert a[d] == 1 || a[d] == b[d];
    }
  }
}
