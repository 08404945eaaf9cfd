/** Index tuples as they are written, with an ellipsis: exactly when the pair is indexed like its product. */
module LoraEllipsis {
  import opened Wrappers
  import opened Tensors
  import opened Lora
  import opened LoraSlices
  import opened LoraIndices

  // ---------------------------------------------------------------- what the code makes of a tuple

  function Wholes(n: nat): (r: seq<Index>)
    ensures |r| == n && forall i | 0 <= i < n :: r[i] == WHOLE
  {
    seq(n, i => WHOLE)
  }

  /** Without the ellipses at the end. */
  function Stripped(ix: seq<Index>): seq<Index> {
    if ix != [] && ix[|ix| - 1] == Ellipsis then Stripped(ix[..|ix| - 1]) else ix
  }

  /** Each ellipsis replaced by as many whole slices. */
  function Spread(ix: seq<Index>, n: nat): seq<Index> {
    if ix == [] then [] else (if ix[0] == Ellipsis then Wholes(n) else [ix[0]]) + Spread(ix[1..], n)
  }

  /** Whole slices for the axes that have no index. */
  function Padded(ix: seq<Index>, n: nat): seq<Index> {
    if |ix| < n then ix + Wholes(n - |ix|) else ix
  }

  /** Any other ellipsis is made as many whole slices as there are other entries in the tuple, whatever the tensor. */
  function Coded(ix: seq<Index>, n: nat): seq<Index> {
    var s := Stripped(ix);
    Padded(if s == [] then [] else Spread(s, |s| - 1), n)
  }

  function IndexLora(l: LoraTensor, ix: seq<Index>): (r: Result<LoraTensor, Refusal>)
    requires Sound(l)
    ensures r.Ok? ==> Sound(r.value)
  {
    var c := Coded(ix, Dim(l));
    if Stripped(ix) == [] || |c| != Dim(l) then Err(Mismatch) else IndexBoth(l, c)
  }

  // ---------------------------------------------------------------- what a tuple means

  predicate Plain(ix: seq<Index>) {
    forall i | 0 <= i < |ix| :: ix[i] != Ellipsis
  }

  function FirstEllipsis(ix: seq<Index>): (p: nat)
    requires !Plain(ix)
    ensures p < |ix| && ix[p] == Ellipsis && Plain(ix[..p])
  {
    if ix[0] == Ellipsis then 0
    else
      assert exists i :: 0 <= i < |ix[1..]| && ix[1..][i] == Ellipsis by {
        var i :| 0 <= i < |ix| && ix[i] == Ellipsis;
        assert ix[1..][i - 1] == Ellipsis;
      }
      var q := FirstEllipsis(ix[1..]);
      assert forall i | 0 < i <= q :: ix[i] == ix[1..][..q][i - 1];
      q + 1
  }

  /** An ellipsis means as many whole slices as are needed for all the axes; there may be one. */
  function Meant(ix: seq<Index>, n: nat): Option<seq<Index>> {
    if Plain(ix) then Some(ix)
    else
      var p := FirstEllipsis(ix);
      if !Plain(ix[p + 1..]) || |ix| - 1 > n then None
      else Some(ix[..p] + (Wholes(n - (|ix| - 1)) + ix[p + 1..]))
  }

  function DenseIndex(w: Tensor, ix: seq<Index>): (r: Result<Tensor, Refusal>)
    requires Tensors.Valid(w)
    ensures r.Ok? ==> Tensors.Valid(r.value)
  {
    match Meant(ix, |w.shape|)
    case None => Err(Mismatch)
    case Some(m) => Indexed(w, m)
  }

  // ---------------------------------------------------------------- counting axes

  function Numbers(ix: seq<Index>): nat {
    if ix == [] then 0 else (if ix[0].Number? then 1 else 0) + Numbers(ix[1..])
  }

  lemma {:induction false} NumbersConcat(a: seq<Index>, b: seq<Index>)
    ensures Numbers(a + b) == Numbers(a) + Numbers(b)
  {
    if a == [] {
      assert a + b == b;
    } else {
      assert (a + b)[0] == a[0] && (a + b)[1..] == a[1..] + b;
      NumbersConcat(a[1..], b);
    }
  }

  lemma {:induction false} NoNumbers(ix: seq<Index>)
    requires forall i | 0 <= i < |ix| :: !ix[i].Number?
    ensures Numbers(ix) == 0
  {
    if ix != [] { NoNumbers(ix[1..]); }
  }

  /** Each number drops an axis, and no ellipsis is left. */
  lemma {:induction false} AxesLeft(shape: seq<nat>, ix: seq<Index>)
    requires Shaped(shape, ix).Some?
    ensures |Shaped(shape, ix).value| + Numbers(ix) == |shape| && Plain(ix)
    decreases |ix|
  {
    hide Length;
    if ix != [] {
      PutSome(ix[0], shape[0], Shaped(shape[1..], ix[1..]));
      AxesLeft(shape[1..], ix[1..]);
      assert forall i | 0 < i < |ix| :: ix[i] == ix[1..][i - 1];
    }
  }

  lemma NumbersCons(i: Index, ix: seq<Index>)
    ensures Numbers([i] + ix) == (if i.Number? then 1 else 0) + Numbers(ix)
  {
    assert ([i] + ix)[1..] == ix;
  }

  lemma NumbersOfOne(i: Index)
    ensures Numbers([i]) == if i.Number? then 1 else 0
  {
    assert [i][1..] == [];
  }

  lemma {:induction false} NumbersForA(a: seq<nat>, c: seq<Index>)
    requires |a| == |c| >= 2
    ensures Numbers(ForA(a, c)) == Numbers(c[..|c| - 2]) + if c[|c| - 1].Number? then 1 else 0
    ensures ForA(a, c)[|c| - 1] == c[|c| - 1]
    decreases |c|
  {
    hide Numbers;
    if |c| == 2 {
      NumbersCons(WHOLE, [c[1]]);
      NumbersOfOne(c[1]);
      NoNumbers(c[..0]);
      assert [WHOLE] + [c[1]] == [WHOLE, c[1]];
    } else {
      NumbersForA(a[1..], c[1..]);
      NumbersCons(LeadForA(a[0], c[0]), ForA(a[1..], c[1..]));
      var front := c[1..][..|c| - 3];
      NumbersCons(c[0], front);
      assert c[..|c| - 2] == [c[0]] + front;
    }
  }

  lemma NumbersFront(c: seq<Index>)
    requires |c| >= 2
    ensures Numbers(c[..|c| - 1]) == Numbers(c[..|c| - 2]) + if c[|c| - 2].Number? then 1 else 0
    ensures Numbers(c) == Numbers(c[..|c| - 1]) + if c[|c| - 1].Number? then 1 else 0
  {
    hide Numbers;
    var x, y := c[|c| - 2], c[|c| - 1];
    assert c[..|c| - 1] == c[..|c| - 2] + [x] && c == c[..|c| - 1] + [y];
    NumbersConcat(c[..|c| - 2], [x]);
    NumbersConcat(c[..|c| - 1], [y]);
    NumbersOfOne(x);
    NumbersOfOne(y);
  }

  /**
   Numbers for both of the last two axes: A loses its last axis and B its rows, so the axis of the rank is taken
   for the last one and a leading axis of A for that of the rank.
   */
  predicate Collapses(c: seq<Index>) {
    |c| >= 2 && c[|c| - 1].Number? && c[|c| - 2].Number?
  }

  /** What is carried out ends in two slices, or in two numbers, and then leaves an axis too many. */
  lemma EndsOrCollapses(l: LoraTensor, c: seq<Index>)
    requires Sound(l) && |c| == Dim(l) && IndexBoth(l, c).Ok?
    ensures EndsInSlices(c) || (Collapses(c) && Dim(IndexBoth(l, c).value) + Numbers(c) == Dim(l) + 1)
  {
    hide Tensors.At, Prod, Tensors.Valid, Indexed, Shaped, ForA, Numbers;
    var m := IndexBoth(l, c).value;
    AxesLeft(l.a.shape, ForA(l.a.shape, c));
    AxesLeft(l.b.shape, c[..|c| - 1]);
    NumbersForA(l.a.shape, c);
    NumbersFront(c);
    assert c[..|c| - 1][|c| - 2] == c[|c| - 2];
    assert |m.a.shape| == |m.b.shape|;
  }

  lemma {:induction false} NumbersStripped(ix: seq<Index>)
    ensures Numbers(Stripped(ix)) == Numbers(ix)
  {
    if ix != [] && ix[|ix| - 1] == Ellipsis {
      var front := ix[..|ix| - 1];
      assert ix == front + [Ellipsis] && [Ellipsis][1..] == [];
      NumbersConcat(front, [Ellipsis]);
      NumbersStripped(front);
    }
  }

  lemma {:induction false} NumbersSpread(ix: seq<Index>, n: nat)
    ensures Numbers(Spread(ix, n)) == Numbers(ix)
  {
    if ix != [] {
      NumbersSpread(ix[1..], n);
      var first := if ix[0] == Ellipsis then Wholes(n) else [ix[0]];
      NumbersConcat(first, Spread(ix[1..], n));
      if ix[0] == Ellipsis {
        NoNumbers(Wholes(n));
      } else {
        assert [ix[0]][1..] == [];
      }
    }
  }

  lemma NumbersCoded(ix: seq<Index>, n: nat)
    ensures Numbers(Coded(ix, n)) == Numbers(ix)
  {
    hide Numbers, Stripped, Spread;
    var s := Stripped(ix);
    NumbersStripped(ix);
    var t := if s == [] then [] else Spread(s, |s| - 1);
    if s != [] { NumbersSpread(s, |s| - 1); }
    if |t| < n {
      NoNumbers(Wholes(n - |t|));
      NumbersConcat(t, Wholes(n - |t|));
    }
  }

  lemma NumbersMeant(ix: seq<Index>, n: nat)
    requires Meant(ix, n).Some?
    ensures Numbers(Meant(ix, n).value) == Numbers(ix)
  {
    hide Numbers;
    if !Plain(ix) {
      var p := FirstEllipsis(ix);
      var wholes := Wholes(n - (|ix| - 1));
      assert ix == ix[..p] + ([Ellipsis] + ix[p + 1..]);
      NumbersConcat(ix[..p], [Ellipsis] + ix[p + 1..]);
      NumbersConcat([Ellipsis], ix[p + 1..]);
      NumbersConcat(ix[..p], wholes + ix[p + 1..]);
      NumbersConcat(wholes, ix[p + 1..]);
      NoNumbers(wholes);
      NoNumbers([Ellipsis]);
    }
  }

  // ---------------------------------------------------------------- telling two places apart

  predicate SameShapes(l: LoraTensor, u: LoraTensor) {
    l.a.shape == u.a.shape && l.b.shape == u.b.shape
  }

  function OneAt(d: nat, e: nat, idx: seq<nat>): real {
    if d < |idx| && idx[d] == e then 1.0 else 0.0
  }

  /** A tensor of ones at one entry of an axis, and zeros elsewhere. */
  function Marked(shape: seq<nat>, d: nat, e: nat): (t: Tensor)
    ensures Tensors.Valid(t) && t.shape == shape
    ensures forall idx | InShape(idx, shape) :: Tensors.At(t, idx) == OneAt(d, e, idx)
  {
    Build(shape, idx requires InShape(idx, shape) => OneAt(d, e, idx))
  }

  function Ones(shape: seq<nat>): (t: Tensor)
    ensures Tensors.Valid(t) && t.shape == shape
    ensures forall idx | InShape(idx, shape) :: Tensors.At(t, idx) == 1.0
  {
    Build(shape, idx requires InShape(idx, shape) => 1.0)
  }

  /** The pair that tells entries of one axis apart: the last belongs to A, the others to B. */
  function Telling(l: LoraTensor, d: nat, e: nat): (u: LoraTensor)
    requires Sound(l) && d < Dim(l)
    ensures Sound(u) && SameShapes(l, u)
  {
    if d == Dim(l) - 1 then LoraTensor(Marked(l.a.shape, d, e), Ones(l.b.shape))
    else LoraTensor(Ones(l.a.shape), Marked(l.b.shape, d, e))
  }

  lemma TellingElement(l: LoraTensor, d: nat, e: nat, p: seq<nat>)
    requires Sound(l) && d < Dim(l) && InShape(p, Shape(l))
    ensures |p| == Dim(l) && InShape(p, Shape(Telling(l, d, e)))
    ensures Element(Telling(l, d, e), p) == if p[d] == e then Rank(l) as real else 0.0
  {
    hide Tensors.At, Prod, Tensors.Valid, Marked, Ones;
    var u := Telling(l, d, e);
    var x := if p[d] == e then 1.0 else 0.0;
    var b, a := BRow(u, p), AColumn(u, p);
    forall k | 0 <= k < Rank(u) ensures b[k] * a[k] == x {
      IndicesFit(u, p, k);
      assert BIndex(p, k)[d] == p[d] || d == Dim(l) - 1;
      assert AIndex(u.a.shape, p, k)[Dim(l) - 1] == p[Dim(l) - 1];
    }
    DotOfSame(b, a, x);
  }

  /** A pair of the same shapes whose product differs at two different places, unless the rank is zero. */
  lemma Separated(l: LoraTensor, p: seq<nat>, q: seq<nat>) returns (u: LoraTensor)
    requires Sound(l) && Rank(l) > 0 && InShape(p, Shape(l)) && InShape(q, Shape(l)) && p != q
    ensures Sound(u) && SameShapes(l, u) && InShape(p, Shape(u)) && InShape(q, Shape(u))
    ensures Tensors.At(Product(u), p) != Tensors.At(Product(u), q)
  {
    hide Tensors.At, Prod, Tensors.Valid, Element, Telling;
    var d :| 0 <= d < |p| && p[d] != q[d];
    u := Telling(l, d, p[d]);
    TellingElement(l, d, p[d], p);
    TellingElement(l, d, p[d], q);
    ProductAt(u, p);
    ProductAt(u, q);
  }

  lemma RankZero(l: LoraTensor, p: seq<nat>)
    requires Sound(l) && Rank(l) == 0 && InShape(p, Shape(l))
    ensures Tensors.At(Product(l), p) == 0.0
  {
    hide Tensors.At, Prod, Tensors.Valid;
    ProductAt(l, p);
  }

  // ---------------------------------------------------------------- exactly when the product is indexed alike

  /** What the tuple does to the pair, it does to the product. */
  predicate IndexCommutes(l: LoraTensor, ix: seq<Index>)
    requires Sound(l)
  {
    IndexLora(l, ix).Ok? && DenseIndex(Product(l), ix) == Ok(Product(IndexLora(l, ix).value))
  }

  /** It does so whatever numbers the factors hold. */
  ghost predicate AlwaysCommutes(l: LoraTensor, ix: seq<Index>)
    requires Sound(l)
  {
    forall u | Sound(u) && SameShapes(l, u) :: IndexCommutes(u, ix)
  }

  /** Two tuples leave the same shape and take each element from the same place; without a rank all elements are zero. */
  ghost predicate SameReading(shape: seq<nat>, c: seq<Index>, m: seq<Index>, rank: nat) {
    && Shaped(shape, c).Some? && Shaped(shape, m) == Shaped(shape, c)
    && (rank == 0 || forall r | InShape(r, Shaped(shape, c).value) :: Places(shape, c, r) == Places(shape, m, r))
  }

  /** What the code makes of the tuple reads like what the tuple means, for tensors of this shape. */
  ghost predicate ReadsAlike(l: LoraTensor, ix: seq<Index>)
    requires Sound(l)
  {
    var c, m := Coded(ix, Dim(l)), Meant(ix, Dim(l));
    !Collapses(c) && m.Some? && SameReading(Shape(l), c, m.value, Rank(l))
  }

  lemma SameIndexed(w: Tensor, c: seq<Index>, m: seq<Index>)
    requires Tensors.Valid(w) && Shaped(w.shape, c).Some? && Shaped(w.shape, m) == Shaped(w.shape, c)
    requires forall r | InShape(r, Shaped(w.shape, c).value) ::
      Tensors.At(w, Places(w.shape, c, r)) == Tensors.At(w, Places(w.shape, m, r))
    ensures Indexed(w, c) == Indexed(w, m)
  {
    hide Tensors.At, Prod, Tensors.Valid, Indexed, Shaped, Places;
    var x, y := Indexed(w, c).value, Indexed(w, m).value;
    forall r | InShape(r, x.shape) ensures Tensors.At(x, r) == Tensors.At(y, r) {
      IndexedAt(w, c, r);
      IndexedAt(w, m, r);
    }
    SameTensor(x, y);
  }

  lemma ReadingIndexed(l: LoraTensor, c: seq<Index>, m: seq<Index>)
    requires Sound(l) && SameReading(Shape(l), c, m, Rank(l))
    ensures Indexed(Product(l), c) == Indexed(Product(l), m)
  {
    hide Tensors.At, Prod, Tensors.Valid, Indexed, Shaped, Places, Product, Shape;
    var w := Product(l);
    forall r | InShape(r, Shaped(w.shape, c).value)
      ensures Tensors.At(w, Places(w.shape, c, r)) == Tensors.At(w, Places(w.shape, m, r))
    {
      if Rank(l) == 0 {
        RankZero(l, Places(w.shape, c, r));
        RankZero(l, Places(w.shape, m, r));
      }
    }
    SameIndexed(w, c, m);
  }

  lemma OkForShapes(l: LoraTensor, u: LoraTensor, ix: seq<Index>)
    requires Sound(l) && Sound(u) && SameShapes(l, u)
    ensures IndexLora(l, ix).Ok? <==> IndexLora(u, ix).Ok?
    ensures ReadsAlike(l, ix) <==> ReadsAlike(u, ix)
  {
    hide Tensors.At, Prod, Tensors.Valid, Shaped, Places, Coded, Meant, Stripped, Collapses;
    hide Indexed;
  }

  /** What reads alike commutes. */
  lemma AlikeCommutes(l: LoraTensor, ix: seq<Index>)
    requires Sound(l) && IndexLora(l, ix).Ok? && ReadsAlike(l, ix)
    ensures IndexCommutes(l, ix)
  {
    hide Tensors.At, Prod, Tensors.Valid, Indexed, Shaped, Places, Product, Coded, Meant, IndexBoth, SameReading, Stripped;
    hide Sound, EndsInSlices, Collapses;
    var c := Coded(ix, Dim(l));
    EndsOrCollapses(l, c);
    IndexBothProduct(l, c);
    ReadingIndexed(l, c, Meant(ix, Dim(l)).value);
    ProductAxes(l);
  }

  lemma ProductAxes(l: LoraTensor)
    requires Sound(l)
    ensures Product(l).shape == Shape(l) && |Product(l).shape| == Dim(l)
  {
  }

  /** A tuple that collapses the last two axes leaves one axis too many. */
  lemma CollapsedFails(l: LoraTensor, ix: seq<Index>)
    requires Sound(l) && IndexLora(l, ix).Ok? && Collapses(Coded(ix, Dim(l)))
    ensures !IndexCommutes(l, ix)
  {
    hide Tensors.At, Prod, Tensors.Valid, Indexed, Shaped, Places, Product, Coded, Meant, IndexBoth, Stripped, Numbers;
    hide Sound, EndsInSlices;
    var c := Coded(ix, Dim(l));
    EndsOrCollapses(l, c);
    NumbersCoded(ix, Dim(l));
    ProductAxes(l);
    ProductAxes(IndexLora(l, ix).value);
    NotBothEnds(c);
    if DenseIndex(Product(l), ix).Ok? {
      var m := Meant(ix, Dim(l)).value;
      NumbersMeant(ix, Dim(l));
      AxesLeft(Shape(l), m);
    }
  }

  lemma NotBothEnds(c: seq<Index>)
    ensures !(EndsInSlices(c) && Collapses(c))
  {
  }

  /** Where the code's tuple does not read like the meant one, some factors of the same shapes show it. */
  lemma UnlikeFails(l: LoraTensor, ix: seq<Index>) returns (u: LoraTensor)
    requires Sound(l) && IndexLora(l, ix).Ok? && !ReadsAlike(l, ix)
    ensures Sound(u) && SameShapes(l, u) && !IndexCommutes(u, ix)
  {
    hide Tensors.At, Prod, Tensors.Valid, Indexed, Shaped, Places, Product, Coded, IndexBoth, Stripped;
    hide Sound, EndsInSlices, Collapses, Meant, Shape;
    u := l;
    var c, meant := Coded(ix, Dim(l)), Meant(ix, Dim(l));
    ProductAxes(l);
    if Collapses(c) {
      CollapsedFails(l, ix);
    } else {
      EndsOrCollapses(l, c);
      IndexBothProduct(l, c);
      if meant.Some? && Shaped(Shape(l), meant.value) == Shaped(Shape(l), c) {
        var m := meant.value;
        var r :| InShape(r, Shaped(Shape(l), c).value) && Places(Shape(l), c, r) != Places(Shape(l), m, r);
        u := Separated(l, Places(Shape(l), c, r), Places(Shape(l), m, r));
        ShapeForShapes(l, u);
        SeparatedFails(l, u, ix, r);
      }
    }
  }

  lemma ShapeForShapes(l: LoraTensor, u: LoraTensor)
    requires Sound(l) && Sound(u) && SameShapes(l, u)
    ensures Shape(u) == Shape(l) && Rank(u) == Rank(l)
  {
  }

  lemma SeparatedFails(l: LoraTensor, u: LoraTensor, ix: seq<Index>, r: seq<nat>)
    requires Sound(l) && Sound(u) && SameShapes(l, u) && IndexLora(l, ix).Ok? && Meant(ix, Dim(l)).Some?
    requires EndsInSlices(Coded(ix, Dim(l)))
    requires var c, m := Coded(ix, Dim(l)), Meant(ix, Dim(l)).value;
      && Shaped(Shape(u), c).Some? && Shaped(Shape(u), m) == Shaped(Shape(u), c)
      && InShape(r, Shaped(Shape(u), c).value)
      && Tensors.At(Product(u), Places(Shape(u), c, r)) != Tensors.At(Product(u), Places(Shape(u), m, r))
    ensures !IndexCommutes(u, ix)
  {
    hide Tensors.At, Prod, Tensors.Valid, Indexed, Shaped, Places, Product, Coded, IndexBoth, Stripped;
    hide Sound, EndsInSlices, Meant, Shape, ReadsAlike;
    var c, m := Coded(ix, Dim(l)), Meant(ix, Dim(l)).value;
    OkForShapes(l, u, ix);
    ProductAxes(u);
    IndexBothProduct(u, c);
    IndexedAt(Product(u), c, r);
    IndexedAt(Product(u), m, r);
  }

  /**
   A tuple that the pair carries out: it does to all pairs of these shapes what it does to their products exactly when
   what the code makes of it reads like what it means.
   */
  lemma IndexExactly(l: LoraTensor, ix: seq<Index>)
    requires Sound(l) && IndexLora(l, ix).Ok?
    ensures AlwaysCommutes(l, ix) <==> ReadsAlike(l, ix)
  {
    hide IndexLora, DenseIndex, Product, ReadsAlike, IndexCommutes, Sound, SameShapes;
    if ReadsAlike(l, ix) {
      forall u | Sound(u) && SameShapes(l, u) ensures IndexCommutes(u, ix) {
        OkForShapes(l, u, ix);
        AlikeCommutes(u, ix);
      }
    } else {
      var u := UnlikeFails(l, ix);
    }
  }

  // ---------------------------------------------------------------- an ellipsis among slices

  /**
   Two tuples with a slice for each axis read alike: the slices take equally many entries of each axis, and the same
   ones, unless there is no element to be taken or the rank is zero.
   */
  predicate SlicesAlike(shape: seq<nat>, c: seq<Index>, m: seq<Index>, rank: nat)
    requires |shape| == |c| == |m| && AllSlices(c) && AllSlices(m)
  {
    && (forall d | 0 <= d < |shape| :: Length(c[d].slice, shape[d]) == Length(m[d].slice, shape[d]))
    && (|| rank == 0
        || (exists d | 0 <= d < |shape| :: Length(c[d].slice, shape[d]) == 0)
        || forall d | 0 <= d < |shape| :: Rows(c[d].slice, shape[d]) == Rows(m[d].slice, shape[d]))
  }

  lemma SlicesReadAlike(shape: seq<nat>, c: seq<Index>, m: seq<Index>, rank: nat)
    requires |shape| == |c| == |m| && AllSlices(c) && AllSlices(m)
    ensures SameReading(shape, c, m, rank) <==> SlicesAlike(shape, c, m, rank)
  {
    hide Length, Rows, Shaped, Places, AllSlices;
    SlicesShaped(shape, c);
    SlicesShaped(shape, m);
    if SlicesAlike(shape, c, m, rank) {
      assert Shaped(shape, c).value == Shaped(shape, m).value;
      forall r | rank != 0 && InShape(r, Shaped(shape, c).value)
        ensures Places(shape, c, r) == Places(shape, m, r)
      {
        SlicesPlaced(shape, c, r);
        SlicesPlaced(shape, m, r);
      }
    }
    if SameReading(shape, c, m, rank) {
      AlikeSlices(shape, c, m, rank);
    }
  }

  lemma AlikeSlices(shape: seq<nat>, c: seq<Index>, m: seq<Index>, rank: nat)
    requires |shape| == |c| == |m| && AllSlices(c) && AllSlices(m) && SameReading(shape, c, m, rank)
    ensures SlicesAlike(shape, c, m, rank)
  {
    hide Length, Rows, Shaped, Places;
    SlicesShaped(shape, c);
    SlicesShaped(shape, m);
    if rank != 0 && forall d | 0 <= d < |shape| :: Length(c[d].slice, shape[d]) != 0 {
      forall d | 0 <= d < |shape| ensures Rows(c[d].slice, shape[d]) == Rows(m[d].slice, shape[d]) {
        forall e: nat | e < Length(c[d].slice, shape[d])
          ensures Rows(c[d].slice, shape[d])[e] == Rows(m[d].slice, shape[d])[e]
        {
          var r := seq(|shape|, i requires 0 <= i < |shape| => if i == d then e else 0);
          assert InShape(r, Shaped(shape, c).value);
          SlicesPlaced(shape, c, r);
          SlicesPlaced(shape, m, r);
          assert Places(shape, c, r) == Places(shape, m, r);
        }
      }
    }
  }

  lemma {:induction false} SpreadPlain(ix: seq<Index>, n: nat)
    requires Plain(ix)
    ensures Spread(ix, n) == ix
  {
    if ix != [] { SpreadPlain(ix[1..], n); }
  }

  lemma {:induction false} SpreadConcat(a: seq<Index>, b: seq<Index>, n: nat)
    ensures Spread(a + b, n) == Spread(a, n) + Spread(b, n)
  {
    if a == [] {
      assert a + b == b;
    } else {
      assert (a + b)[0] == a[0] && (a + b)[1..] == a[1..] + b;
      SpreadConcat(a[1..], b, n);
    }
  }

  lemma StrippedPlain(ix: seq<Index>)
    requires Plain(ix)
    ensures Stripped(ix) == ix && Stripped(ix + [Ellipsis]) == ix
  {
    assert (ix + [Ellipsis])[..|ix|] == ix;
  }

  /** A tuple with one ellipsis, and something behind it: what the code makes of it, and what it means. */
  lemma InnerEllipsis(pre: seq<Index>, post: seq<Index>, n: nat)
    requires Plain(pre) && Plain(post) && post != []
    ensures var ix, k := pre + ([Ellipsis] + post), |pre| + |post|;
      && Stripped(ix) == ix && Coded(ix, n) == Padded(pre + (Wholes(k) + post), n)
      && !Plain(ix) && FirstEllipsis(ix) == |pre| && ix[..|pre|] == pre && ix[|pre| + 1..] == post
      && Meant(ix, n) == if k > n then None else Some(pre + (Wholes(n - k) + post))
  {
    hide Spread, Padded, Wholes;
    var ix, k := pre + ([Ellipsis] + post), |pre| + |post|;
    assert ix[|ix| - 1] == post[|post| - 1] && ix[|pre|] == Ellipsis;
    SpreadConcat(pre, [Ellipsis] + post, k);
    SpreadConcat([Ellipsis], post, k);
    SpreadPlain(pre, k);
    SpreadPlain(post, k);
    SpreadEllipsis(k);
    EllipsisIsFirst(pre, post);
  }

  lemma SpreadEllipsis(n: nat)
    ensures Spread([Ellipsis], n) == Wholes(n)
  {
    assert [Ellipsis][1..] == [] && Wholes(n) + [] == Wholes(n);
  }

  lemma EllipsisIsFirst(pre: seq<Index>, post: seq<Index>)
    requires Plain(pre)
    ensures var ix := pre + ([Ellipsis] + post);
      !Plain(ix) && FirstEllipsis(ix) == |pre| && ix[..|pre|] == pre && ix[|pre| + 1..] == post
  {
    hide FirstEllipsis;
    var ix := pre + ([Ellipsis] + post);
    assert ix[|pre|] == Ellipsis;
    var p := FirstEllipsis(ix);
    assert forall i | 0 <= i < |pre| :: ix[i] == pre[i] && pre[i] != Ellipsis;
    assert forall i | 0 <= i < p :: ix[..p][i] == ix[i] && ix[i] != Ellipsis;
  }

  /** The slices that fall on the axes when the code has filled in an ellipsis between them. */
  function Fallen(pre: seq<Index>, post: seq<Index>, n: nat): (c: seq<Index>)
    requires AllSlices(pre) && AllSlices(post) && 2 * (|pre| + |post|) <= n
    ensures |c| == n && AllSlices(c)
  {
    pre + (Wholes(|pre| + |post|) + post) + Wholes(n - 2 * (|pre| + |post|))
  }

  /** The slices that are meant for the axes. */
  function Intended(pre: seq<Index>, post: seq<Index>, n: nat): (m: seq<Index>)
    requires AllSlices(pre) && AllSlices(post) && |pre| + |post| <= n
    ensures |m| == n && AllSlices(m)
  {
    pre + (Wholes(n - (|pre| + |post|)) + post)
  }

  /**
   Slices with one ellipsis among them: carried out on a pair, this does to all pairs of these shapes what it does to
   their products exactly when, on each axis, the slice that falls there and the slice that is meant take the same entries.
   */
  lemma EllipsisExactly(l: LoraTensor, pre: seq<Index>, post: seq<Index>)
    requires Sound(l) && AllSlices(pre) && AllSlices(post) && post != []
    requires IndexLora(l, pre + ([Ellipsis] + post)).Ok?
    ensures 2 * (|pre| + |post|) <= Dim(l)
    ensures AlwaysCommutes(l, pre + ([Ellipsis] + post)) <==>
      SlicesAlike(Shape(l), Fallen(pre, post, Dim(l)), Intended(pre, post, Dim(l)), Rank(l))
  {
    hide AlwaysCommutes, SlicesAlike, SameReading, IndexBoth, Meant, Coded, Stripped, Shape, Sound, Fallen, Intended;
    var n, ix := Dim(l), pre + ([Ellipsis] + post);
    InnerEllipsis(pre, post, n);
    FilledIn(pre, post, n);
    IndexExactly(l, ix);
    ProductAxes(l);
    SlicesReadAlike(Shape(l), Fallen(pre, post, n), Intended(pre, post, n), Rank(l));
    SlicesDontCollapse(Fallen(pre, post, n));
  }

  lemma FilledIn(pre: seq<Index>, post: seq<Index>, n: nat)
    requires AllSlices(pre) && AllSlices(post) && |Padded(pre + (Wholes(|pre| + |post|) + post), n)| == n
    ensures 2 * (|pre| + |post|) <= n
    ensures Padded(pre + (Wholes(|pre| + |post|) + post), n) == Fallen(pre, post, n)
    ensures pre + (Wholes(n - (|pre| + |post|)) + post) == Intended(pre, post, n)
  {
    PaddedIs(pre + (Wholes(|pre| + |post|) + post), n);
  }

  lemma PaddedIs(ix: seq<Index>, n: nat)
    ensures |ix| <= n <==> |Padded(ix, n)| == n
    ensures |ix| <= n ==> Padded(ix, n) == ix + Wholes(n - |ix|)
  {
    assert |ix| == n ==> Wholes(0) == [] && ix + [] == ix;
  }

  lemma SlicesDontCollapse(c: seq<Index>)
    requires AllSlices(c)
    ensures !Collapses(c)
  {
  }

  // ---------------------------------------------------------------- tuples that always commute

  /** An ellipsis that may go astray: a second one, or one in front of something else than whole slices, but for one number of axes. */
  predicate Astray(ix: seq<Index>, n: nat) {
    !Plain(ix) &&
    var p := FirstEllipsis(ix);
    || !Plain(ix[p + 1..])
    || ((exists i | p < i < |ix| :: ix[i] != WHOLE) && n != 2 * (|ix| - 1))
  }

  lemma AllWhole(ix: seq<Index>, m: nat)
    requires forall i | 0 <= i < |ix| :: ix[i] == WHOLE
    ensures Wholes(m) + ix == Wholes(m + |ix|)
  {
  }

  lemma BehindEllipsis(ix: seq<Index>, p: nat)
    requires p < |ix| && ix[p] == Ellipsis
    ensures ix == ix[..p] + ([Ellipsis] + ix[p + 1..])
    ensures p == |ix| - 1 ==> ix == ix[..p] + [Ellipsis] && ix[p + 1..] == []
    ensures var post := ix[p + 1..];
      (forall i | p < i < |ix| :: ix[i] == WHOLE) ==> forall i | 0 <= i < |post| :: post[i] == WHOLE
  {
    var post := ix[p + 1..];
    if forall i | p < i < |ix| :: ix[i] == WHOLE {
      forall i | 0 <= i < |post| ensures post[i] == WHOLE { assert post[i] == ix[p + 1 + i]; }
    }
  }

  /** Otherwise the code fills in what is meant. */
  lemma FilledInRight(ix: seq<Index>, n: nat)
    requires !Astray(ix, n) && Stripped(ix) != [] && |Coded(ix, n)| == n
    ensures Meant(ix, n).Some? && |Meant(ix, n).value| <= n && Coded(ix, n) == Padded(Meant(ix, n).value, n)
  {
    hide Spread, Stripped, Padded, Wholes, FirstEllipsis;
    if Plain(ix) {
      StrippedPlain(ix);
      SpreadPlain(ix, |ix| - 1);
      PaddedIs(ix, n);
    } else {
      var p := FirstEllipsis(ix);
      var pre, post := ix[..p], ix[p + 1..];
      BehindEllipsis(ix, p);
      if post == [] {
        StrippedPlain(pre);
        SpreadPlain(pre, |pre| - 1);
        PaddedIs(pre, n);
        LastEllipsis(pre, n);
      } else {
        InnerEllipsis(pre, post, n);
        InnerRight(pre, post, n);
      }
    }
  }

  lemma LastEllipsis(pre: seq<Index>, n: nat)
    requires |pre| <= n
    ensures var m := pre + (Wholes(n - |pre|) + []); |m| == n && m == Padded(pre, n) == Padded(m, n)
  {
    PaddedIs(pre, n);
    assert Wholes(n - |pre|) + [] == Wholes(n - |pre|);
  }

  lemma InnerRight(pre: seq<Index>, post: seq<Index>, n: nat)
    requires var k := |pre| + |post|; |Padded(pre + (Wholes(k) + post), n)| == n
    requires (forall i | 0 <= i < |post| :: post[i] == WHOLE) || n == 2 * (|pre| + |post|)
    ensures var k := |pre| + |post|;
      && k <= n && |pre + (Wholes(n - k) + post)| == n
      && Padded(pre + (Wholes(k) + post), n) == pre + (Wholes(n - k) + post) == Padded(pre + (Wholes(n - k) + post), n)
  {
    hide Padded, Wholes;
    var k := |pre| + |post|;
    PaddedIs(pre + (Wholes(k) + post), n);
    PaddedIs(pre + (Wholes(n - k) + post), n);
    NoWholes();
    if n != 2 * k {
      AllWhole(post, k);
      AllWhole(post, n - k);
      AllWhole(Wholes(n - 2 * k), k + |post|);
      assert (pre + Wholes(k + |post|)) + Wholes(n - 2 * k) == pre + (Wholes(k + |post|) + Wholes(n - 2 * k));
    }
  }

  lemma NoWholes()
    ensures Wholes(0) == [] && forall ix: seq<Index> :: ix + Wholes(0) == ix
  {
  }

  lemma PaddedReads(shape: seq<nat>, m: seq<Index>, rank: nat)
    requires |m| <= |shape| && Shaped(shape, Padded(m, |shape|)).Some?
    ensures SameReading(shape, Padded(m, |shape|), m, rank)
  {
    hide Shaped, Places, Padded, Wholes;
    PaddedIs(m, |shape|);
    WholesBehind(shape, m, Wholes(|shape| - |m|));
  }

  /** A tuple without an ellipsis that may go astray, and without numbers for both of the last two axes, commutes. */
  lemma IndexProduct(l: LoraTensor, ix: seq<Index>)
    requires Sound(l) && IndexLora(l, ix).Ok? && !Astray(ix, Dim(l)) && !Collapses(Coded(ix, Dim(l)))
    ensures IndexCommutes(l, ix)
  {
    hide IndexBoth, Meant, Coded, Stripped, Sound, SameReading, Shaped, Collapses, EndsInSlices, Astray, Padded, IndexCommutes;
    var n := Dim(l);
    FilledInRight(ix, n);
    EndsOrCollapses(l, Coded(ix, n));
    IndexedShapes(l, Coded(ix, n));
    ProductAxes(l);
    PaddedReads(Shape(l), Meant(ix, n).value, Rank(l));
    AlikeCommutes(l, ix);
  }

  // ---------------------------------------------------------------- tuples that never do

  /**
   With three axes, numbers for the last two are carried out exactly when they are in range and the first axis of A is
   as long as the rank; the outcome then has two axes, where the indexed product has one.
   */
  lemma CollapseHappens(l: LoraTensor, i: int, j: int)
    requires Sound(l) && Dim(l) == 3
    ensures var ix := [WHOLE, Number(i), Number(j)];
      && (IndexLora(l, ix).Ok? <==>
        && FromEnd(i, Shape(l)[1]).Ok? && FromEnd(j, Shape(l)[2]).Ok? && l.a.shape[0] == Rank(l))
      && (IndexLora(l, ix).Ok? ==> !IndexCommutes(l, ix))
  {
    hide Tensors.At, Prod, Tensors.Valid, IndexCommutes, Shaped, Indexed, IndexBoth, Coded, Stripped;
    var ix := [WHOLE, Number(i), Number(j)];
    CollapsedCode(i, j);
    CollapsedBoth(l, i, j);
    if IndexLora(l, ix).Ok? { CollapsedFails(l, ix); }
  }

  lemma CollapsedCode(i: int, j: int)
    ensures var ix := [WHOLE, Number(i), Number(j)]; Stripped(ix) != [] && Coded(ix, 3) == ix
  {
    var ix := [WHOLE, Number(i), Number(j)];
    StrippedPlain(ix);
    SpreadPlain(ix, 2);
  }

  lemma CollapsedBoth(l: LoraTensor, i: int, j: int)
    requires Sound(l) && Dim(l) == 3
    ensures IndexBoth(l, [WHOLE, Number(i), Number(j)]).Ok? <==>
      FromEnd(i, Shape(l)[1]).Ok? && FromEnd(j, Shape(l)[2]).Ok? && l.a.shape[0] == Rank(l)
  {
    hide Tensors.At, Prod, Tensors.Valid, Shaped, Indexed, FromEnd, ForA;
    CollapsedShapes(l.a.shape, l.b.shape, i, j);
  }

  lemma ConsIndex(shape: seq<nat>, i: Index, ix: seq<Index>)
    requires shape != []
    ensures Shaped(shape, [i] + ix) == Put(i, shape[0], Shaped(shape[1..], ix))
  {
    hide Put;
    assert ([i] + ix)[1..] == ix;
  }

  lemma CollapsedShapes(a: seq<nat>, b: seq<nat>, i: int, j: int)
    requires |a| == |b| == 3
    ensures ForA(a, [WHOLE, Number(i), Number(j)]) == [WHOLE, WHOLE, Number(j)]
    ensures [WHOLE, Number(i), Number(j)][..2] == [WHOLE, Number(i)]
    ensures Shaped(a, [WHOLE, WHOLE, Number(j)]) == if FromEnd(j, a[2]).Ok? then Some([a[0], a[1]]) else None
    ensures Shaped(b, [WHOLE, Number(i)]) == if FromEnd(i, b[1]).Ok? then Some([b[0], b[2]]) else None
  {
    hide Shaped, FromEnd, ForA;
    assert Dropped(a, 2) == [a[0], a[1]] && Dropped(b, 1) == [b[0], b[2]];
    CollapsedForA(a, i, j);
    CollapsedShape(a, [WHOLE, WHOLE, Number(j)]);
    CollapsedShape(b, [WHOLE, Number(i)]);
  }

  lemma CollapsedForA(a: seq<nat>, i: int, j: int)
    requires |a| == 3
    ensures ForA(a, [WHOLE, Number(i), Number(j)]) == [WHOLE, WHOLE, Number(j)]
  {
    assert [WHOLE, Number(i), Number(j)][1..] == [Number(i), Number(j)];
  }

  lemma CollapsedShape(shape: seq<nat>, ix: seq<Index>)
    requires |shape| == 3 && 2 <= |ix| <= 3 && ix[|ix| - 1].Number?
    requires forall d | 0 <= d < |ix| - 1 :: ix[d] == WHOLE
    ensures Shaped(shape, ix) ==
      if FromEnd(ix[|ix| - 1].i, shape[|ix| - 1]).Ok? then Some(Dropped(shape, |ix| - 1)) else None
  {
    hide Length, FromEnd, Shaped;
    WholeIndex(shape[0]);
    WholeIndex(shape[1]);
    var j := ix[|ix| - 1];
    var last := shape[|ix| - 1..];
    FirstIndex(last, j);
    if |ix| == 2 {
      assert ix == [WHOLE] + [j] && shape[1..] == last;
      ConsIndex(shape, WHOLE, [j]);
      assert [shape[0]] + last[1..] == Dropped(shape, 1);
    } else {
      assert ix == [WHOLE] + ([WHOLE] + [j]) && shape[1..][1..] == last;
      ConsIndex(shape[1..], WHOLE, [j]);
      ConsIndex(shape, WHOLE, [WHOLE] + [j]);
      assert [shape[0]] + ([shape[1]] + last[1..]) == Dropped(shape, 2);
    }
  }

  function Dropped(s: seq<nat>, d: nat): seq<nat>
    requires d < |s|
  {
    s[..d] + s[d + 1..]
  }

  lemma MissCarriedOut(l: LoraTensor, s: Slice)
    requires Sound(l) && Dim(l) == 3 && Legal(s)
    ensures IndexLora(l, [Ellipsis, Span(s)]).Ok?
  {
    hide IndexBoth, Coded, Stripped, Sound, KeepsAll, AllSlices, Length, Padded, Fallen, Intended, Wholes;
    SlicesAre(s);
    InnerEllipsis([], [Span(s)], 3);
    FilledIn([], [Span(s)], 3);
    SlicesProduct(l, [WHOLE, Span(s), WHOLE]);
    KeptForThree(l.a.shape, l.b.shape, s);
  }

  /**
   With three axes, an ellipsis in front of one slice lets the slice fall on the second axis instead of the third:
   this commutes for all factors exactly when the slice is whole on both.
   */
  lemma EllipsisMisses(l: LoraTensor, s: Slice)
    requires Sound(l) && Dim(l) == 3 && Legal(s)
    ensures IndexLora(l, [Ellipsis, Span(s)]).Ok?
    ensures AlwaysCommutes(l, [Ellipsis, Span(s)]) <==>
      Length(s, Shape(l)[1]) == Shape(l)[1] && Length(s, Shape(l)[2]) == Shape(l)[2]
  {
    hide *;
    SlicesAre(s);
    MissCarriedOut(l, s);
    EllipsisExactly(l, [], [Span(s)]);
    ProductAxes(l);
    ThreeAlike(Shape(l), s, Rank(l));
  }

  lemma SlicesAre(s: Slice)
    requires Legal(s)
    ensures AllSlices([]) && AllSlices([Span(s)]) && Plain([]) && Plain([Span(s)])
    ensures AllSlices([WHOLE, Span(s), WHOLE]) && AllSlices([WHOLE, WHOLE, Span(s)])
    ensures Fallen([], [Span(s)], 3) == [WHOLE, Span(s), WHOLE] && Intended([], [Span(s)], 3) == [WHOLE, WHOLE, Span(s)]
    ensures |Padded([] + (Wholes(1) + [Span(s)]), 3)| == 3 && [Ellipsis, Span(s)] == [] + ([Ellipsis] + [Span(s)])
  {
  }

  lemma KeptForThree(a: seq<nat>, b: seq<nat>, s: Slice)
    requires |a| == |b| == 3 && Legal(s) && AllSlices([WHOLE, Span(s), WHOLE])
    ensures KeepsAll(a, b, [WHOLE, Span(s), WHOLE])
  {
    hide Length;
    WholeIndex(b[0]);
  }

  lemma ThreeAlike(shape: seq<nat>, s: Slice, rank: nat)
    requires |shape| == 3 && Legal(s) && AllSlices([WHOLE, Span(s), WHOLE]) && AllSlices([WHOLE, WHOLE, Span(s)])
    ensures SlicesAlike(shape, [WHOLE, Span(s), WHOLE], [WHOLE, WHOLE, Span(s)], rank) <==>
      Length(s, shape[1]) == shape[1] && Length(s, shape[2]) == shape[2]
  {
    hide Length, Rows;
    var c, m := [WHOLE, Span(s), WHOLE], [WHOLE, WHOLE, Span(s)];
    WholeIndex(shape[0]);
    WholeIndex(shape[1]);
    WholeIndex(shape[2]);
    if Length(s, shape[1]) == shape[1] && Length(s, shape[2]) == shape[2] {
      forall d | 0 <= d < 3 ensures Rows(c[d].slice, shape[d]) == Rows(m[d].slice, shape[d]) {
        forall i: nat | i < shape[d] && d > 0 ensures Rows(s, shape[d])[i] == i { WholeRows(s, shape[d], i); }
      }
    }
  }

  // ---------------------------------------------------------------- a number alone

  /** With more than two axes a number alone takes that entry of the first axis of both factors. */
  function EntryLora(l: LoraTensor, i: int): Result<LoraTensor, Refusal>
    requires Sound(l)
  {
    if Dim(l) <= 2 then Err(NotImplemented)
    else
      var a, b := Indexed(l.a, [Number(i)]), Indexed(l.b, [Number(i)]);
      if a.Err? || b.Err? then Err(Mismatch) else Ok(LoraTensor(a.value, b.value))
  }

  lemma PaddedIndexed(w: Tensor, ix: seq<Index>, n: nat)
    requires Tensors.Valid(w) && |ix| + n <= |w.shape|
    ensures Indexed(w, ix + Wholes(n)) == Indexed(w, ix)
  {
    hide Tensors.At, Prod, Tensors.Valid, Indexed, Shaped, Places, Wholes;
    WholesBehind(w.shape, ix, Wholes(n));
    if Shaped(w.shape, ix).Some? {
      SameIndexed(w, ix + Wholes(n), ix);
    }
  }

  lemma NumberModulo(w: Tensor, i: int)
    requires Tensors.Valid(w) && w.shape != [] && Indexed(w, [Number(i)]).Ok?
    ensures w.shape[0] > 0 && Indexed(w, [Number(i % w.shape[0])]) == Indexed(w, [Number(i)])
  {
    hide Tensors.At, Prod, Tensors.Valid, Indexed, Shaped, Places;
    var n := w.shape[0];
    FirstIndex(w.shape, Number(i));
    assert FromEnd(i, n).Ok?;
    Wrapped(i, n);
    var j := i % n;
    FirstIndex(w.shape, Number(j));
    forall r | InShape(r, Shaped(w.shape, [Number(i)]).value)
      ensures Places(w.shape, [Number(j)], r) == Places(w.shape, [Number(i)], r)
    {
      FirstPlaced(w.shape, Number(i), r);
      FirstPlaced(w.shape, Number(j), r);
    }
    SameIndexed(w, [Number(j)], [Number(i)]);
  }

  lemma {:induction false} WholesForA(a: seq<nat>)
    requires |a| >= 2
    ensures ForA(a, Wholes(|a|)) == Wholes(|a|)
  {
    if |a| > 2 {
      assert Wholes(|a|)[1..] == Wholes(|a| - 1);
      WholesForA(a[1..]);
    }
  }

  lemma EntryForA(a: seq<nat>, i: int)
    requires |a| > 2 && a[0] > 0
    ensures ForA(a, [Number(i)] + Wholes(|a| - 1)) == [Number(i % a[0])] + Wholes(|a| - 1)
  {
    hide Wholes;
    assert ([Number(i)] + Wholes(|a| - 1))[1..] == Wholes(|a| - 1);
    WholesForA(a[1..]);
  }

  lemma EntryIsIndexed(l: LoraTensor, i: int)
    requires Sound(l) && EntryLora(l, i).Ok?
    ensures var c := [Number(i)] + Wholes(Dim(l) - 1);
      EndsInSlices(c) && |c| == Dim(l) && IndexBoth(l, c) == EntryLora(l, i)
  {
    hide Tensors.At, Prod, Tensors.Valid, Indexed, Shaped, ForA;
    var n, one := Dim(l), [Number(i)];
    var c := one + Wholes(n - 1);
    NumberModulo(l.a, i);
    EntryForA(l.a.shape, i);
    PaddedIndexed(l.a, [Number(i % l.a.shape[0])], n - 1);
    assert c[..n - 1] == one + Wholes(n - 2);
    PaddedIndexed(l.b, one, n - 2);
    EntryFits(l, i);
  }

  lemma EntryFits(l: LoraTensor, i: int)
    requires Sound(l) && EntryLora(l, i).Ok?
    ensures Sound(EntryLora(l, i).value)
  {
    hide Tensors.At, Prod, Tensors.Valid, Indexed, Shaped;
    FirstIndex(l.a.shape, Number(i));
    FirstIndex(l.b.shape, Number(i));
    var a, b := l.a.shape[1..], l.b.shape[1..];
    assert forall d | 0 <= d < |a| - 2 :: a[d] == l.a.shape[d + 1] && b[d] == l.b.shape[d + 1];
  }

  lemma EntryProduct(l: LoraTensor, i: int)
    requires Sound(l) && EntryLora(l, i).Ok?
    ensures Sound(EntryLora(l, i).value)
    ensures Indexed(Product(l), [Number(i)]) == Ok(Product(EntryLora(l, i).value))
  {
    hide EntryLora, IndexBoth, Indexed, Product, EndsInSlices, Sound;
    EntryIsIndexed(l, i);
    IndexBothProduct(l, [Number(i)] + Wholes(Dim(l) - 1));
    ProductAxes(l);
    PaddedIndexed(Product(l), [Number(i)], Dim(l) - 1);
  }
}
