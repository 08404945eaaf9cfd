/** Pairs of more than two axes, stacked along a new axis or joined along their first. */
module LoraStacks {
  import opened Tensors
  import opened Lora
  import opened LoraOps

  // ---------------------------------------------------------------- stacking

  /** All pairs have factors of the same shapes, as stacking them demands. */
  predicate Alike(ls: seq<LoraTensor>) {
    && ls != []
    && forall i | 0 <= i < |ls| :: Sound(ls[i]) && ls[i].a.shape == ls[0].a.shape && ls[i].b.shape == ls[0].b.shape
  }

  function As(ls: seq<LoraTensor>): (ts: seq<Tensor>)
    ensures |ts| == |ls| && forall i | 0 <= i < |ls| :: ts[i] == ls[i].a
  {
    seq(|ls|, i requires 0 <= i < |ls| => ls[i].a)
  }

  function Bs(ls: seq<LoraTensor>): (ts: seq<Tensor>)
    ensures |ts| == |ls| && forall i | 0 <= i < |ls| :: ts[i] == ls[i].b
  {
    seq(|ls|, i requires 0 <= i < |ls| => ls[i].b)
  }

  lemma ProductsAlike(ls: seq<LoraTensor>)
    requires Alike(ls)
    ensures forall i | 0 <= i < |ls| :: Tensors.Valid(Products(ls)[i]) && Products(ls)[i].shape == Shape(ls[0])
  {
    hide Product, Tensors.Valid;
  }

  /** Both factors are stacked. */
  function StackLora(ls: seq<LoraTensor>): (m: LoraTensor)
    requires Alike(ls)
    ensures Tensors.Valid(m.a) && m.a.shape == [|ls|] + ls[0].a.shape
    ensures Tensors.Valid(m.b) && m.b.shape == [|ls|] + ls[0].b.shape
  {
    FactorsValid(ls);
    LoraTensor(Stack(As(ls), ls[0].a.shape), Stack(Bs(ls), ls[0].b.shape))
  }

  lemma FactorsValid(ls: seq<LoraTensor>)
    requires Alike(ls)
    ensures forall i | 0 <= i < |ls| :: Tensors.Valid(As(ls)[i]) && As(ls)[i].shape == ls[0].a.shape
    ensures forall i | 0 <= i < |ls| :: Tensors.Valid(Bs(ls)[i]) && Bs(ls)[i].shape == ls[0].b.shape
  {
    hide Tensors.Valid, ShapesFit;
  }

  lemma StackSound(ls: seq<LoraTensor>)
    requires Alike(ls)
    ensures Sound(StackLora(ls)) && Rank(StackLora(ls)) == Rank(ls[0])
    ensures Shape(StackLora(ls)) == [|ls|] + Shape(ls[0])
  {
    hide StackLora, Tensors.Valid;
    StackedShapes(ls[0].a.shape, ls[0].b.shape, |ls|);
  }

  lemma StackedShapes(a: seq<nat>, b: seq<nat>, n: nat)
    requires ShapesFit(a, b)
    ensures ShapesFit([n] + a, [n] + b)
    ensures ([n] + b)[|b| := ([n] + a)[|b|]] == [n] + b[|b| - 1 := a[|b| - 1]]
  {
  }

  lemma StackIndices(shape: seq<nat>, n: nat, idx: seq<nat>, k: nat)
    requires |shape| >= 2 && |idx| == |shape| + 1 && idx[0] < n
    ensures BIndex(idx, k)[0] == idx[0] && BIndex(idx, k)[1..] == BIndex(idx[1..], k)
    ensures AIndex([n] + shape, idx, k)[0] == idx[0] && AIndex([n] + shape, idx, k)[1..] == AIndex(shape, idx[1..], k)
  {
  }

  lemma StackATerm(ls: seq<LoraTensor>, idx: seq<nat>, k: nat)
    requires Alike(ls) && |idx| == Dim(ls[0]) + 1 && idx[0] < |ls|
    requires forall i | 0 <= i < |ls| :: Tensors.Valid(As(ls)[i]) && As(ls)[i].shape == ls[0].a.shape
    requires InShape(AIndex([|ls|] + ls[0].a.shape, idx, k), [|ls|] + ls[0].a.shape)
    ensures InShape(AIndex(ls[idx[0]].a.shape, idx[1..], k), ls[idx[0]].a.shape)
    ensures At(Stack(As(ls), ls[0].a.shape), AIndex([|ls|] + ls[0].a.shape, idx, k))
      == At(ls[idx[0]].a, AIndex(ls[idx[0]].a.shape, idx[1..], k))
  {
    hide At, Prod, Tensors.Valid, BIndex, AIndex, InShape, Stack;
    FactorsValid(ls);
    StackIndices(ls[0].a.shape, |ls|, idx, k);
    StackAt(As(ls), ls[0].a.shape, AIndex([|ls|] + ls[0].a.shape, idx, k));
  }

  lemma StackBTerm(ls: seq<LoraTensor>, idx: seq<nat>, k: nat)
    requires Alike(ls) && |idx| == Dim(ls[0]) + 1 && idx[0] < |ls|
    requires forall i | 0 <= i < |ls| :: Tensors.Valid(Bs(ls)[i]) && Bs(ls)[i].shape == ls[0].b.shape
    requires InShape(BIndex(idx, k), [|ls|] + ls[0].b.shape)
    ensures InShape(BIndex(idx[1..], k), ls[idx[0]].b.shape)
    ensures At(Stack(Bs(ls), ls[0].b.shape), BIndex(idx, k)) == At(ls[idx[0]].b, BIndex(idx[1..], k))
  {
    hide At, Prod, Tensors.Valid, BIndex, AIndex, InShape, Stack;
    FactorsValid(ls);
    StackIndices(ls[0].b.shape, |ls|, idx, k);
    StackAt(Bs(ls), ls[0].b.shape, BIndex(idx, k));
  }

  lemma StackTerm(ls: seq<LoraTensor>, m: LoraTensor, idx: seq<nat>, i: nat, jdx: seq<nat>, k: nat)
    requires Alike(ls) && m == StackLora(ls) && Sound(m) && InShape(idx, Shape(m)) && k < Rank(m)
    requires |idx| == Dim(ls[0]) + 1 && i == idx[0] < |ls| && jdx == idx[1..]
    ensures Sound(ls[i]) && |jdx| == Dim(ls[i]) && SameTerm(m, idx, ls[i], jdx, k)
  {
    IndicesFit(m, idx, k);
    FactorsValid(ls);
    hide At, Prod, Tensors.Valid, BIndex, AIndex, InShape, Shape, Stack;
    StackATerm(ls, idx, k);
    StackBTerm(ls, idx, k);
  }

  lemma AlikeShapes(ls: seq<LoraTensor>, i: nat)
    requires Alike(ls) && i < |ls|
    ensures Sound(ls[i]) && Rank(ls[i]) == Rank(ls[0]) && Shape(ls[i]) == Shape(ls[0])
  {
  }

  lemma StackElement(ls: seq<LoraTensor>, m: LoraTensor, ws: seq<Tensor>, shape: seq<nat>, idx: seq<nat>)
    requires Alike(ls) && m == StackLora(ls) && Sound(m) && ws == Products(ls) && |ws| == |ls|
    requires forall i | 0 <= i < |ws| :: Tensors.Valid(ws[i]) && ws[i].shape == shape
    requires shape == Shape(ls[0]) && Shape(m) == [|ws|] + shape && InShape(idx, Shape(m))
    ensures At(Stack(ws, shape), idx) == Element(m, idx)
  {
    hide At, Prod, Tensors.Valid, Element, SameTerm, Shape, StackLora, Stack, Product, Sound;
    StackSound(ls);
    StackAt(ws, shape, idx);
    var i, jdx := idx[0], idx[1..];
    AlikeShapes(ls, i);
    ProductAt(ls[i], jdx);
    forall k | 0 <= k < Rank(m) ensures SameTerm(m, idx, ls[i], jdx, k) {
      StackTerm(ls, m, idx, i, jdx, k);
    }
    SameElement(m, idx, ls[i], jdx);
  }

  /** Stacking the factors stacks the products. */
  lemma StackProduct(ls: seq<LoraTensor>)
    requires Alike(ls)
    ensures forall i | 0 <= i < |ls| :: Tensors.Valid(Products(ls)[i]) && Products(ls)[i].shape == Shape(ls[0])
    ensures Sound(StackLora(ls)) && Product(StackLora(ls)) == Stack(Products(ls), Shape(ls[0]))
  {
    hide At, Prod, Tensors.Valid, Element, Shape, StackLora, Stack, Product, Sound;
    ProductsAlike(ls);
    StackSound(ls);
    var m, w := StackLora(ls), Stack(Products(ls), Shape(ls[0]));
    forall idx | InShape(idx, Shape(m)) ensures At(w, idx) == Element(m, idx) {
      StackElement(ls, m, Products(ls), Shape(ls[0]), idx);
    }
    IsProduct(m, w);
  }

  // ---------------------------------------------------------------- joining along the first of many axes

  predicate SameTails(l: LoraTensor, u: LoraTensor) {
    && Sound(l) && Sound(u) && Dim(l) == Dim(u) > 2
    && l.a.shape[1..] == u.a.shape[1..] && l.b.shape[1..] == u.b.shape[1..]
  }

  /** Both factors are joined along their first axis. */
  function JoinBatches(l: LoraTensor, u: LoraTensor): (m: LoraTensor)
    requires SameTails(l, u)
  {
    LoraTensor(Cat(l.a, u.a), Cat(l.b, u.b))
  }

  lemma JoinedShapes(l: LoraTensor, u: LoraTensor)
    requires SameTails(l, u)
    ensures var m := JoinBatches(l, u);
      && Tensors.Valid(m.a) && m.a.shape == l.a.shape[0 := l.a.shape[0] + u.a.shape[0]]
      && Tensors.Valid(m.b) && m.b.shape == l.b.shape[0 := l.b.shape[0] + u.b.shape[0]]
  {
    hide At, Prod, Tensors.Valid, Cat;
  }

  /** A's first axis is as long as B's, not one that is repeated. */
  predicate Full(l: LoraTensor)
    requires Sound(l)
  {
    l.a.shape[0] == l.b.shape[0]
  }

  lemma JoinedShapesFit(a: seq<nat>, b: seq<nat>, a': nat, b': nat)
    requires ShapesFit(a, b) && |a| > 2
    ensures ShapesFit(a[0 := a[0] + a'], b[0 := b[0] + b']) <==> a[0] + a' == 1 || a[0] + a' == b[0] + b'
  {
    var c, d := a[0 := a[0] + a'], b[0 := b[0] + b'];
    assert c[0] == a[0] + a' && d[0] == b[0] + b';
    assert forall i | 0 < i < |a| - 2 :: c[i] == a[i] && d[i] == b[i];
  }

  /**
   The joined factors fit together exactly when their first axes are equally long, or that of A is one. Where no first
   axis is empty, that is when no A was repeated along it.
   */
  lemma JoinedFit(l: LoraTensor, u: LoraTensor)
    requires SameTails(l, u)
    ensures var a, b := l.a.shape[0] + u.a.shape[0], l.b.shape[0] + u.b.shape[0];
      Sound(JoinBatches(l, u)) <==> a == 1 || a == b
    ensures l.b.shape[0] > 0 && u.b.shape[0] > 0 ==> (Sound(JoinBatches(l, u)) <==> Full(l) && Full(u))
  {
    hide Cat, At, Prod, Tensors.Valid, ShapesFit, JoinBatches;
    LeadRepeated(l);
    LeadRepeated(u);
    JoinedShapesFit(l.a.shape, l.b.shape, u.a.shape[0], u.b.shape[0]);
    JoinedShapes(l, u);
  }

  lemma LeadRepeated(l: LoraTensor)
    requires Sound(l) && Dim(l) > 2
    ensures |l.a.shape| == Dim(l) && (l.a.shape[0] == 1 || l.a.shape[0] == l.b.shape[0])
  {
    hide Tensors.Valid;
  }

  /** Two pairs are joined to factors that fit although some A was repeated: B has no entry there, or one too many. */
  lemma JoinedByChance(l: LoraTensor, u: LoraTensor)
    requires SameTails(l, u)
    ensures Sound(JoinBatches(l, u)) && l.a.shape[0] + u.a.shape[0] != 1 && !(Full(l) && Full(u)) <==>
      l.a.shape[0] == u.a.shape[0] == 1 && (l.b.shape[0], u.b.shape[0]) in {(0, 2), (2, 0)}
  {
    hide Cat, At, Prod, Tensors.Valid, ShapesFit, JoinBatches, Sound;
    JoinedFit(l, u);
    LeadRepeated(l);
    LeadRepeated(u);
  }

  lemma JoinedShape(l: LoraTensor, u: LoraTensor)
    requires SameTails(l, u) && Full(l) && Full(u)
    ensures Sound(JoinBatches(l, u)) && Rank(JoinBatches(l, u)) == Rank(l) == Rank(u)
    ensures Shape(l)[1..] == Shape(u)[1..] && Shape(l)[0] == l.b.shape[0]
    ensures Shape(JoinBatches(l, u)) == Shape(l)[0 := l.b.shape[0] + u.b.shape[0]]
    ensures Full(JoinBatches(l, u))
  {
    hide Cat, At, Prod, Tensors.Valid;
    TailAt(l.a.shape, u.a.shape);
    TailAt(l.b.shape, u.b.shape);
  }

  /** Along a first axis that is not repeated, the index into A moves with the index. */
  lemma LeadIndex(shape: seq<nat>, shape': seq<nat>, idx: seq<nat>, jdx: seq<nat>, k: nat)
    requires |shape| == |shape'| == |idx| > 2 && shape[1..] == shape'[1..]
    requires |jdx| == |idx| && jdx == idx[0 := jdx[0]] && idx[0] < shape[0] && jdx[0] < shape'[0]
    ensures AIndex(shape, idx, k)[0] == idx[0]
    ensures AIndex(shape', jdx, k) == AIndex(shape, idx, k)[0 := jdx[0]]
    ensures BIndex(idx, k)[0] == idx[0] && BIndex(jdx, k) == BIndex(idx, k)[0 := jdx[0]]
  {
    TailAt(shape, shape');
  }

  /** The element of the joined tensor that an index reaches is one of the part in which its first entry falls. */
  lemma JoinedAt(t: Tensor, u: Tensor, idx: seq<nat>, part: Tensor, jdx: seq<nat>)
    requires Tensors.Valid(t) && Tensors.Valid(u) && t.shape != [] && u.shape != [] && t.shape[1..] == u.shape[1..]
    requires InShape(idx, t.shape[0 := t.shape[0] + u.shape[0]])
    requires if idx[0] < t.shape[0] then part == t && jdx == idx
      else part == u && jdx == idx[0 := idx[0] - t.shape[0]]
    ensures Tensors.Valid(part) && InShape(jdx, part.shape) && At(Cat(t, u), idx) == At(part, jdx)
  {
    hide At, Prod, Tensors.Valid, Cat;
    CatAt(t, u, idx);
  }

  lemma JoinedATerm(l: Tensor, u: Tensor, idx: seq<nat>, part: Tensor, jdx: seq<nat>, k: nat)
    requires Tensors.Valid(l) && Tensors.Valid(u) && |l.shape| == |u.shape| == |idx| > 2 && l.shape[1..] == u.shape[1..]
    requires if idx[0] < l.shape[0] then part == l && jdx == idx
      else part == u && jdx == idx[0 := idx[0] - l.shape[0]]
    requires idx[0] < l.shape[0] + u.shape[0]
    requires var shape := l.shape[0 := l.shape[0] + u.shape[0]]; InShape(AIndex(shape, idx, k), shape)
    ensures var i := AIndex(l.shape[0 := l.shape[0] + u.shape[0]], idx, k);
      InShape(AIndex(part.shape, jdx, k), part.shape) && At(Cat(l, u), i) == At(part, AIndex(part.shape, jdx, k))
  {
    hide At, Prod, Tensors.Valid, AIndex, BIndex, Cat, InShape;
    var shape := l.shape[0 := l.shape[0] + u.shape[0]];
    assert shape[1..] == part.shape[1..];
    LeadIndex(shape, part.shape, idx, jdx, k);
    JoinedAt(l, u, AIndex(shape, idx, k), part, AIndex(part.shape, jdx, k));
  }

  lemma JoinedBTerm(l: Tensor, u: Tensor, idx: seq<nat>, part: Tensor, jdx: seq<nat>, k: nat)
    requires Tensors.Valid(l) && Tensors.Valid(u) && |l.shape| == |u.shape| == |idx| > 2 && l.shape[1..] == u.shape[1..]
    requires if idx[0] < l.shape[0] then part == l && jdx == idx
      else part == u && jdx == idx[0 := idx[0] - l.shape[0]]
    requires InShape(BIndex(idx, k), l.shape[0 := l.shape[0] + u.shape[0]])
    ensures InShape(BIndex(jdx, k), part.shape) && At(Cat(l, u), BIndex(idx, k)) == At(part, BIndex(jdx, k))
  {
    hide At, Prod, Tensors.Valid, AIndex, Cat, InShape;
    assert BIndex(jdx, k) == BIndex(idx, k)[0 := jdx[0]];
    JoinedAt(l, u, BIndex(idx, k), part, BIndex(jdx, k));
  }

  /** A term of the joined pair is a term of the part in which its first index falls. */
  lemma JoinedTerm(
    l: LoraTensor, u: LoraTensor, m: LoraTensor, idx: seq<nat>, part: LoraTensor, jdx: seq<nat>, k: nat)
    requires SameTails(l, u) && Full(l) && Full(u) && m == JoinBatches(l, u) && Sound(m)
    requires InShape(idx, Shape(m)) && k < Rank(m)
    requires if idx[0] < l.b.shape[0] then part == l && jdx == idx
      else part == u && jdx == idx[0 := idx[0] - l.b.shape[0]]
    ensures Sound(part) && |jdx| == Dim(part) && SameTerm(m, idx, part, jdx, k)
  {
    hide At, Prod, Tensors.Valid, BIndex, AIndex, Shape, Cat, ShapesFit, InShape, JoinBatches;
    IndicesFit(m, idx, k);
    JoinedShapes(l, u);
    LeadInside(m, idx);
    JoinedTailLengths(l, u);
    JoinedATerm(l.a, u.a, idx, part.a, jdx, k);
    JoinedBTerm(l.b, u.b, idx, part.b, jdx, k);
  }

  lemma JoinedTailLengths(l: LoraTensor, u: LoraTensor)
    requires SameTails(l, u)
    ensures Tensors.Valid(l.a) && Tensors.Valid(u.a) && Tensors.Valid(l.b) && Tensors.Valid(u.b)
    ensures |l.a.shape| == |u.a.shape| == Dim(l) && JoinBatches(l, u) == LoraTensor(Cat(l.a, u.a), Cat(l.b, u.b))
  {
  }

  lemma LeadInside(m: LoraTensor, idx: seq<nat>)
    requires Sound(m) && Dim(m) > 2 && InShape(idx, Shape(m))
    ensures |idx| == Dim(m) && idx[0] < m.b.shape[0]
  {
    assert Shape(m)[0] == m.b.shape[0];
  }

  lemma JoinedElement(l: LoraTensor, u: LoraTensor, m: LoraTensor, idx: seq<nat>)
    requires SameTails(l, u) && Full(l) && Full(u) && m == JoinBatches(l, u) && Sound(m)
    requires Rank(m) == Rank(l) == Rank(u) && Shape(l)[1..] == Shape(u)[1..] && Shape(l)[0] == l.b.shape[0]
    requires Shape(m) == Cat(Product(l), Product(u)).shape && InShape(idx, Shape(m))
    ensures At(Cat(Product(l), Product(u)), idx) == Element(m, idx)
  {
    hide At, Prod, Tensors.Valid, Element, SameTerm, Shape, Cat, Product, JoinBatches;
    var n := l.b.shape[0];
    CatAt(Product(l), Product(u), idx);
    var part := if idx[0] < n then l else u;
    var jdx := if idx[0] < n then idx else idx[0 := idx[0] - n];
    ProductAt(part, jdx);
    forall k | 0 <= k < Rank(m) ensures SameTerm(m, idx, part, jdx, k) {
      JoinedTerm(l, u, m, idx, part, jdx, k);
    }
    SameElement(m, idx, part, jdx);
  }

  /** The products of pairs that can be joined can be joined, to the shape of the joined pair. */
  lemma ProductsJoin(l: LoraTensor, u: LoraTensor)
    requires SameTails(l, u) && Full(l) && Full(u)
    ensures Sound(l) && Sound(u) && Sound(JoinBatches(l, u))
    ensures Rank(JoinBatches(l, u)) == Rank(l) == Rank(u)
    ensures Shape(l) != [] && Shape(u) != [] && Shape(l)[1..] == Shape(u)[1..] && Shape(l)[0] == l.b.shape[0]
    ensures Product(l).shape == Shape(l) && Product(u).shape == Shape(u)
    ensures Tensors.Valid(Product(l)) && Tensors.Valid(Product(u))
    ensures Cat(Product(l), Product(u)).shape == Shape(JoinBatches(l, u))
    ensures Tensors.Valid(Cat(Product(l), Product(u)))
  {
    hide At, Prod, Tensors.Valid, Element, Shape, Cat, Product, Sound, Full, SameTails, JoinBatches;
    Leads(l, u);
    JoinedShape(l, u);
  }

  lemma Leads(l: LoraTensor, u: LoraTensor)
    requires SameTails(l, u)
    ensures Sound(l) && Sound(u) && Shape(l) != [] && Shape(u) != [] && Shape(u)[0] == u.b.shape[0]
  {
  }

  /** Joining the factors joins the products, where the first axis of A is not repeated. */
  lemma JoinBatchesProduct(l: LoraTensor, u: LoraTensor)
    requires SameTails(l, u) && Full(l) && Full(u)
    ensures Sound(JoinBatches(l, u)) && Shape(l)[1..] == Shape(u)[1..]
    ensures Product(JoinBatches(l, u)) == Cat(Product(l), Product(u))
  {
    hide *;
    Leads(l, u);
    ProductsJoin(l, u);
    var m, w := JoinBatches(l, u), Cat(Product(l), Product(u));
    forall idx | InShape(idx, Shape(m)) ensures At(w, idx) == Element(m, idx) {
      JoinedElement(l, u, m, idx);
    }
    IsProduct(m, w);
  }
}
