/** Any number of pairs joined along the first of more than two axes: exactly when this joins their products. */
module LoraJoins {
  import opened Tensors
  import opened Lora
  import opened LoraOps
  import opened LoraStacks

  /** Pairs that differ in their first axes only. */
  predicate AllTails(l: LoraTensor, others: seq<LoraTensor>) {
    && Sound(l) && Dim(l) > 2
    && forall i | 0 <= i < |others| :: SameTails(l, others[i])
  }

  lemma JoinableFactors(l: LoraTensor, others: seq<LoraTensor>)
    requires AllTails(l, others)
    ensures Joinable(l.a, As(others)) && Joinable(l.b, Bs(others))
  {
    hide At, Prod, Tensors.Valid;
    forall i | 0 <= i < |others| ensures SameTails(l, others[i]) {}
  }

  /** Both factors are joined along their first axis. */
  function JoinAllBatches(l: LoraTensor, others: seq<LoraTensor>): LoraTensor
    requires AllTails(l, others)
  {
    JoinableFactors(l, others);
    LoraTensor(CatAll(l.a, As(others)), CatAll(l.b, Bs(others)))
  }

  /** The first axes of all factors together. */
  function LeadA(l: LoraTensor, others: seq<LoraTensor>): nat
    requires AllTails(l, others)
  {
    JoinableFactors(l, others);
    l.a.shape[0] + TotalLead(As(others))
  }

  function LeadB(l: LoraTensor, others: seq<LoraTensor>): nat
    requires AllTails(l, others)
  {
    JoinableFactors(l, others);
    l.b.shape[0] + TotalLead(Bs(others))
  }

  lemma JoinAllShapes(l: LoraTensor, others: seq<LoraTensor>)
    requires AllTails(l, others)
    ensures |l.a.shape| == |l.b.shape| > 2
    ensures var m := JoinAllBatches(l, others);
      && Tensors.Valid(m.a) && m.a.shape == l.a.shape[0 := LeadA(l, others)]
      && Tensors.Valid(m.b) && m.b.shape == l.b.shape[0 := LeadB(l, others)]
  {
    hide At, Prod, Tensors.Valid, CatAll, Joinable, TotalLead;
    JoinableFactors(l, others);
    CatAllShape(l.a, As(others));
    CatAllShape(l.b, Bs(others));
    LeadRepeated(l);
  }

  /** The joined factors fit together exactly when their first axes are equally long, or that of A is one. */
  lemma JoinAllFits(l: LoraTensor, others: seq<LoraTensor>)
    requires AllTails(l, others)
    ensures Sound(JoinAllBatches(l, others)) <==>
      LeadA(l, others) == 1 || LeadA(l, others) == LeadB(l, others)
  {
    hide At, Prod, Tensors.Valid, JoinAllBatches, LeadA, LeadB, AllTails, ShapesFit;
    JoinAllShapes(l, others);
    SoundAndLong(l, others);
    FitsByLead(l.a.shape, l.b.shape, LeadA(l, others), LeadB(l, others));
  }

  lemma SoundAndLong(l: LoraTensor, others: seq<LoraTensor>)
    requires AllTails(l, others)
    ensures Sound(l) && Dim(l) > 2
  {
  }

  lemma FitsByLead(a: seq<nat>, b: seq<nat>, n: nat, m: nat)
    requires ShapesFit(a, b) && |a| > 2
    ensures ShapesFit(a[0 := n], b[0 := m]) <==> n == 1 || n == m
  {
    var c, d := a[0 := n], b[0 := m];
    assert c[0] == n && d[0] == m;
    assert forall i | 0 < i < |a| - 2 :: c[i] == a[i] && d[i] == b[i];
  }

  predicate AllFull(l: LoraTensor, others: seq<LoraTensor>)
    requires AllTails(l, others)
  {
    Full(l) && forall i | 0 <= i < |others| :: SameTails(l, others[i]) && Full(others[i])
  }

  /** Each entry of B keeps its entry of A: no A is repeated, or only one pair has any entries. */
  predicate Aligned(l: LoraTensor, others: seq<LoraTensor>)
    requires AllTails(l, others)
  {
    AllFull(l, others) || LeadA(l, others) == 1
  }

  // ---------------------------------------------------------------- one after the other

  /** Two pairs, of which one has no entries, or neither repeats A. */
  predicate PairAligned(l: LoraTensor, u: LoraTensor)
    requires SameTails(l, u)
  {
    (Full(l) && Full(u)) || l.a.shape[0] + u.a.shape[0] == 1
  }

  lemma EmptyPair(l: LoraTensor)
    requires Sound(l) && Dim(l) > 2 && |l.a.shape| == Dim(l) && l.a.shape[0] == 0
    ensures l.b.shape[0] == 0 && Product(l).shape != [] && Product(l).shape[0] == 0
  {
  }

  lemma PairProduct(l: LoraTensor, u: LoraTensor)
    requires SameTails(l, u) && PairAligned(l, u)
    ensures Sound(JoinBatches(l, u)) && Rank(JoinBatches(l, u)) == Rank(l)
    ensures Product(l).shape != [] && Product(u).shape != [] && Product(l).shape[1..] == Product(u).shape[1..]
    ensures Product(JoinBatches(l, u)) == Cat(Product(l), Product(u))
  {
    hide At, Prod, Tensors.Valid, Cat, Product;
    ProductTails(l, u);
    LeadRepeated(l);
    LeadRepeated(u);
    if Full(l) && Full(u) {
      JoinedShape(l, u);
      JoinBatchesProduct(l, u);
    } else {
      var empty := if l.a.shape[0] == 0 then l else u;
      EmptyPair(empty);
      CatEmpty(l.a, u.a);
      CatEmpty(l.b, u.b);
      CatEmpty(Product(l), Product(u));
      assert JoinBatches(l, u) == if l.a.shape[0] == 0 then u else l;
    }
  }

  lemma ProductTails(l: LoraTensor, u: LoraTensor)
    requires SameTails(l, u)
    ensures Product(l).shape != [] && Product(u).shape != [] && Product(l).shape[1..] == Product(u).shape[1..]
    ensures Rank(l) == Rank(u)
  {
    TailAt(l.a.shape, u.a.shape);
    TailAt(l.b.shape, u.b.shape);
    hide At, Prod, Tensors.Valid;
  }

  lemma TailsOnward(l: LoraTensor, others: seq<LoraTensor>)
    requires AllTails(l, others) && others != [] && Sound(JoinBatches(l, others[0]))
    ensures AllTails(JoinBatches(l, others[0]), others[1..])
    ensures JoinAllBatches(l, others) == JoinAllBatches(JoinBatches(l, others[0]), others[1..])
    ensures LeadA(l, others) == LeadA(JoinBatches(l, others[0]), others[1..])
    ensures LeadB(l, others) == LeadB(JoinBatches(l, others[0]), others[1..])
  {
    hide At, Prod, Tensors.Valid, Cat, Joinable, CatAll;
    var u, rest := others[0], others[1..];
    var m := JoinBatches(l, u);
    JoinedShapes(l, u);
    forall i | 0 <= i < |rest| ensures SameTails(m, rest[i]) {
      assert rest[i] == others[i + 1] && SameTails(l, others[i + 1]);
      TailsPass(l, m, rest[i]);
    }
    assert As(others)[1..] == As(rest) && Bs(others)[1..] == Bs(rest);
    JoinableFactors(l, others);
    CatAllStep(l.a, As(others));
    CatAllStep(l.b, Bs(others));
  }

  lemma TailsPass(l: LoraTensor, m: LoraTensor, u: LoraTensor)
    requires SameTails(l, u) && Sound(m) && |m.a.shape| == |l.a.shape| && |m.b.shape| == |l.b.shape|
    requires m.a.shape == l.a.shape[0 := m.a.shape[0]] && m.b.shape == l.b.shape[0 := m.b.shape[0]]
    ensures SameTails(m, u)
  {
    hide At, Prod, Tensors.Valid;
    assert m.a.shape[1..] == l.a.shape[1..] && m.b.shape[1..] == l.b.shape[1..];
  }

  lemma AlignedOnward(l: LoraTensor, others: seq<LoraTensor>)
    requires AllTails(l, others) && others != [] && Aligned(l, others)
    ensures SameTails(l, others[0]) && PairAligned(l, others[0]) && Sound(JoinBatches(l, others[0]))
    ensures AllTails(JoinBatches(l, others[0]), others[1..]) && Aligned(JoinBatches(l, others[0]), others[1..])
  {
    hide At, Prod, Tensors.Valid, Cat, JoinAllBatches, LeadA, LeadB, JoinBatches, ShapesFit, Sound;
    var u := others[0];
    FirstTail(l, others);
    LeadRepeated(l);
    LeadRepeated(u);
    PairProduct(l, u);
    TailsOnward(l, others);
    if AllFull(l, others) { FullOnward(l, others); }
  }

  lemma FirstTail(l: LoraTensor, others: seq<LoraTensor>)
    requires AllTails(l, others) && others != []
    ensures SameTails(l, others[0]) && |l.a.shape| == |others[0].a.shape| > 2
    ensures l.a.shape[0] + others[0].a.shape[0] <= LeadA(l, others)
  {
    hide At, Prod, Tensors.Valid;
    JoinableFactors(l, others);
  }

  lemma FullOnward(l: LoraTensor, others: seq<LoraTensor>)
    requires AllTails(l, others) && others != [] && AllFull(l, others) && Sound(JoinBatches(l, others[0]))
    requires AllTails(JoinBatches(l, others[0]), others[1..])
    ensures AllFull(JoinBatches(l, others[0]), others[1..])
  {
    hide At, Prod, Tensors.Valid, Cat, JoinBatches, Sound, Full;
    JoinedShape(l, others[0]);
    var rest := others[1..];
    forall i | 0 <= i < |rest| ensures SameTails(JoinBatches(l, others[0]), rest[i]) && Full(rest[i]) {
      assert rest[i] == others[i + 1];
    }
  }

  lemma ProductsJoinable(l: LoraTensor, others: seq<LoraTensor>)
    requires AllTails(l, others)
    ensures Sound(l) && forall i | 0 <= i < |others| :: Sound(others[i])
    ensures Joinable(Product(l), Products(others))
  {
    hide At, Prod, Tensors.Valid, Product, ShapesFit, Sound;
    forall i | 0 <= i < |others|
      ensures Sound(others[i]) && Product(others[i]).shape != [] && Product(others[i]).shape[1..] == Product(l).shape[1..]
    {
      assert SameTails(l, others[i]);
      ProductTails(l, others[i]);
    }
    ProductNotFlat(l);
  }

  lemma ProductNotFlat(l: LoraTensor)
    requires Sound(l)
    ensures Product(l).shape != [] && Tensors.Valid(Product(l))
  {
  }

  /** Joining any number of pairs whose entries stay aligned joins their products. */
  lemma {:induction false} JoinAllBatchesProduct(l: LoraTensor, others: seq<LoraTensor>)
    requires AllTails(l, others) && Aligned(l, others)
    ensures Sound(JoinAllBatches(l, others)) && Rank(JoinAllBatches(l, others)) == Rank(l)
    ensures forall i | 0 <= i < |others| :: Sound(others[i])
    ensures Joinable(Product(l), Products(others))
    ensures Product(JoinAllBatches(l, others)) == CatAll(Product(l), Products(others))
    decreases |others|
  {
    hide At, Prod, Tensors.Valid, Cat, Product, Sound, Joinable, SameTails, AllTails, Aligned, JoinBatches, JoinAllBatches, PairAligned;
    ProductsJoinable(l, others);
    if others != [] {
      AlignedOnward(l, others);
      PairProduct(l, others[0]);
      TailsOnward(l, others);
      JoinAllBatchesProduct(JoinBatches(l, others[0]), others[1..]);
      assert Products(others)[1..] == Products(others[1..]);
      CatAllStep(Product(l), Products(others));
    } else {
      CatAllNone(Product(l), Products(others));
      JoinNone(l);
    }
  }

  lemma JoinNone(l: LoraTensor)
    requires AllTails(l, [])
    ensures Sound(l) && JoinAllBatches(l, []) == l
  {
  }

  // ---------------------------------------------------------------- entries that are not aligned

  predicate SameShapesAll(l: LoraTensor, others: seq<LoraTensor>, l': LoraTensor, others': seq<LoraTensor>) {
    && l'.a.shape == l.a.shape && l'.b.shape == l.b.shape && |others'| == |others|
    && forall i | 0 <= i < |others| :: others'[i].a.shape == others[i].a.shape && others'[i].b.shape == others[i].b.shape
  }

  /** The joined pair stands for the joined products. */
  predicate JoinCommutes(l: LoraTensor, others: seq<LoraTensor>)
    requires AllTails(l, others)
  {
    ProductsJoinable(l, others);
    Sound(JoinAllBatches(l, others)) && Product(JoinAllBatches(l, others)) == CatAll(Product(l), Products(others))
  }

  /** Whatever numbers the factors hold. */
  ghost predicate AlwaysJoins(l: LoraTensor, others: seq<LoraTensor>) {
    forall l', others' | AllTails(l', others') && SameShapesAll(l, others, l', others') :: JoinCommutes(l', others')
  }

  /** A pair whose elements tell the entry of A that they come from, counted from `from` on. */
  function Counted(l: LoraTensor, from: nat): (u: LoraTensor)
    requires Sound(l)
    ensures Sound(u) && u.a.shape == l.a.shape && u.b.shape == l.b.shape
    ensures forall idx | InShape(idx, u.a.shape) :: At(u.a, idx) == CountAt(idx, from)
    ensures forall idx | InShape(idx, u.b.shape) :: At(u.b, idx) == 1.0
  {
    LoraTensor(Build(l.a.shape, idx requires InShape(idx, l.a.shape) => CountAt(idx, from)),
               Build(l.b.shape, idx requires InShape(idx, l.b.shape) => 1.0))
  }

  function CountAt(idx: seq<nat>, from: nat): real {
    if idx == [] then 0.0 else (from + idx[0]) as real
  }

  function AllCounted(ls: seq<LoraTensor>, from: nat): (us: seq<LoraTensor>)
    requires forall i | 0 <= i < |ls| :: Sound(ls[i]) && Dim(ls[i]) > 2
    ensures |us| == |ls| && forall i | 0 <= i < |ls| ::
      Sound(us[i]) && us[i].a.shape == ls[i].a.shape && us[i].b.shape == ls[i].b.shape
  {
    if ls == [] then [] else [Counted(ls[0], from)] + AllCounted(ls[1..], from + LeadOf(ls[0]))
  }

  function LeadOf(l: LoraTensor): nat
    requires Sound(l) && Dim(l) > 2
  {
    l.a.shape[0]
  }

  ghost predicate Counts(t: Tensor)
    requires Tensors.Valid(t)
  {
    forall idx | InShape(idx, t.shape) :: At(t, idx) == CountAt(idx, 0)
  }

  ghost predicate IsOne(t: Tensor)
    requires Tensors.Valid(t)
  {
    forall idx | InShape(idx, t.shape) :: At(t, idx) == 1.0
  }

  lemma CountsMore(t: Tensor, u: LoraTensor)
    requires Tensors.Valid(t) && Sound(u) && t.shape != [] && u.a.shape != [] && t.shape[1..] == u.a.shape[1..] && Counts(t)
    ensures Counts(Cat(t, Counted(u, t.shape[0]).a))
  {
    hide At, Prod, Tensors.Valid, Cat;
    var c := Counted(u, t.shape[0]).a;
    var w := Cat(t, c);
    forall idx | InShape(idx, w.shape) ensures At(w, idx) == CountAt(idx, 0) { CatAt(t, c, idx); }
  }

  lemma OnesMore(t: Tensor, u: Tensor)
    requires Tensors.Valid(t) && Tensors.Valid(u) && t.shape != [] && u.shape != [] && t.shape[1..] == u.shape[1..]
    requires IsOne(t) && IsOne(u)
    ensures IsOne(Cat(t, u))
  {
    hide At, Prod, Tensors.Valid, Cat;
    var w := Cat(t, u);
    forall idx | InShape(idx, w.shape) ensures At(w, idx) == 1.0 { CatAt(t, u, idx); }
  }

  lemma CountedFirst(ls: seq<LoraTensor>, from: nat)
    requires ls != [] && forall i | 0 <= i < |ls| :: Sound(ls[i]) && Dim(ls[i]) > 2
    ensures var us := AllCounted(ls, from);
      && us[0] == Counted(ls[0], from) && us[1..] == AllCounted(ls[1..], from + LeadOf(ls[0]))
      && As(us)[0] == us[0].a && As(us)[1..] == As(us[1..])
  {
    hide Counted;
  }

  /** Counted pairs one after the other count on. */
  lemma {:induction false} CountsAll(x: Tensor, ls: seq<LoraTensor>)
    requires forall i | 0 <= i < |ls| :: Sound(ls[i]) && Dim(ls[i]) > 2
    requires Tensors.Valid(x) && x.shape != [] && Counts(x) && Joinable(x, As(AllCounted(ls, x.shape[0])))
    ensures Tensors.Valid(CatAll(x, As(AllCounted(ls, x.shape[0]))))
    ensures Counts(CatAll(x, As(AllCounted(ls, x.shape[0]))))
    decreases |ls|
  {
    hide At, Prod, Tensors.Valid, Cat, Counts, Counted, AllCounted, As, Joinable;
    var us := AllCounted(ls, x.shape[0]);
    if ls == [] {
      CatAllNone(x, As(us));
    } else {
      CountedFirst(ls, x.shape[0]);
      CatAllStep(x, As(us));
      CountsMore(x, ls[0]);
      CountsAll(Cat(x, us[0].a), ls[1..]);
    }
  }

  lemma {:induction false} OnesAll(x: Tensor, ts: seq<Tensor>)
    requires Joinable(x, ts) && IsOne(x) && forall i | 0 <= i < |ts| :: Tensors.Valid(ts[i]) && IsOne(ts[i])
    ensures Tensors.Valid(CatAll(x, ts)) && IsOne(CatAll(x, ts))
    decreases |ts|
  {
    hide At, Prod, Tensors.Valid, Cat, IsOne, Joinable;
    if ts == [] {
      CatAllNone(x, ts);
      JoinableAlone(x, ts);
    } else {
      CatAllStep(x, ts);
      OnesMore(x, ts[0]);
      OnesAll(Cat(x, ts[0]), ts[1..]);
    }
  }

  lemma JoinableAlone(x: Tensor, ts: seq<Tensor>)
    requires Joinable(x, ts)
    ensures Tensors.Valid(x) && x.shape != []
  {
  }

  lemma CountedOnes(l: LoraTensor, from: nat)
    requires Sound(l)
    ensures IsOne(Counted(l, from).b) && (from == 0 ==> Counts(Counted(l, from).a))
  {
    hide At, Prod;
  }

  /** An element of a counted pair tells the entry of A that it comes from. */
  lemma CountedElement(l: LoraTensor, from: nat, idx: seq<nat>)
    requires Sound(l) && Dim(l) > 2 && InShape(idx, Shape(l))
    ensures |idx| == Dim(l) && |l.a.shape| == Dim(l) && InShape(idx, Shape(Counted(l, from)))
    ensures At(Product(Counted(l, from)), idx)
      == Rank(l) as real * (from + if l.a.shape[0] == 1 then 0 else idx[0]) as real
  {
    hide At, Prod, Tensors.Valid, Counted, Element;
    var u := Counted(l, from);
    ProductAt(u, idx);
    TermsAlike(u, idx, (from + if l.a.shape[0] == 1 then 0 else idx[0]) as real);
  }

  lemma TermsAlike(u: LoraTensor, idx: seq<nat>, x: real)
    requires Sound(u) && InShape(idx, Shape(u))
    requires forall y | InShape(y, u.b.shape) :: At(u.b, y) == 1.0
    requires forall k | 0 <= k < Rank(u) ::
      InShape(AIndex(u.a.shape, idx, k), u.a.shape) ==> At(u.a, AIndex(u.a.shape, idx, k)) == x
    ensures Element(u, idx) == Rank(u) as real * x
  {
    hide At, Prod, Tensors.Valid, AIndex;
    var b, a := BRow(u, idx), AColumn(u, idx);
    forall k | 0 <= k < Rank(u) ensures b[k] * a[k] == x { IndicesFit(u, idx, k); }
    DotOfSame(b, a, x);
  }

  /** The element in a row is n times the number of the row; z says which element of it. */
  predicate ReadsRow(w: Tensor, z: seq<nat>, row: nat, n: nat)
    requires Tensors.Valid(w)
  {
    z != [] && InShape(z[0 := row], w.shape) && At(w, z[0 := row]) == n as real * row as real
  }

  /** An index for all axes but the first. */
  predicate Elsewhere(z: seq<nat>, shape: seq<nat>) {
    |z| == |shape| && z != [] && forall d | 0 < d < |z| :: z[d] < shape[d]
  }

  /** A pair of rank n with more than two axes, counted, can follow a tensor. */
  predicate Follows(w: Tensor, u: LoraTensor, n: nat) {
    && Tensors.Valid(w) && w.shape != [] && Sound(u) && Dim(u) > 2 && |u.a.shape| == Dim(u) && Rank(u) == n > 0
    && Shape(u)[1..] == w.shape[1..]
  }

  lemma PartShape(u: LoraTensor, from: nat)
    requires Sound(u) && Dim(u) > 2
    ensures Product(Counted(u, from)).shape == Shape(u) != [] && Shape(u)[0] == u.b.shape[0]
    ensures Tensors.Valid(Product(Counted(u, from)))
  {
    hide At, Prod, Tensors.Valid, Counted;
  }

  /** A row behind the first tensor is one of the second. */
  lemma SecondRow(w: Tensor, p: Tensor, z: seq<nat>, e: nat)
    requires Tensors.Valid(w) && Tensors.Valid(p) && w.shape != [] && p.shape != [] && p.shape[1..] == w.shape[1..]
    requires |z| == |w.shape| && InShape(z[0 := w.shape[0] + e], Cat(w, p).shape)
    ensures InShape(z[0 := e], p.shape) && At(Cat(w, p), z[0 := w.shape[0] + e]) == At(p, z[0 := e])
  {
    hide At, Prod, Tensors.Valid, Cat;
    var idx := z[0 := w.shape[0] + e];
    CatAt(w, p, idx);
    assert idx[0 := idx[0] - w.shape[0]] == z[0 := e];
  }

  lemma PartReads(w: Tensor, u: LoraTensor, from: nat, z: seq<nat>, e: nat, n: nat)
    requires Follows(w, u, n) && Elsewhere(z, w.shape) && e < u.b.shape[0]
    requires var p := Product(Counted(u, from));
      && p.shape != [] && Tensors.Valid(p) && p.shape[1..] == w.shape[1..] && Tensors.Valid(Cat(w, p))
      && ReadsRow(Cat(w, p), z, w.shape[0] + e, n)
    ensures from + (if u.a.shape[0] == 1 then 0 else e) == w.shape[0] + e
  {
    hide At, Prod, Tensors.Valid, Cat, Product, Counted, Shape, ShapesFit;
    var p := Product(Counted(u, from));
    PartShape(u, from);
    SecondRow(w, p, z, e);
    CountedElement(u, from, z[0 := e]);
    Cancelled(n, from + if u.a.shape[0] == 1 then 0 else e, w.shape[0] + e, At(p, z[0 := e]));
  }

  lemma Cancelled(n: nat, x: nat, y: nat, r: real)
    requires n > 0 && r == n as real * x as real && r == n as real * y as real
    ensures x == y
  {
    assert n as real * (x as real - y as real) == 0.0;
  }

  /** What one counted pair must be if its part of the joined products reads like rows. */
  lemma PartMustBeFull(w: Tensor, u: LoraTensor, from: nat, z: seq<nat>, n: nat)
    requires Follows(w, u, n) && Elsewhere(z, w.shape)
    requires var p := Product(Counted(u, from));
      && p.shape != [] && Tensors.Valid(p) && p.shape[1..] == w.shape[1..] && Tensors.Valid(Cat(w, p))
      && (u.b.shape[0] > 0 ==> ReadsRow(Cat(w, p), z, w.shape[0], n))
      && (u.b.shape[0] > 1 ==> ReadsRow(Cat(w, p), z, w.shape[0] + 1, n))
    ensures u.b.shape[0] > 0 ==> from == w.shape[0] && u.a.shape[0] == u.b.shape[0]
    ensures u.b.shape[0] == 0 ==> u.a.shape[0] <= 1
  {
    hide Cat, Product, Counted, ReadsRow, Tensors.Valid, Elsewhere;
    LeadRepeated(u);
    if u.b.shape[0] > 0 { PartReads(w, u, from, z, 0, n); }
    if u.b.shape[0] > 1 { PartReads(w, u, from, z, 1, n); }
  }

  /** Pairs that can follow a tensor, all of them. */
  predicate AllFollow(w: Tensor, ls: seq<LoraTensor>, n: nat) {
    forall i | 0 <= i < |ls| :: Follows(w, ls[i], n)
  }

  /** Each element with this index in the other axes is n times its first index. */
  predicate ReadsRows(w: Tensor, z: seq<nat>, n: nat)
    requires Tensors.Valid(w) && w.shape != []
  {
    forall row | 0 <= row < w.shape[0] :: ReadsRow(w, z, row, n)
  }

  /** A row of the front of joined tensors is a row of the whole. */
  lemma FrontReads(w: Tensor, others: seq<Tensor>, z: seq<nat>, n: nat, row: nat)
    requires Joinable(w, others) && Tensors.Valid(CatAll(w, others)) && CatAll(w, others).shape != []
    requires ReadsRows(CatAll(w, others), z, n) && Elsewhere(z, w.shape) && row < w.shape[0] && Tensors.Valid(w)
    ensures ReadsRow(w, z, row, n)
  {
    hide At, Prod, Tensors.Valid, CatAll;
    CatAllShape(w, others);
    CatAllFront(w, others, z[0 := row]);
    assert ReadsRow(CatAll(w, others), z, row, n);
  }

  /** Pairs of more than two axes. */
  predicate Longer(ls: seq<LoraTensor>) {
    forall i | 0 <= i < |ls| ::
      Sound(ls[i]) && Dim(ls[i]) > 2 && |ls[i].a.shape| == Dim(ls[i]) && ls[i].a.shape != [] && ls[i].b.shape != []
  }

  /** Counted pairs behind a tensor, joined to a product all rows of which read alike. */
  predicate Reads(w: Tensor, ls: seq<LoraTensor>, from: nat, ws: seq<Tensor>, x: Tensor, z: seq<nat>, n: nat)
    requires Longer(ls)
  {
    && Tensors.Valid(w) && w.shape != [] && w.shape[0] <= from && Elsewhere(z, w.shape)
    && AllFollow(w, ls, n) && ws == Products(AllCounted(ls, from))
    && Joinable(w, ws) && x == CatAll(w, ws) && Tensors.Valid(x) && x.shape != [] && ReadsRows(x, z, n)
  }

  lemma LeadsOnward(ls: seq<LoraTensor>)
    requires Longer(ls) && ls != []
    ensures Longer(ls[1..])
    ensures TotalLead(As(ls)) == ls[0].a.shape[0] + TotalLead(As(ls[1..]))
    ensures TotalLead(Bs(ls)) == ls[0].b.shape[0] + TotalLead(Bs(ls[1..]))
  {
    hide Sound;
    assert As(ls)[1..] == As(ls[1..]) && Bs(ls)[1..] == Bs(ls[1..]);
  }

  lemma ProductsOnward(ls: seq<LoraTensor>, from: nat)
    requires Longer(ls) && ls != []
    ensures var ws := Products(AllCounted(ls, from));
      ws[0] == Product(Counted(ls[0], from)) && ws[1..] == Products(AllCounted(ls[1..], from + ls[0].a.shape[0]))
  {
    hide Counted, Product, AllCounted, Products;
    CountedFirst(ls, from);
    ProductsTail(AllCounted(ls, from));
  }

  lemma ProductsTail(us: seq<LoraTensor>)
    requires us != [] && forall i | 0 <= i < |us| :: Sound(us[i])
    ensures Products(us)[0] == Product(us[0]) && Products(us)[1..] == Products(us[1..])
  {
    hide Product, Sound;
  }

  lemma FollowsOnward(w: Tensor, u: LoraTensor, from: nat, rest: seq<LoraTensor>, z: seq<nat>, n: nat)
    requires Follows(w, u, n) && AllFollow(w, [u] + rest, n) && Elsewhere(z, w.shape)
    ensures var p := Product(Counted(u, from));
      && p.shape != [] && Tensors.Valid(p) && p.shape[1..] == w.shape[1..]
      && Tensors.Valid(Cat(w, p)) && Cat(w, p).shape == w.shape[0 := w.shape[0] + u.b.shape[0]]
      && AllFollow(Cat(w, p), rest, n) && Elsewhere(z, Cat(w, p).shape)
  {
    hide At, Prod, Tensors.Valid, Cat, Product, Counted;
    PartShape(u, from);
    var x := Cat(w, Product(Counted(u, from)));
    forall i | 0 <= i < |rest| ensures Follows(x, rest[i], n) {
      assert ([u] + rest)[i + 1] == rest[i];
    }
  }

  lemma ReadsOnward(w: Tensor, ls: seq<LoraTensor>, from: nat, ws: seq<Tensor>, x: Tensor, z: seq<nat>, n: nat)
    requires Longer(ls) && ls != [] && Longer(ls[1..]) && Reads(w, ls, from, ws, x, z, n)
    ensures ws != [] && Tensors.Valid(ws[0]) && ws[0].shape != [] && ws[0].shape[1..] == w.shape[1..]
    ensures var y, u := Cat(w, ws[0]), ls[0];
      && y.shape == w.shape[0 := w.shape[0] + u.b.shape[0]] && Elsewhere(z, y.shape)
      && (u.b.shape[0] > 0 ==> from == w.shape[0] && u.a.shape[0] == u.b.shape[0])
      && (u.b.shape[0] == 0 ==> u.a.shape[0] <= 1)
      && Reads(y, ls[1..], from + u.a.shape[0], ws[1..], x, z, n)
  {
    hide At, Prod, Tensors.Valid, Cat, Product, Counted, ReadsRow, ReadsRows, CatAll, Joinable, Follows, Elsewhere, AllCounted, Products;
    var u, rest := ls[0], ls[1..];
    assert Follows(w, u, n);
    ProductsOnward(ls, from);
    CatAllStep(w, ws);
    assert ls == [u] + rest;
    FollowsOnward(w, u, from, rest, z, n);
    FrontRows(Cat(w, ws[0]), ws[1..], z, n);
    RowsWithin(w, u, from, z, n);
    PartMustBeFull(w, u, from, z, n);
  }

  lemma FrontRows(w: Tensor, others: seq<Tensor>, z: seq<nat>, n: nat)
    requires Joinable(w, others) && Tensors.Valid(CatAll(w, others)) && CatAll(w, others).shape != []
    requires ReadsRows(CatAll(w, others), z, n) && Elsewhere(z, w.shape) && Tensors.Valid(w) && w.shape != []
    ensures ReadsRows(w, z, n)
  {
    hide At, Prod, Tensors.Valid, CatAll, ReadsRow;
    forall row: nat | row < w.shape[0] ensures ReadsRow(w, z, row, n) { FrontReads(w, others, z, n, row); }
  }

  lemma RowsWithin(w: Tensor, u: LoraTensor, from: nat, z: seq<nat>, n: nat)
    requires Follows(w, u, n)
    requires var p := Product(Counted(u, from));
      && p.shape != [] && Tensors.Valid(p) && p.shape[1..] == w.shape[1..]
      && Tensors.Valid(Cat(w, p)) && Cat(w, p).shape == w.shape[0 := w.shape[0] + u.b.shape[0]]
      && ReadsRows(Cat(w, p), z, n)
    ensures var p := Product(Counted(u, from));
      && (u.b.shape[0] > 0 ==> ReadsRow(Cat(w, p), z, w.shape[0], n))
      && (u.b.shape[0] > 1 ==> ReadsRow(Cat(w, p), z, w.shape[0] + 1, n))
  {
    hide At, Prod, Tensors.Valid, Cat, Product, Counted, ReadsRow;
  }

  /**
   Counted pairs behind a tensor, of which the first is counted from no less than the tensor is long: if all rows of the
   joined products read alike, no A is repeated, unless they are counted to more than there are rows.
   */
  lemma {:induction false} MustBeFull(
    w: Tensor, ls: seq<LoraTensor>, from: nat, ws: seq<Tensor>, x: Tensor, z: seq<nat>, n: nat)
    requires Longer(ls) && Reads(w, ls, from, ws, x, z, n)
    ensures w.shape != [] && w.shape[0] + TotalLead(Bs(ls)) <= from + TotalLead(As(ls))
    ensures w.shape[0] + TotalLead(Bs(ls)) == from + TotalLead(As(ls)) ==>
      from == w.shape[0] && forall i | 0 <= i < |ls| :: ls[i].a.shape[0] == ls[i].b.shape[0]
    decreases |ls|
  {
    hide *;
    ReadsFrom(w, ls, from, ws, x, z, n);
    if ls == [] {
      NoLeads(ls);
    } else {
      LeadsOnward(ls);
      ReadsOnward(w, ls, from, ws, x, z, n);
      MustBeFull(Cat(w, ws[0]), ls[1..], from + ls[0].a.shape[0], ws[1..], x, z, n);
      LeadsOf(ls, 0);
      forall i | 0 < i < |ls|
        ensures ls[i].a.shape != [] && ls[i].b.shape != []
        ensures ls[i] == ls[1..][i - 1]
      {
        LeadsOf(ls, i);
      }
    }
  }

  lemma ReadsFrom(w: Tensor, ls: seq<LoraTensor>, from: nat, ws: seq<Tensor>, x: Tensor, z: seq<nat>, n: nat)
    requires Longer(ls) && Reads(w, ls, from, ws, x, z, n)
    ensures w.shape != [] && w.shape[0] <= from && Tensors.Valid(w)
    ensures forall i | 0 <= i < |ls| :: ls[i].a.shape != [] && ls[i].b.shape != []
    ensures forall i | 0 <= i < |As(ls)| :: As(ls)[i].shape != []
    ensures forall i | 0 <= i < |Bs(ls)| :: Bs(ls)[i].shape != []
  {
  }

  lemma NoLeads(ls: seq<LoraTensor>)
    requires ls == []
    ensures TotalLead(As(ls)) == 0 && TotalLead(Bs(ls)) == 0
  {
  }

  lemma LeadsOf(ls: seq<LoraTensor>, i: nat)
    requires Longer(ls) && i < |ls|
    ensures ls[i].a.shape != [] && ls[i].b.shape != []
    ensures i > 0 ==> ls[i] == ls[1..][i - 1]
  {
  }

  // ---------------------------------------------------------------- exactly when joining joins the products

  lemma TailsLong(l: LoraTensor, others: seq<LoraTensor>)
    requires AllTails(l, others)
    ensures Sound(l) && |l.a.shape| == Dim(l) > 2 && Longer(others)
    ensures forall i | 0 <= i < |others| :: Sound(others[i]) && Dim(others[i]) > 2
  {
    hide At, Prod, Tensors.Valid;
    forall i | 0 <= i < |others|
      ensures Sound(others[i]) && Dim(others[i]) > 2 && |others[i].a.shape| == Dim(others[i])
      ensures others[i].a.shape != [] && others[i].b.shape != []
    {
      assert SameTails(l, others[i]);
    }
  }

  lemma TailsByShape(l: LoraTensor, u: LoraTensor, l': LoraTensor, u': LoraTensor)
    requires SameTails(l, u) && Sound(l') && Sound(u')
    requires l'.a.shape == l.a.shape && l'.b.shape == l.b.shape && u'.a.shape == u.a.shape && u'.b.shape == u.b.shape
    ensures SameTails(l', u')
  {
    hide At, Prod, Tensors.Valid, ShapesFit;
  }

  lemma CountedTails(l: LoraTensor, others: seq<LoraTensor>)
    requires AllTails(l, others)
    ensures Sound(l) && |l.a.shape| == Dim(l) > 2 && Longer(others)
    ensures forall i | 0 <= i < |others| :: Sound(others[i]) && Dim(others[i]) > 2
    ensures AllTails(Counted(l, 0), AllCounted(others, l.a.shape[0]))
    ensures SameShapesAll(l, others, Counted(l, 0), AllCounted(others, l.a.shape[0]))
  {
    hide At, Prod, Tensors.Valid, Counted, AllCounted, Sound, SameTails, Longer;
    TailsLong(l, others);
    var us := AllCounted(others, l.a.shape[0]);
    forall i | 0 <= i < |us| ensures SameTails(Counted(l, 0), us[i]) {
      TailsByShape(l, others[i], Counted(l, 0), us[i]);
    }
  }

  /** The joined counted pair reads its A row by row. */
  lemma JoinedReads(l: LoraTensor, others: seq<LoraTensor>, m: LoraTensor, z: seq<nat>)
    requires AllTails(l, others) && |l.a.shape| > 2 && Longer(others)
    requires AllTails(Counted(l, 0), AllCounted(others, l.a.shape[0]))
    requires m == JoinAllBatches(Counted(l, 0), AllCounted(others, l.a.shape[0])) && Sound(m) && Dim(m) == Dim(l)
    requires LeadA(l, others) != 1 && m.a.shape[0] == LeadA(l, others) && Elsewhere(z, Shape(m))
    ensures ReadsRows(Product(m), z, Rank(m))
  {
    hide At, Prod, Tensors.Valid, Counted, CatAll, Joinable, AllCounted, LeadA, ReadsRow, Element, SameTails;
    var l', others' := Counted(l, 0), AllCounted(others, l.a.shape[0]);
    JoinableFactors(l', others');
    CountedOnes(l, 0);
    CountsAll(l'.a, others);
    AllOnesAt(others, l.a.shape[0]);
    OnesAll(l'.b, Bs(others'));
    forall row: nat | row < Product(m).shape[0] ensures ReadsRow(Product(m), z, row, Rank(m)) {
      RowRead(m, z, row);
    }
  }

  lemma AllOnesAt(ls: seq<LoraTensor>, from: nat)
    requires Longer(ls)
    ensures forall i | 0 <= i < |ls| ::
      Tensors.Valid(Bs(AllCounted(ls, from))[i]) && IsOne(Bs(AllCounted(ls, from))[i])
    decreases |ls|
  {
    hide At, Prod, IsOne, Counted;
    if ls != [] {
      var us := AllCounted(ls, from);
      CountedFirst(ls, from);
      CountedOnes(ls[0], from);
      AllOnesAt(ls[1..], from + LeadOf(ls[0]));
      forall i | 0 <= i < |ls| ensures Tensors.Valid(Bs(us)[i]) && IsOne(Bs(us)[i]) {
        if i > 0 { assert us[i] == us[1..][i - 1] && Bs(us[1..])[i - 1] == us[i].b; }
      }
    }
  }

  lemma RowRead(m: LoraTensor, z: seq<nat>, row: nat)
    requires Sound(m) && Dim(m) > 2 && m.a.shape[0] != 1 && Counts(m.a) && IsOne(m.b)
    requires Elsewhere(z, Shape(m)) && row < Shape(m)[0]
    ensures ReadsRow(Product(m), z, row, Rank(m))
  {
    hide At, Prod, Tensors.Valid, Element;
    var idx := z[0 := row];
    ElsewhereFits(z, Shape(m), row);
    ProductAt(m, idx);
    TermsAlike(m, idx, row as real);
  }

  lemma ElsewhereFits(z: seq<nat>, shape: seq<nat>, e: nat)
    requires Elsewhere(z, shape) && e < shape[0]
    ensures InShape(z[0 := e], shape)
  {
  }

  /** There are elements to tell apart, but for the first axis. */
  predicate Tells(l: LoraTensor)
    requires Sound(l)
  {
    Rank(l) > 0 && forall d | 0 < d < Dim(l) :: Shape(l)[d] > 0
  }

  /** The shapes of joined pairs and of joined products. */
  lemma JoinedTogether(l: LoraTensor, others: seq<LoraTensor>)
    requires AllTails(l, others)
    ensures |l.a.shape| == Dim(l) > 2 && Product(l).shape == Shape(l) && Tensors.Valid(Product(l))
    ensures forall i | 0 <= i < |others| :: Sound(others[i])
    ensures Joinable(Product(l), Products(others)) && Tensors.Valid(CatAll(Product(l), Products(others)))
    ensures CatAll(Product(l), Products(others)).shape == Shape(l)[0 := LeadB(l, others)]
    ensures Sound(JoinAllBatches(l, others)) ==>
      && Dim(JoinAllBatches(l, others)) == Dim(l) && Rank(JoinAllBatches(l, others)) == Rank(l)
      && Shape(JoinAllBatches(l, others)) == Shape(l)[0 := LeadB(l, others)]
  {
    hide At, Prod, Tensors.Valid, CatAll, Product, JoinAllBatches, Joinable;
    ProductsJoinable(l, others);
    CatAllShape(Product(l), Products(others));
    JoinAllShapes(l, others);
    JoinableFactors(l, others);
    forall i | 0 <= i < |others|
      ensures Products(others)[i].shape != [] && Bs(others)[i].shape != []
      ensures Products(others)[i].shape[0] == Bs(others)[i].shape[0]
    {
      assert SameTails(l, others[i]);
      PartLead(others[i]);
    }
    EqualLeads(Products(others), Bs(others));
    PartLead(l);
  }

  lemma PartLead(u: LoraTensor)
    requires Sound(u) && Dim(u) > 2
    ensures Product(u).shape == Shape(u) != [] && u.b.shape != [] && Shape(u)[0] == u.b.shape[0]
  {
  }

  lemma {:induction false} EqualLeads(ts: seq<Tensor>, us: seq<Tensor>)
    requires |ts| == |us|
    requires forall i | 0 <= i < |ts| :: ts[i].shape != [] && us[i].shape != [] && ts[i].shape[0] == us[i].shape[0]
    ensures TotalLead(ts) == TotalLead(us)
    decreases |ts|
  {
    if ts != [] {
      assert forall i | 0 < i < |ts| :: ts[i] == ts[1..][i - 1] && us[i] == us[1..][i - 1];
      EqualLeads(ts[1..], us[1..]);
    }
  }

  lemma ShapesDecide(l: LoraTensor, others: seq<LoraTensor>, l': LoraTensor, others': seq<LoraTensor>)
    requires AllTails(l, others) && AllTails(l', others') && SameShapesAll(l, others, l', others')
    ensures LeadA(l, others) == LeadA(l', others') && LeadB(l, others) == LeadB(l', others')
    ensures Sound(JoinAllBatches(l, others)) <==> Sound(JoinAllBatches(l', others'))
    ensures Aligned(l, others) <==> Aligned(l', others')
    ensures Tells(l) <==> Tells(l')
  {
    hide At, Prod, Tensors.Valid, JoinAllBatches, TotalLead, Joinable;
    JoinableFactors(l, others);
    JoinableFactors(l', others');
    EqualLeads(As(others), As(others'));
    EqualLeads(Bs(others), Bs(others'));
    JoinAllFits(l, others);
    JoinAllFits(l', others');
    assert AllFull(l, others) <==> AllFull(l', others');
    assert Shape(l) == Shape(l');
  }

  /** The first of counted pairs repeats no A either, if its rows read alike. */
  lemma FirstMustBeFull(l: LoraTensor, others: seq<Tensor>, z: seq<nat>)
    requires Sound(l) && Dim(l) > 2 && |l.a.shape| == Dim(l) && Rank(l) > 0 && Elsewhere(z, Shape(l))
    requires Product(Counted(l, 0)).shape == Shape(l) && Joinable(Product(Counted(l, 0)), others)
    requires var x := CatAll(Product(Counted(l, 0)), others); Tensors.Valid(x) && x.shape != [] && ReadsRows(x, z, Rank(l))
    ensures l.b.shape[0] > 0 ==> l.a.shape[0] == l.b.shape[0]
  {
    hide At, Prod, Tensors.Valid, Counted, Product, CatAll, Joinable, ReadsRows;
    LeadRepeated(l);
    PartShape(l, 0);
    if l.b.shape[0] > 1 {
      FrontReads(Product(Counted(l, 0)), others, z, Rank(l), 1);
      ElsewhereFits(z, Shape(l), 1);
      CountedElement(l, 0, z[0 := 1]);
      Cancelled(Rank(l), if l.a.shape[0] == 1 then 0 else 1, 1, At(Product(Counted(l, 0)), z[0 := 1]));
    }
  }

  lemma AllFollowFirst(l: LoraTensor, others: seq<LoraTensor>)
    requires AllTails(l, others) && Rank(l) > 0 && Longer(others)
    requires Product(Counted(l, 0)).shape == Shape(l) && Tensors.Valid(Product(Counted(l, 0)))
    ensures AllFollow(Product(Counted(l, 0)), others, Rank(l))
  {
    hide At, Prod, Tensors.Valid, Counted, Product;
    forall i | 0 <= i < |others| ensures Follows(Product(Counted(l, 0)), others[i], Rank(l)) {
      assert SameTails(l, others[i]);
      SameRank(l, others[i]);
    }
  }

  lemma SameRank(l: LoraTensor, u: LoraTensor)
    requires SameTails(l, u)
    ensures Rank(u) == Rank(l) && Shape(u)[1..] == Shape(l)[1..] && |u.a.shape| == Dim(u) && Shape(l) != []
  {
    TailAt(l.a.shape, u.a.shape);
    TailAt(l.b.shape, u.b.shape);
    hide At, Prod, Tensors.Valid;
  }

  /** Where entries are not aligned although the joined factors fit, counted pairs show it. */
  lemma CountedFails(l: LoraTensor, others: seq<LoraTensor>)
    requires AllTails(l, others) && Sound(JoinAllBatches(l, others)) && !Aligned(l, others) && Tells(l)
    ensures |l.a.shape| == Dim(l) > 2
    ensures forall i | 0 <= i < |others| :: Sound(others[i]) && Dim(others[i]) > 2
    ensures AllTails(Counted(l, 0), AllCounted(others, l.a.shape[0]))
    ensures !JoinCommutes(Counted(l, 0), AllCounted(others, l.a.shape[0]))
  {
    hide At, Prod, Tensors.Valid, Counted, AllCounted, LeadA, AllFull, AllTails, JoinCommutes, JoinAllBatches, Tells, Longer;
    SoundAndLong(l, others);
    CountedTails(l, others);
    if JoinCommutes(Counted(l, 0), AllCounted(others, l.a.shape[0])) {
      CountedJoined(l, others, Counted(l, 0), AllCounted(others, l.a.shape[0]));
    }
  }

  lemma CountedJoined(l: LoraTensor, others: seq<LoraTensor>, l': LoraTensor, others': seq<LoraTensor>)
    requires AllTails(l, others) && Sound(JoinAllBatches(l, others)) && LeadA(l, others) != 1 && Sound(l) && Tells(l)
    requires |l.a.shape| == Dim(l) > 2 && Longer(others)
    requires l' == Counted(l, 0) && others' == AllCounted(others, l.a.shape[0])
    requires AllTails(l', others') && SameShapesAll(l, others, l', others') && JoinCommutes(l', others')
    ensures AllFull(l, others)
  {
    hide At, Prod, Tensors.Valid, CatAll, Joinable, Product, Counted, AllCounted, LeadA, LeadB, JoinAllBatches, AllTails;
    hide ReadsRows, Elsewhere, TotalLead, SameShapesAll, Products, AllFollow, Longer;
    ShapesDecide(l, others, l', others');
    JoinAllFits(l, others);
    JoinAllShapes(l', others');
    JoinedTogether(l', others');
    PartShape(l, 0);
    var z: seq<nat> := seq(Dim(l), d => 0);
    NothingElsewhere(l, z, LeadB(l, others));
    var m, x := JoinAllBatches(l', others'), CatAll(Product(l'), Products(others'));
    JoinedReads(l, others, m, z);
    FirstMustBeFull(l, Products(others'), z);
    AllFollowFirst(l, others);
    LeadsApart(l, others);
    LeadRepeated(l);
    MustBeFull(Product(l'), others, l.a.shape[0], Products(others'), x, z, Rank(l));
    EveryFull(l, others);
  }

  lemma NothingElsewhere(l: LoraTensor, z: seq<nat>, n: nat)
    requires Sound(l) && Tells(l) && Dim(l) > 2 && |z| == Dim(l) && forall d | 0 <= d < |z| :: z[d] == 0
    ensures Elsewhere(z, Shape(l)) && Elsewhere(z, Shape(l)[0 := n])
  {
  }

  lemma LeadsApart(l: LoraTensor, others: seq<LoraTensor>)
    requires AllTails(l, others) && Longer(others)
    ensures |l.a.shape| > 2
    ensures forall i | 0 <= i < |As(others)| :: As(others)[i].shape != []
    ensures forall i | 0 <= i < |Bs(others)| :: Bs(others)[i].shape != []
    ensures LeadA(l, others) == l.a.shape[0] + TotalLead(As(others))
    ensures LeadB(l, others) == l.b.shape[0] + TotalLead(Bs(others))
  {
    hide At, Prod, Tensors.Valid, TotalLead;
  }

  lemma EveryFull(l: LoraTensor, others: seq<LoraTensor>)
    requires AllTails(l, others) && Longer(others) && |l.a.shape| > 2
    requires l.a.shape[0] == l.b.shape[0] && forall i | 0 <= i < |others| :: others[i].a.shape[0] == others[i].b.shape[0]
    ensures AllFull(l, others)
  {
  }

  ghost predicate IsZero(t: Tensor)
    requires Tensors.Valid(t)
  {
    forall idx | InShape(idx, t.shape) :: At(t, idx) == 0.0
  }

  lemma {:induction false} ZerosAll(x: Tensor, ts: seq<Tensor>)
    requires Joinable(x, ts) && Tensors.Valid(x) && IsZero(x)
    requires forall i | 0 <= i < |ts| :: Tensors.Valid(ts[i]) && IsZero(ts[i])
    ensures Tensors.Valid(CatAll(x, ts)) && IsZero(CatAll(x, ts))
    decreases |ts|
  {
    hide At, Prod, Tensors.Valid, Cat, IsZero, Joinable;
    if ts == [] {
      CatAllNone(x, ts);
    } else {
      CatAllStep(x, ts);
      ZerosMore(x, ts[0]);
      ZerosAll(Cat(x, ts[0]), ts[1..]);
    }
  }

  lemma ZerosMore(t: Tensor, u: Tensor)
    requires Tensors.Valid(t) && Tensors.Valid(u) && t.shape != [] && u.shape != [] && t.shape[1..] == u.shape[1..]
    requires IsZero(t) && IsZero(u)
    ensures IsZero(Cat(t, u))
  {
    hide At, Prod, Tensors.Valid, Cat;
    var w := Cat(t, u);
    forall idx | InShape(idx, w.shape) ensures At(w, idx) == 0.0 { CatAt(t, u, idx); }
  }

  lemma NoRank(l: LoraTensor)
    requires Sound(l) && Rank(l) == 0
    ensures IsZero(Product(l))
    ensures forall idx | InShape(idx, Shape(l)) :: Element(l, idx) == 0.0
  {
    hide At, Prod, Tensors.Valid;
    forall idx | InShape(idx, Shape(l)) ensures At(Product(l), idx) == 0.0 && Element(l, idx) == 0.0 { ProductAt(l, idx); }
  }

  /** Without elements to tell apart, joined factors that fit stand for the joined products. */
  lemma NothingToTell(l: LoraTensor, others: seq<LoraTensor>)
    requires AllTails(l, others) && Sound(JoinAllBatches(l, others)) && !Tells(l)
    ensures JoinCommutes(l, others)
  {
    hide At, Prod, Tensors.Valid, Product, CatAll, Joinable, JoinAllBatches, Element, IsZero, LeadB, SameTails, Shape;
    JoinedTogether(l, others);
    var m, w := JoinAllBatches(l, others), CatAll(Product(l), Products(others));
    if Rank(l) == 0 {
      forall i | 0 <= i < |others| ensures Tensors.Valid(Products(others)[i]) && IsZero(Products(others)[i]) {
        assert SameTails(l, others[i]);
        SameRank(l, others[i]);
        NoRank(others[i]);
        PartIsValid(others[i]);
      }
      NoRank(l);
      NoRank(m);
      ZerosAll(Product(l), Products(others));
      ZerosAgree(m, w);
    } else {
      var d :| 0 < d < Dim(l) && Shape(l)[d] == 0;
      NoElements(Shape(m), d);
    }
    IsProduct(m, w);
  }

  lemma NoElements(shape: seq<nat>, d: nat)
    requires d < |shape| && shape[d] == 0
    ensures forall idx :: !InShape(idx, shape)
  {
    assert forall idx | InShape(idx, shape) :: idx[d] < shape[d];
  }

  lemma PartIsValid(u: LoraTensor)
    requires Sound(u)
    ensures Tensors.Valid(Product(u))
  {
  }

  lemma ZerosAgree(m: LoraTensor, w: Tensor)
    requires Sound(m) && Tensors.Valid(w) && w.shape == Shape(m) && IsZero(w)
    requires forall idx | InShape(idx, Shape(m)) :: Element(m, idx) == 0.0
    ensures forall idx | InShape(idx, Shape(m)) :: At(w, idx) == Element(m, idx)
  {
  }

  /**
   Joined factors that fit: for all pairs of these shapes, they stand for the joined products exactly when each entry of
   B keeps its entry of A, or there is nothing to tell apart.
   */
  lemma JoinExactly(l: LoraTensor, others: seq<LoraTensor>)
    requires AllTails(l, others) && Sound(JoinAllBatches(l, others)) && Sound(l)
    ensures AlwaysJoins(l, others) <==> Aligned(l, others) || !Tells(l)
  {
    hide At, Prod, Tensors.Valid, Product, CatAll, Joinable, JoinAllBatches, Aligned, Tells, AllTails, SameShapesAll, JoinCommutes;
    if Aligned(l, others) || !Tells(l) {
      forall l', others' | AllTails(l', others') && SameShapesAll(l, others, l', others') ensures JoinCommutes(l', others') {
        ShapesDecide(l, others, l', others');
        SoundAndLong(l', others');
        JoinEither(l', others');
      }
    } else {
      CountedFails(l, others);
      CountedTails(l, others);
    }
  }

  lemma JoinEither(l: LoraTensor, others: seq<LoraTensor>)
    requires AllTails(l, others) && Sound(JoinAllBatches(l, others)) && Sound(l) && (Aligned(l, others) || !Tells(l))
    ensures JoinCommutes(l, others)
  {
    hide At, Prod, Tensors.Valid, Product, CatAll, Joinable, JoinAllBatches, Aligned, Tells, AllTails;
    if Aligned(l, others) { JoinAllBatchesProduct(l, others); } else { NothingToTell(l, others); }
  }

  // ---------------------------------------------------------------- a joining that goes wrong

  /** A pair of rank one with n entries, all of them x, whose A is repeated. */
  function Constant(n: nat, x: real): (l: LoraTensor)
    ensures Sound(l) && Dim(l) == 3 && l.a.shape == [1, 1, 1] && l.b.shape == [n, 1, 1] && Rank(l) == 1
    ensures IsOne(l.b)
    ensures forall idx | InShape(idx, l.a.shape) :: At(l.a, idx) == x
  {
    LoraTensor(Build([1, 1, 1], idx requires InShape(idx, [1, 1, 1]) => x),
               Build([n, 1, 1], idx requires InShape(idx, [n, 1, 1]) => 1.0))
  }

  lemma ConstantElement(n: nat, x: real)
    requires n > 0
    ensures At(Product(Constant(n, x)), [0, 0, 0]) == x
  {
    hide At, Prod, Tensors.Valid, Constant, Element, Product;
    var l, idx := Constant(n, x), [0, 0, 0];
    TermsAlike(l, idx, x);
    ProductAt(l, idx);
  }

  lemma ConstantTails(x: real, y: real)
    ensures var l, u := Constant(0, x), Constant(2, y);
      && SameTails(l, u) && AllTails(l, [u]) && Sound(JoinBatches(l, u))
      && JoinAllBatches(l, [u]) == JoinBatches(l, u) && Shape(JoinBatches(l, u)) == [2, 1, 1] && Rank(JoinBatches(l, u)) == 1
  {
    hide At, Prod, Tensors.Valid, Constant, JoinBatches, JoinAllBatches;
    var l, u := Constant(0, x), Constant(2, y);
    JoinedFit(l, u);
    JoinedShapes(l, u);
    TailsOnward(l, [u]);
    JoinNone(JoinBatches(l, u));
    assert [u][1..] == [];
  }

  /** The entry that is taken is the first of l, which has none. */
  lemma ConstantJoined(x: real, y: real)
    ensures SameTails(Constant(0, x), Constant(2, y))
    ensures var m := JoinBatches(Constant(0, x), Constant(2, y));
      Sound(m) && Shape(m) == [2, 1, 1] && At(Product(m), [0, 0, 0]) == x
  {
    hide At, Prod, Tensors.Valid, Constant, Element, Product, Cat;
    var l, u, idx := Constant(0, x), Constant(2, y), [0, 0, 0];
    ConstantTails(x, y);
    var m := JoinBatches(l, u);
    JoinedShapes(l, u);
    OnesMore(l.b, u.b);
    forall k | 0 <= k < Rank(m) ensures At(m.a, AIndex(m.a.shape, idx, k)) == x {
      assert AIndex(m.a.shape, idx, k) == idx;
      CatAt(l.a, u.a, idx);
    }
    TermsAlike(m, idx, x);
    ProductAt(m, idx);
  }

  lemma ConstantProducts(l: LoraTensor, u: LoraTensor)
    requires SameTails(l, u) && AllTails(l, [u]) && l.b.shape[0] == 0
    ensures Sound(l) && Sound(u) && Products([u]) == [Product(u)]
    ensures Joinable(Product(l), Products([u])) && CatAll(Product(l), Products([u])) == Product(u)
  {
    hide At, Prod, Tensors.Valid, Element, Product, Cat;
    ProductsJoinable(l, [u]);
    ProductTails(l, u);
    ProductNotFlat(l);
    ProductNotFlat(u);
    PartLead(l);
    CatEmpty(Product(l), Product(u));
    CatAllStep(Product(l), Products([u]));
    CatAllNone(Product(u), Products([u])[1..]);
  }

  /** A pair without entries, whose A holds x, joined with two entries of y: the first of the two comes out as x. */
  lemma JoinedWrong(x: real, y: real) returns (l: LoraTensor, others: seq<LoraTensor>, m: LoraTensor, w: Tensor)
    ensures AllTails(l, others) && m == JoinAllBatches(l, others)
    ensures Sound(m) && Shape(m) == [2, 1, 1] && At(Product(m), [0, 0, 0]) == x
    ensures Sound(l) && forall i | 0 <= i < |others| :: Sound(others[i])
    ensures Joinable(Product(l), Products(others)) && w == CatAll(Product(l), Products(others))
    ensures Tensors.Valid(w) && w.shape == [2, 1, 1] && At(w, [0, 0, 0]) == y
  {
    hide At, Prod, Tensors.Valid, Constant, Element, Product, Cat, JoinBatches, JoinAllBatches, CatAll, Products, Joinable;
    l, others := Constant(0, x), [Constant(2, y)];
    ConstantTails(x, y);
    ConstantJoined(x, y);
    ConstantElement(2, y);
    ConstantProducts(l, others[0]);
    PartLead(others[0]);
    ProductNotFlat(others[0]);
    m, w := JoinAllBatches(l, others), CatAll(Product(l), Products(others));
  }
}
