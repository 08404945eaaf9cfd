/** Splitting, joining and slicing a tensor kept as two factors, and every run of operations on it. */
module LoraOps {
  import opened Tensors
  import opened Lora
  import opened LoraReshape

  // ---------------------------------------------------------------- joining rows

  /** Two matrices with the same A: only the rows of B are joined. */
  function JoinRows(l: LoraTensor, u: LoraTensor): (m: LoraTensor)
    requires Sound(l) && Sound(u) && Dim(l) == 2 && l.a == u.a
    ensures Sound(m) && Dim(m) == 2 && m.a == l.a && Rank(m) == Rank(l)
    ensures Shape(m) == [Shape(l)[0] + Shape(u)[0], Shape(l)[1]]
  {
    SameTail(l, u);
    LoraTensor(l.a, Cat(l.b, u.b))
  }

  lemma SameTail(l: LoraTensor, u: LoraTensor)
    requires Sound(l) && Sound(u) && Dim(l) == 2 && l.a == u.a
    ensures Dim(u) == 2 && l.b.shape[1..] == u.b.shape[1..] && Shape(l)[1..] == Shape(u)[1..]
  {
    hide Prod;
  }

  lemma JoinTerm(l: LoraTensor, u: LoraTensor, m: LoraTensor, i: nat, j: nat, k: nat)
    requires Sound(l) && Sound(u) && Sound(m) && Dim(l) == Dim(u) == Dim(m) == 2 && l.a == u.a && m == JoinRows(l, u)
    requires InShape([i, j], Shape(m)) && k < Rank(m)
    ensures i < Shape(l)[0] ==> SameTerm(m, [i, j], l, [i, j], k)
    ensures i >= Shape(l)[0] ==> SameTerm(m, [i, j], u, [i - Shape(l)[0], j], k)
  {
    hide At, Prod, Tensors.Valid, Cat, BIndex, AIndex;
    SameTail(l, u);
    var rows := Shape(l)[0];
    var idx := [i, j];
    var jdx := if i < rows then [i, j] else [i - rows, j];
    IndicesFit(m, idx, k);
    MatrixIndices(m.a.shape, i, j, k);
    CatAt(l.b, u.b, [i, k]);
    if i < rows {
      IndicesFit(l, jdx, k);
    } else {
      IndicesFit(u, jdx, k);
      MatrixIndices(u.a.shape, i - rows, j, k);
      assert [i, k][0 := i - rows] == [i - rows, k];
    }
  }

  lemma JoinUpper(l: LoraTensor, u: LoraTensor, m: LoraTensor, i: nat, j: nat)
    requires Sound(l) && Sound(u) && Sound(m) && Dim(l) == Dim(u) == Dim(m) == 2 && l.a == u.a && m == JoinRows(l, u)
    requires InShape([i, j], Shape(m)) && InShape([i, j], Shape(l))
    ensures Element(m, [i, j]) == Element(l, [i, j])
  {
    hide At, Prod, Tensors.Valid, SameTerm, Element, BIndex, AIndex;
    forall k | 0 <= k < Rank(m) ensures SameTerm(m, [i, j], l, [i, j], k) {
      JoinTerm(l, u, m, i, j, k);
    }
    SameElement(m, [i, j], l, [i, j]);
  }

  lemma JoinLower(l: LoraTensor, u: LoraTensor, m: LoraTensor, i: nat, j: nat, jdx: seq<nat>)
    requires Sound(l) && Sound(u) && Sound(m) && Dim(l) == Dim(u) == Dim(m) == 2 && l.a == u.a && m == JoinRows(l, u)
    requires InShape([i, j], Shape(m)) && i >= Shape(l)[0] && jdx == [i - Shape(l)[0], j] && InShape(jdx, Shape(u))
    ensures Element(m, [i, j]) == Element(u, jdx)
  {
    hide At, Prod, Tensors.Valid, SameTerm, Element, BIndex, AIndex;
    forall k | 0 <= k < Rank(m) ensures SameTerm(m, [i, j], u, jdx, k) {
      JoinTerm(l, u, m, i, j, k);
    }
    SameElement(m, [i, j], u, jdx);
  }

  lemma JoinAt(l: LoraTensor, u: LoraTensor, m: LoraTensor, i: nat, j: nat)
    requires Sound(l) && Sound(u) && Sound(m) && Dim(l) == Dim(u) == Dim(m) == 2 && l.a == u.a && m == JoinRows(l, u)
    requires Shape(l)[1..] == Shape(u)[1..] && InShape([i, j], Shape(m)) && InShape([i, j], Cat(Product(l), Product(u)).shape)
    ensures At(Cat(Product(l), Product(u)), [i, j]) == Element(m, [i, j])
  {
    hide At, Prod, Tensors.Valid, Element, ShapesFit, Product, Cat;
    CatAt(Product(l), Product(u), [i, j]);
    assert Shape(u)[1] == Shape(u)[1..][0] == Shape(l)[1..][0] == Shape(l)[1];
    if i < Shape(l)[0] {
      ProductAt(l, [i, j]);
      JoinUpper(l, u, m, i, j);
    } else {
      var jdx := [i - Shape(l)[0], j];
      assert [i, j][0 := i - Shape(l)[0]] == jdx;
      ProductAt(u, jdx);
      JoinLower(l, u, m, i, j, jdx);
    }
  }

  lemma JoinShape(l: LoraTensor, u: LoraTensor)
    requires Sound(l) && Sound(u) && Dim(l) == 2 && l.a == u.a
    ensures Shape(l)[1..] == Shape(u)[1..] && Shape(JoinRows(l, u)) == Cat(Product(l), Product(u)).shape
  {
    hide At, Prod, Tensors.Valid, Element, Cat, JoinRows, Product, ShapesFit, Shape, Sound;
    SameTail(l, u);
    RowShape(Shape(l), Shape(u));
  }

  lemma RowShape(a: seq<nat>, b: seq<nat>)
    requires |a| == 2 && b != []
    ensures a[0 := a[0] + b[0]] == [a[0] + b[0], a[1]]
  {
  }

  lemma JoinProductOf(l: LoraTensor, u: LoraTensor, m: LoraTensor, w: Tensor)
    requires Sound(l) && Sound(u) && Sound(m) && Dim(l) == Dim(u) == Dim(m) == 2 && l.a == u.a && m == JoinRows(l, u)
    requires Shape(l)[1..] == Shape(u)[1..] && w == Cat(Product(l), Product(u)) && w.shape == Shape(m)
    ensures Product(m) == w
  {
    hide At, Prod, Tensors.Valid, Element, ShapesFit, JoinRows, Shape, Sound, Cat;
    forall idx | InShape(idx, Shape(m)) ensures At(w, idx) == Element(m, idx) {
      assert idx == [idx[0], idx[1]];
      JoinAt(l, u, m, idx[0], idx[1]);
    }
    IsProduct(m, w);
  }

  /** Joining the rows of B joins the rows of the products. */
  lemma JoinProduct(l: LoraTensor, u: LoraTensor)
    requires Sound(l) && Sound(u) && Dim(l) == 2 && l.a == u.a
    ensures Shape(l)[1..] == Shape(u)[1..]
    ensures Product(JoinRows(l, u)) == Cat(Product(l), Product(u))
  {
    JoinShape(l, u);
    SameTail(l, u);
    hide At, Prod, Tensors.Valid, Element, ShapesFit, JoinRows, Shape, Sound, Cat;
    JoinProductOf(l, u, JoinRows(l, u), Cat(Product(l), Product(u)));
  }

  function JoinAll(l: LoraTensor, others: seq<LoraTensor>): (m: LoraTensor)
    requires Sound(l) && Dim(l) == 2 && forall i | 0 <= i < |others| :: Sound(others[i]) && others[i].a == l.a
    ensures Sound(m) && Dim(m) == 2 && m.a == l.a && Rank(m) == Rank(l)
    decreases |others|
  {
    if others == [] then l else JoinAll(JoinRows(l, others[0]), others[1..])
  }

  predicate Joinable(w: Tensor, others: seq<Tensor>) {
    && Tensors.Valid(w) && w.shape != []
    && forall i | 0 <= i < |others| :: Tensors.Valid(others[i]) && others[i].shape != [] && others[i].shape[1..] == w.shape[1..]
  }

  function CatAll(w: Tensor, others: seq<Tensor>): Tensor
    requires Joinable(w, others)
    decreases |others|
  {
    if others == [] then w
    else
      assert Cat(w, others[0]).shape[1..] == w.shape[1..];
      CatAll(Cat(w, others[0]), others[1..])
  }

  /** The length of the first axes together. */
  function TotalLead(ts: seq<Tensor>): nat
    requires forall i | 0 <= i < |ts| :: ts[i].shape != []
  {
    if ts == [] then 0 else ts[0].shape[0] + TotalLead(ts[1..])
  }

  lemma {:induction false} CatAllShape(w: Tensor, others: seq<Tensor>)
    requires Joinable(w, others)
    ensures Tensors.Valid(CatAll(w, others)) && CatAll(w, others).shape == w.shape[0 := w.shape[0] + TotalLead(others)]
    decreases |others|
  {
    hide Tensors.Valid, Cat;
    if others != [] {
      CatAllStep(w, others);
      CatAllShape(Cat(w, others[0]), others[1..]);
    }
  }

  /** The elements of the first tensor stay where they are. */
  lemma {:induction false} CatAllFront(w: Tensor, others: seq<Tensor>, idx: seq<nat>)
    requires Joinable(w, others) && InShape(idx, w.shape)
    ensures Tensors.Valid(CatAll(w, others)) && InShape(idx, CatAll(w, others).shape)
    ensures At(CatAll(w, others), idx) == At(w, idx)
    decreases |others|
  {
    hide Tensors.Valid, Cat, At, Prod;
    CatAllShape(w, others);
    if others != [] {
      CatAllStep(w, others);
      CatAt(w, others[0], idx);
      CatAllFront(Cat(w, others[0]), others[1..], idx);
    }
  }

  lemma CatEmpty(t: Tensor, u: Tensor)
    requires Tensors.Valid(t) && Tensors.Valid(u) && t.shape != [] && u.shape != [] && t.shape[1..] == u.shape[1..]
    ensures u.shape[0] == 0 ==> Cat(t, u) == t
    ensures t.shape[0] == 0 ==> Cat(t, u) == u
  {
    hide At, Prod, Cat, Tensors.Valid;
    var w := Cat(t, u);
    TailAt(t.shape, u.shape);
    if u.shape[0] == 0 {
      assert w.shape == t.shape;
      forall idx | InShape(idx, w.shape) ensures At(w, idx) == At(t, idx) { CatAt(t, u, idx); }
      SameTensor(w, t);
    }
    if t.shape[0] == 0 {
      assert w.shape == u.shape;
      forall idx | InShape(idx, w.shape) ensures At(w, idx) == At(u, idx) {
        CatAt(t, u, idx);
        assert idx[0 := idx[0] - 0] == idx;
      }
      SameTensor(w, u);
    }
  }

  function Products(ls: seq<LoraTensor>): (ws: seq<Tensor>)
    requires forall i | 0 <= i < |ls| :: Sound(ls[i])
    ensures |ws| == |ls| && forall i | 0 <= i < |ls| :: ws[i] == Product(ls[i])
  {
    seq(|ls|, i requires 0 <= i < |ls| => Product(ls[i]))
  }

  lemma {:induction false} JoinAllProduct(l: LoraTensor, others: seq<LoraTensor>)
    requires Sound(l) && Dim(l) == 2 && forall i | 0 <= i < |others| :: Sound(others[i]) && others[i].a == l.a
    ensures Joinable(Product(l), Products(others))
    ensures Product(JoinAll(l, others)) == CatAll(Product(l), Products(others))
    decreases |others|
  {
    hide JoinRows, Cat, Product, Sound, Shape, Tensors.Valid, Joinable;
    JoinableProducts(l, others);
    if others != [] {
      JoinProduct(l, others[0]);
      JoinAllProduct(JoinRows(l, others[0]), others[1..]);
      assert Products(others)[1..] == Products(others[1..]);
      CatAllStep(Product(l), Products(others));
    } else {
      CatAllNone(Product(l), Products(others));
    }
  }

  lemma CatAllStep(w: Tensor, others: seq<Tensor>)
    requires Joinable(w, others) && others != []
    ensures w.shape != [] && others[0].shape != [] && Tensors.Valid(w) && Tensors.Valid(others[0]) && others[0].shape[1..] == w.shape[1..]
    ensures Joinable(Cat(w, others[0]), others[1..])
    ensures CatAll(w, others) == CatAll(Cat(w, others[0]), others[1..])
  {
    assert Cat(w, others[0]).shape[1..] == w.shape[1..];
  }

  lemma CatAllNone(w: Tensor, others: seq<Tensor>)
    requires Joinable(w, others) && others == []
    ensures CatAll(w, others) == w
  {
  }

  lemma JoinableProducts(l: LoraTensor, others: seq<LoraTensor>)
    requires Sound(l) && Dim(l) == 2 && forall i | 0 <= i < |others| :: Sound(others[i]) && others[i].a == l.a
    ensures Joinable(Product(l), Products(others))
  {
    forall i | 0 <= i < |others| ensures Shape(others[i])[1..] == Shape(l)[1..] {
      SameTail(l, others[i]);
    }
  }

  // ---------------------------------------------------------------- splitting an axis

  lemma ProductsCons(l: LoraTensor, ls: seq<LoraTensor>)
    requires Sound(l) && forall i | 0 <= i < |ls| :: Sound(ls[i])
    ensures forall i | 0 <= i < |[l] + ls| :: Sound(([l] + ls)[i])
    ensures Products([l] + ls) == [Product(l)] + Products(ls)
  {
    hide Sound, Product;
  }

  function SplitLora(l: LoraTensor, d: nat, start: nat, sizes: seq<nat>): (r: seq<LoraTensor>)
    requires Sound(l) && d < Dim(l) && start + Total(sizes) <= Shape(l)[d]
    ensures |r| == |sizes|
    decreases sizes
  {
    if sizes == [] then [] else [NarrowLora(l, d, start, sizes[0])] + SplitLora(l, d, start + sizes[0], sizes[1..])
  }

  /** Splitting any axis of the pair splits the product. */
  lemma {:induction false} SplitProduct(l: LoraTensor, d: nat, start: nat, sizes: seq<nat>)
    requires Sound(l) && d < Dim(l) && start + Total(sizes) <= Shape(l)[d]
    ensures forall i | 0 <= i < |sizes| :: Sound(SplitLora(l, d, start, sizes)[i])
    ensures Products(SplitLora(l, d, start, sizes)) == Split(Product(l), d, start, sizes)
    decreases sizes
  {
    hide NarrowLora, Narrow, Sound, Prod, Shape, Product, Tensors.Valid;
    if sizes != [] {
      NarrowProduct(l, d, start, sizes[0]);
      SplitProduct(l, d, start + sizes[0], sizes[1..]);
      var whole, rest := SplitLora(l, d, start, sizes), SplitLora(l, d, start + sizes[0], sizes[1..]);
      var first := NarrowLora(l, d, start, sizes[0]);
      assert whole == [first] + rest;
      ProductsCons(first, rest);
    }
  }

  lemma CatOfParts(b: Tensor, start: nat, n: nat, k: nat)
    requires Tensors.Valid(b) && b.shape != [] && start + n + k <= b.shape[0]
    ensures Narrow(b, 0, start, n).shape[1..] == Narrow(b, 0, start + n, k).shape[1..]
    ensures Cat(Narrow(b, 0, start, n), Narrow(b, 0, start + n, k)) == Narrow(b, 0, start, n + k)
  {
    hide At, Prod, Narrow, Cat;
    var x, y := Narrow(b, 0, start, n), Narrow(b, 0, start + n, k);
    assert x.shape[1..] == b.shape[1..] == y.shape[1..];
    var w := Narrow(b, 0, start, n + k);
    forall idx | InShape(idx, w.shape) ensures At(Cat(x, y), idx) == At(w, idx) {
      CatAt(x, y, idx);
      NarrowAt(b, 0, start, n + k, idx);
      if idx[0] < n {
        NarrowAt(b, 0, start, n, idx);
      } else {
        var jdx := idx[0 := idx[0] - n];
        NarrowAt(b, 0, start + n, k, jdx);
        assert jdx[0 := jdx[0] + (start + n)] == idx[0 := idx[0] + start];
      }
    }
    SameTensor(Cat(x, y), w);
  }

  lemma WholeAxis(t: Tensor, d: nat)
    requires Tensors.Valid(t) && d < |t.shape|
    ensures Narrow(t, d, 0, t.shape[d]) == t
  {
    hide At, Prod, Narrow;
    assert t.shape[d := t.shape[d]] == t.shape;
    forall idx | InShape(idx, t.shape) ensures At(Narrow(t, d, 0, t.shape[d]), idx) == At(t, idx) {
      NarrowAt(t, d, 0, t.shape[d], idx);
      assert idx[d := idx[d] + 0] == idx;
    }
    SameTensor(Narrow(t, d, 0, t.shape[d]), t);
  }

  lemma JoinParts(l: LoraTensor, start: nat, n: nat, k: nat)
    requires Sound(l) && Dim(l) == 2 && start + n + k <= Shape(l)[0]
    ensures var x, y := NarrowLora(l, 0, start, n), NarrowLora(l, 0, start + n, k);
            && Sound(x) && Sound(y) && Dim(x) == Dim(y) == 2 && x.a == y.a == l.a
            && JoinRows(x, y) == NarrowLora(l, 0, start, n + k)
  {
    NarrowSound(l, 0, start, n);
    NarrowSound(l, 0, start + n, k);
    CatOfParts(l.b, start, n, k);
    hide At, Prod, Tensors.Valid, Narrow, Cat, Shape, ShapesFit;
  }

  lemma {:induction false} JoinRest(l: LoraTensor, start: nat, n: nat, sizes: seq<nat>)
    requires Sound(l) && Dim(l) == 2 && start + n + Total(sizes) <= Shape(l)[0]
    ensures var first, rest := NarrowLora(l, 0, start, n), SplitLora(l, 0, start + n, sizes);
            && (forall i | 0 <= i < |rest| :: Sound(rest[i]) && rest[i].a == l.a && Dim(rest[i]) == 2)
            && Sound(first) && first.a == l.a && Dim(first) == 2
            && JoinAll(first, rest) == NarrowLora(l, 0, start, n + Total(sizes))
    decreases sizes
  {
    hide NarrowLora, JoinRows, Sound, Shape, SplitLora, JoinAll;
    var first := NarrowLora(l, 0, start, n);
    if sizes == [] {
      JoinParts(l, start, n, 0);
      SplitNothing(l, start + n);
      JoinNothing(first);
    } else {
      var k := sizes[0];
      JoinParts(l, start, n, k);
      JoinRest(l, start, n + k, sizes[1..]);
      SplitCons(l, start + n, sizes);
      JoinCons(first, NarrowLora(l, 0, start + n, k), SplitLora(l, 0, start + n + k, sizes[1..]));
    }
  }

  lemma SplitNothing(l: LoraTensor, start: nat)
    requires Sound(l) && Dim(l) == 2 && start <= Shape(l)[0]
    ensures SplitLora(l, 0, start, []) == []
  {
  }

  lemma SplitCons(l: LoraTensor, start: nat, sizes: seq<nat>)
    requires Sound(l) && Dim(l) == 2 && sizes != [] && start + Total(sizes) <= Shape(l)[0]
    ensures SplitLora(l, 0, start, sizes)
      == [NarrowLora(l, 0, start, sizes[0])] + SplitLora(l, 0, start + sizes[0], sizes[1..])
  {
    hide NarrowLora, Sound, Shape;
  }

  lemma JoinNothing(l: LoraTensor)
    requires Sound(l) && Dim(l) == 2
    ensures JoinAll(l, []) == l
  {
  }

  lemma JoinCons(l: LoraTensor, u: LoraTensor, others: seq<LoraTensor>)
    requires Sound(l) && Dim(l) == 2 && Sound(u) && u.a == l.a
    requires forall i | 0 <= i < |others| :: Sound(others[i]) && others[i].a == l.a
    ensures forall i | 0 <= i < |[u] + others| :: Sound(([u] + others)[i]) && ([u] + others)[i].a == l.a
    ensures JoinAll(l, [u] + others) == JoinAll(JoinRows(l, u), others)
  {
    hide JoinRows, Sound;
    assert ([u] + others)[1..] == others;
  }

  /** Matrices with one and the same A. */
  predicate OneA(l: LoraTensor, parts: seq<LoraTensor>) {
    forall i | 0 <= i < |parts| :: Sound(parts[i]) && parts[i].a == l.a && Dim(parts[i]) == 2
  }

  /** Splitting the rows of a matrix and joining the parts gives the pair back. */
  lemma SplitThenJoin(l: LoraTensor, sizes: seq<nat>)
    requires Sound(l) && Dim(l) == 2 && sizes != [] && Total(sizes) == Shape(l)[0]
    ensures OneA(l, SplitLora(l, 0, 0, sizes))
    ensures JoinAll(SplitLora(l, 0, 0, sizes)[0], SplitLora(l, 0, 0, sizes)[1..]) == l
  {
    hide NarrowLora, JoinAll, Sound, Shape, SplitLora;
    SplitFirst(l, sizes);
    JoinRest(l, 0, sizes[0], sizes[1..]);
    WholePair(l);
    var parts := SplitLora(l, 0, 0, sizes);
    assert OneA(l, parts) by {
      forall i | 0 <= i < |parts| ensures Sound(parts[i]) && parts[i].a == l.a && Dim(parts[i]) == 2 {
        if i > 0 { assert parts[i] == parts[1..][i - 1]; }
      }
    }
  }

  lemma WholePair(l: LoraTensor)
    requires Sound(l) && Dim(l) == 2
    ensures NarrowLora(l, 0, 0, Shape(l)[0]) == l
  {
    hide At, Prod, Tensors.Valid, Narrow;
    WholeAxis(l.b, 0);
  }

  lemma SplitFirst(l: LoraTensor, sizes: seq<nat>)
    requires Sound(l) && Dim(l) == 2 && sizes != [] && Total(sizes) == Shape(l)[0]
    ensures Total(sizes) == sizes[0] + Total(sizes[1..])
    ensures SplitLora(l, 0, 0, sizes)[0] == NarrowLora(l, 0, 0, sizes[0])
    ensures SplitLora(l, 0, 0, sizes)[1..] == SplitLora(l, 0, sizes[0], sizes[1..])
  {
    hide NarrowLora;
  }
}
