/** Operations as they are asked for, and runs of them: what happens to the pair happens to the product. */
module LoraRuns {
  import opened Wrappers
  import opened Tensors
  import opened Lora
  import opened LoraReshape
  import opened LoraSlices
  import opened LoraIndices
  import opened LoraEllipsis
  import opened LoraOps
  import opened LoraStacks
  import opened LoraJoins

  // ---------------------------------------------------------------- splitting and permuting as asked for

  datatype Sizes = Every(n: nat) | These(sizes: seq<nat>)

  function ChunkSizes(total: nat, n: nat): (r: seq<nat>)
    requires n > 0
    ensures Total(r) == total
  {
    if total <= n then [total] else [n] + ChunkSizes(total - n, n)
  }

  /** The sizes of the parts, if the axis can be split so. */
  function SplitSizes(total: nat, sizes: Sizes): (r: Result<seq<nat>, Refusal>)
    ensures r.Ok? ==> Total(r.value) == total
  {
    match sizes
    case Every(n) => if n > 0 then Ok(ChunkSizes(total, n)) else if total == 0 then Ok([0]) else Err(Mismatch)
    case These(list) => if Total(list) == total then Ok(list) else Err(Mismatch)
  }

  function Axes(dims: seq<int>, n: nat): (r: Result<seq<nat>, Refusal>)
    ensures r.Ok? ==> IsPermutation(r.value, n)
  {
    if |dims| == n && forall i | 0 <= i < n :: FromEnd(dims[i], n).Ok? then
      var ds := seq(n, i requires 0 <= i < n => if FromEnd(dims[i], n).Ok? then FromEnd(dims[i], n).value else 0);
      if IsPermutation(ds, n) then Ok(ds) else Err(Mismatch)
    else Err(Mismatch)
  }

  function PermuteLora(l: LoraTensor, dims: seq<int>): Result<LoraTensor, Refusal>
    requires Sound(l)
  {
    var axes := Axes(dims, Dim(l));
    if axes.Err? then Err(Mismatch)
    else if axes.value[Dim(l) - 1] == Dim(l) - 1 then
      if forall d | 0 <= d < Dim(l) - 2 :: l.a.shape[d] == 1 then Ok(PermuteKeepingLast(l, axes.value)) else Err(Mismatch)
    else if Dim(l) == 2 then Ok(Transpose(l))
    else Err(NotImplemented)
  }

  // ---------------------------------------------------------------- runs

  datatype Op =
    | First(slice: Slice)
    | Entry(i: int)
    | Tuple(indices: seq<Index>)
    | Permuting(dims: seq<int>)
    | Reshaping(shape: seq<int>)
    | Part(sizes: Sizes, dim: int, which: nat)
    | Joining(others: seq<LoraTensor>)
    | Stacking(others: seq<LoraTensor>)
    | Scaling(factor: Tensor)

  /**
   * The operation on the pair. What the code refuses is no result, and neither is a pair whose factors no longer
   * fit each other, which stands for nothing.
   */
  function Apply(l: LoraTensor, op: Op): Result<LoraTensor, Refusal>
    requires Sound(l)
  {
    match op
    case First(s) =>
      if !Legal(s) then Err(Mismatch)
      else if Dim(l) == 2 then Ok(SliceRows(l, s))
      else if MissesRepeated(l, s) then Err(Mismatch)
      else Ok(SliceLeading(l, s))
    case Entry(i) => EntryLora(l, i)
    case Tuple(ix) => IndexLora(l, ix)
    case Permuting(dims) => PermuteLora(l, dims)
    case Reshaping(shape) =>
      var r := Resolve(Shape(l), shape);
      if r.Ok? then ReshapeLora(l, r.value) else Err(Mismatch)
    case Part(sizes, dim, which) =>
      var d := FromEnd(dim, Dim(l));
      if !d.Ok? then Err(Mismatch) else
      var list := SplitSizes(Shape(l)[d.value], sizes);
      if list.Ok? && which < |list.value| then Ok(SplitLora(l, d.value, 0, list.value)[which]) else Err(Mismatch)
    case Joining(others) =>
      if Dim(l) > 2 then
        (if AllTails(l, others) && Sound(JoinAllBatches(l, others)) then Ok(JoinAllBatches(l, others)) else Err(Mismatch))
      else if forall i | 0 <= i < |others| :: Sound(others[i]) && others[i].a == l.a then Ok(JoinAll(l, others))
      else Err(NotImplemented)
    case Stacking(others) => if Alike([l] + others) then Ok(StackLora([l] + others)) else Err(Mismatch)
    case Scaling(factor) => if Tensors.Valid(factor) then TimesLora(l, factor) else Err(Mismatch)
  }

  /** The same operation on a dense tensor. */
  function ApplyDense(w: Tensor, op: Op): Result<Tensor, Refusal>
    requires Tensors.Valid(w)
  {
    match op
    case First(s) => if w.shape != [] && Legal(s) then Ok(SliceAxis(w, 0, s)) else Err(Mismatch)
    case Entry(i) => Indexed(w, [Number(i)])
    case Tuple(ix) => DenseIndex(w, ix)
    case Permuting(dims) =>
      var axes := Axes(dims, |w.shape|);
      if axes.Ok? then Ok(Permute(w, axes.value)) else Err(Mismatch)
    case Reshaping(shape) =>
      var r := Resolve(w.shape, shape);
      if r.Ok? && Prod(r.value) == Prod(w.shape) then Ok(Reshape(w, r.value)) else Err(Mismatch)
    case Part(sizes, dim, which) =>
      var d := FromEnd(dim, |w.shape|);
      if !d.Ok? then Err(Mismatch) else
      var list := SplitSizes(w.shape[d.value], sizes);
      if list.Ok? && which < |list.value| then Ok(Split(w, d.value, 0, list.value)[which]) else Err(Mismatch)
    case Joining(others) =>
      if (forall i | 0 <= i < |others| :: Sound(others[i])) && Joinable(w, Products(others)) then Ok(CatAll(w, Products(others)))
      else Err(Mismatch)
    case Stacking(others) =>
      if forall i | 0 <= i < |others| :: Sound(others[i]) && Shape(others[i]) == w.shape
      then Ok(Stack([w] + Products(others), w.shape))
      else Err(Mismatch)
    case Scaling(factor) =>
      if Tensors.Valid(factor) && FitTogether(w.shape, factor.shape) then Ok(Scaled(w, factor)) else Err(Mismatch)
  }

  /**
   The operations that do to the pair something else than to the product: reshaping without elements to count, an index
   tuple that does not read like what it means, and joining pairs whose entries do not stay aligned.
   */
  ghost predicate Misleads(l: LoraTensor, op: Op)
    requires Sound(l)
  {
    match op
    case Reshaping(shape) => Resolve(Shape(l), shape).Ok? && Resizes(l, Resolve(Shape(l), shape).value)
    case Tuple(ix) => !ReadsAlike(l, ix)
    case Joining(others) => Dim(l) > 2 && AllTails(l, others) && !Aligned(l, others) && Tells(l)
    case _ => false
  }

  lemma PermuteCommutes(l: LoraTensor, dims: seq<int>)
    requires Sound(l) && PermuteLora(l, dims).Ok?
    ensures Sound(PermuteLora(l, dims).value)
    ensures ApplyDense(Product(l), Permuting(dims)) == Ok(Product(PermuteLora(l, dims).value))
  {
    hide Prod, Tensors.At, Tensors.Valid, Product, PermuteKeepingLast, Transpose, Permute;
    var axes := Axes(dims, Dim(l)).value;
    if axes[Dim(l) - 1] == Dim(l) - 1 {
      PermuteProduct(l, axes);
    } else {
      TransposeProduct(l);
      assert axes == SWAP;
    }
  }

  lemma PartCommutes(l: LoraTensor, sizes: Sizes, dim: int, which: nat)
    requires Sound(l) && Apply(l, Part(sizes, dim, which)).Ok?
    ensures Sound(Apply(l, Part(sizes, dim, which)).value)
    ensures ApplyDense(Product(l), Part(sizes, dim, which)) == Ok(Product(Apply(l, Part(sizes, dim, which)).value))
  {
    hide Prod, Tensors.At, Tensors.Valid, Product, NarrowLora, Narrow, SplitSizes;
    var d := FromEnd(dim, Dim(l)).value;
    var list := SplitSizes(Shape(l)[d], sizes).value;
    SplitProduct(l, d, 0, list);
    SplitRank(l, d, 0, list, which);
  }

  lemma {:induction false} SplitRank(l: LoraTensor, d: nat, start: nat, sizes: seq<nat>, which: nat)
    requires Sound(l) && d < Dim(l) && start + Total(sizes) <= Shape(l)[d] && which < |sizes|
    ensures Sound(SplitLora(l, d, start, sizes)[which]) && Rank(SplitLora(l, d, start, sizes)[which]) == Rank(l)
    decreases sizes
  {
    hide NarrowLora, Sound, Prod, Shape;
    if which == 0 {
      NarrowSound(l, d, start, sizes[0]);
    } else {
      SplitRank(l, d, start + sizes[0], sizes[1..], which - 1);
    }
  }

  lemma FirstCommutes(l: LoraTensor, s: Slice)
    requires Sound(l) && Apply(l, First(s)).Ok?
    ensures Sound(Apply(l, First(s)).value)
    ensures ApplyDense(Product(l), First(s)) == Ok(Product(Apply(l, First(s)).value))
  {
    hide Prod, Tensors.At, Tensors.Valid, Product, SliceRows, SliceLeading, SliceAxis, MissesRepeated;
    ProductShape(l);
    if Dim(l) == 2 {
      SliceRowsProduct(l, s);
    } else {
      SliceLeadingProduct(l, s);
    }
  }

  lemma ProductShape(l: LoraTensor)
    requires Sound(l)
    ensures Product(l).shape == Shape(l) && |Shape(l)| == Dim(l) > 0
  {
  }

  lemma JoiningCommutes(l: LoraTensor, others: seq<LoraTensor>)
    requires Sound(l) && Apply(l, Joining(others)).Ok?
    ensures Sound(Apply(l, Joining(others)).value)
    ensures !Misleads(l, Joining(others)) ==>
      ApplyDense(Product(l), Joining(others)) == Ok(Product(Apply(l, Joining(others)).value))
  {
    hide Prod, Tensors.At, Tensors.Valid, Product, JoinAll, CatAll, JoinAllBatches, Joinable, Aligned, Tells, AllTails;
    if Dim(l) > 2 {
      ProductsJoinable(l, others);
      if Aligned(l, others) || !Tells(l) { JoinEither(l, others); }
    } else {
      JoinAllProduct(l, others);
    }
  }

  lemma StackCommutes(l: LoraTensor, others: seq<LoraTensor>)
    requires Sound(l) && Apply(l, Stacking(others)).Ok?
    ensures Sound(Apply(l, Stacking(others)).value)
    ensures ApplyDense(Product(l), Stacking(others)) == Ok(Product(Apply(l, Stacking(others)).value))
  {
    hide Prod, Tensors.At, Tensors.Valid, Product, StackLora, Stack, ShapesFit;
    var ls := [l] + others;
    assert ls[0] == l;
    StackSound(ls);
    StackProduct(ls);
    forall i | 0 <= i < |others| ensures Sound(others[i]) && Shape(others[i]) == Shape(l) {
      assert ls[i + 1] == others[i];
      AlikeShapes(ls, i + 1);
    }
    ProductsCons(l, others);
  }

  lemma ReshapeCommutes(l: LoraTensor, shape: seq<int>)
    requires Sound(l) && Apply(l, Reshaping(shape)).Ok?
    ensures Sound(Apply(l, Reshaping(shape)).value)
    ensures !Misleads(l, Reshaping(shape)) ==>
      ApplyDense(Product(l), Reshaping(shape)) == Ok(Product(Apply(l, Reshaping(shape)).value))
  {
    hide Prod, Tensors.At, Tensors.Valid, Product, ReshapeLora, Resizes;
    ProductShape(l);
    ReshapeSound(l, Resolve(Shape(l), shape).value);
    ReshapeProduct(l, Resolve(Shape(l), shape).value);
  }

  /** One operation: if it is done to the pair, it is done to the product, unless it misleads. */
  lemma OpCommutes(l: LoraTensor, op: Op)
    requires Sound(l) && Apply(l, op).Ok?
    ensures Sound(Apply(l, op).value)
    ensures !Misleads(l, op) ==> ApplyDense(Product(l), op) == Ok(Product(Apply(l, op).value))
  {
    hide Prod, Tensors.At, Tensors.Valid, Product, PermuteLora, ReshapeLora, JoinAll, TimesLora, SliceAxis, CatAll;
    hide IndexLora, DenseIndex, Indexed, EntryLora, ReadsAlike;
    match op
    case First(s) => FirstCommutes(l, s);
    case Entry(i) => EntryProduct(l, i);
    case Tuple(ix) => if ReadsAlike(l, ix) { AlikeCommutes(l, ix); }
    case Permuting(dims) => PermuteCommutes(l, dims);
    case Reshaping(shape) => ReshapeCommutes(l, shape);
    case Part(sizes, dim, which) => PartCommutes(l, sizes, dim, which);
    case Joining(others) => JoiningCommutes(l, others);
    case Stacking(others) => StackCommutes(l, others);
    case Scaling(factor) =>
      TimesProduct(l, factor);
      ProductShape(l);
  }

  function Run(l: LoraTensor, ops: seq<Op>): Result<LoraTensor, Refusal>
    requires Sound(l)
    decreases ops
  {
    if ops == [] then Ok(l)
    else
      var r := Apply(l, ops[0]);
      if !r.Ok? then r else (OpCommutes(l, ops[0]); Run(r.value, ops[1..]))
  }

  function RunDense(w: Tensor, ops: seq<Op>): Result<Tensor, Refusal>
    requires Tensors.Valid(w)
    decreases ops
  {
    if ops == [] then Ok(w)
    else
      var r := ApplyDense(w, ops[0]);
      if !r.Ok? then r else (DenseValid(w, ops[0]); RunDense(r.value, ops[1..]))
  }

  lemma DenseValid(w: Tensor, op: Op)
    requires Tensors.Valid(w) && ApplyDense(w, op).Ok?
    ensures Tensors.Valid(ApplyDense(w, op).value)
  {
    hide Prod, Tensors.At;
    if op.Joining? {
      CatAllValid(w, Products(op.others));
    } else if op.Part? {
      var d := FromEnd(op.dim, |w.shape|).value;
      assert Tensors.Valid(Split(w, d, 0, SplitSizes(w.shape[d], op.sizes).value)[op.which]);
    }
  }

  lemma {:induction false} CatAllValid(w: Tensor, others: seq<Tensor>)
    requires Joinable(w, others)
    ensures Tensors.Valid(CatAll(w, others))
    decreases |others|
  {
    hide Tensors.Valid, Joinable, Cat;
    if others == [] {
      CatAllNone(w, others);
      JoinableValid(w, others);
    } else {
      CatAllStep(w, others);
      CatAllValid(Cat(w, others[0]), others[1..]);
    }
  }

  lemma JoinableValid(w: Tensor, others: seq<Tensor>)
    requires Joinable(w, others)
    ensures Tensors.Valid(w)
  {
  }

  /** No operation of a run misleads. */
  ghost predicate NoneMisleads(l: LoraTensor, ops: seq<Op>)
    requires Sound(l) && Run(l, ops).Ok?
    decreases ops
  {
    ops == [] || (!Misleads(l, ops[0]) && (OpCommutes(l, ops[0]); NoneMisleads(Apply(l, ops[0]).value, ops[1..])))
  }

  /** Any run of operations that the code carries out on the pair is the same run on the product, if none misleads. */
  lemma {:induction false} RunCommutes(l: LoraTensor, ops: seq<Op>)
    requires Sound(l) && Run(l, ops).Ok? && NoneMisleads(l, ops)
    ensures Sound(Run(l, ops).value)
    ensures RunDense(Product(l), ops) == Ok(Product(Run(l, ops).value))
    decreases ops
  {
    hide Apply, ApplyDense, Product, Misleads;
    if ops != [] {
      OpCommutes(l, ops[0]);
      RunCommutes(Apply(l, ops[0]).value, ops[1..]);
    }
  }
}
