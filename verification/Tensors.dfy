/** Dense tensors over exact reals, stored row by row, and the operations on their shape. */
module Tensors {

  datatype Tensor = Tensor(shape: seq<nat>, data: seq<real>)

  function Prod(shape: seq<nat>): nat {
    if shape == [] then 1 else Prod(shape[..|shape| - 1]) * shape[|shape| - 1]
  }

  predicate Valid(t: Tensor) {
    |t.data| == Prod(t.shape)
  }

  predicate InShape(idx: seq<nat>, shape: seq<nat>) {
    |idx| == |shape| && forall d | 0 <= d < |shape| :: idx[d] < shape[d]
  }

  lemma RowEnd(q: nat, i: nat, rows: nat, n: nat)
    requires q < rows && i < n
    ensures q * n + i < rows * n
  {
    assert (q + 1) * n <= rows * n;
  }

  lemma RowOf(q: nat, i: nat, n: nat)
    requires i < n
    ensures (q * n + i) / n == q && (q * n + i) % n == i
  {
    var o := q * n + i;
    assert (o / n - q) * n == i - o % n;
    MultipleInside(o / n - q, n);
  }

  lemma MultipleInside(x: int, n: int)
    requires n > 0
    ensures -n < x * n < n ==> x == 0
  {
    assert x >= 1 ==> x * n >= n;
    assert x <= -1 ==> x * n <= -n;
  }

  /** Where an element is stored: the last index moves fastest. */
  function Ravel(shape: seq<nat>, idx: seq<nat>): (o: nat)
    requires InShape(idx, shape)
    ensures o < Prod(shape)
  {
    if shape == [] then 0
    else
      var m := |shape| - 1;
      var q := Ravel(shape[..m], idx[..m]);
      RowEnd(q, idx[m], Prod(shape[..m]), shape[m]);
      q * shape[m] + idx[m]
  }

  lemma RowOfOffset(o: nat, rows: nat, n: nat)
    requires o < rows * n
    ensures n > 0 && o / n < rows && o % n < n && o == o / n * n + o % n
  {
  }

  /** Which element is stored at a place. */
  function Unravel(shape: seq<nat>, o: nat): (idx: seq<nat>)
    requires o < Prod(shape)
    ensures InShape(idx, shape) && Ravel(shape, idx) == o
  {
    if shape == [] then []
    else
      var m := |shape| - 1;
      RowOfOffset(o, Prod(shape[..m]), shape[m]);
      var front := Unravel(shape[..m], o / shape[m]);
      assert (front + [o % shape[m]])[..m] == front;
      front + [o % shape[m]]
  }

  lemma {:induction false} UnravelRavel(shape: seq<nat>, idx: seq<nat>)
    requires InShape(idx, shape)
    ensures Unravel(shape, Ravel(shape, idx)) == idx
  {
    if shape != [] {
      var m := |shape| - 1;
      UnravelRavel(shape[..m], idx[..m]);
      RowOf(Ravel(shape[..m], idx[..m]), idx[m], shape[m]);
      assert idx == idx[..m] + [idx[m]];
    }
  }

  function At(t: Tensor, idx: seq<nat>): real
    requires Valid(t) && InShape(idx, t.shape)
  {
    t.data[Ravel(t.shape, idx)]
  }

  /** The tensor with these elements. */
  function Build(shape: seq<nat>, f: seq<nat> --> real): (t: Tensor)
    requires forall idx | InShape(idx, shape) :: f.requires(idx)
    ensures Valid(t) && t.shape == shape
    ensures forall idx | InShape(idx, shape) :: At(t, idx) == f(idx)
  {
    var t := Tensor(shape, seq(Prod(shape), (o: nat) requires o < Prod(shape) && f.requires(Unravel(shape, o)) => f(Unravel(shape, o))));
    assert forall idx | InShape(idx, shape) :: At(t, idx) == f(idx) by {
      forall idx | InShape(idx, shape) ensures At(t, idx) == f(idx) {
        UnravelRavel(shape, idx);
      }
    }
    t
  }

  /** Tensors of one shape with the same elements are the same. */
  lemma SameTensor(t: Tensor, u: Tensor)
    requires Valid(t) && Valid(u) && t.shape == u.shape
    requires forall idx | InShape(idx, t.shape) :: At(t, idx) == At(u, idx)
    ensures t == u
  {
    forall o | 0 <= o < |t.data| ensures t.data[o] == u.data[o] {
      assert At(t, Unravel(t.shape, o)) == At(u, Unravel(t.shape, o));
    }
  }

  // ---------------------------------------------------------------- operations on the shape

  /** The entries of one axis that are listed, in that order. */
  function Take(t: Tensor, d: nat, rows: seq<nat>): (r: Tensor)
    requires Valid(t) && d < |t.shape| && forall i | 0 <= i < |rows| :: rows[i] < t.shape[d]
    ensures Valid(r) && r.shape == t.shape[d := |rows|]
  {
    Build(t.shape[d := |rows|],
          (idx: seq<nat>) requires InShape(idx, t.shape[d := |rows|]) => At(t, idx[d := rows[idx[d]]]))
  }

  lemma TakeAt(t: Tensor, d: nat, rows: seq<nat>, idx: seq<nat>)
    requires Valid(t) && d < |t.shape| && forall i | 0 <= i < |rows| :: rows[i] < t.shape[d]
    requires InShape(idx, t.shape[d := |rows|])
    ensures |idx| == |t.shape| && idx[d] < |rows| && InShape(idx[d := rows[idx[d]]], t.shape)
    ensures At(Take(t, d, rows), idx) == At(t, idx[d := rows[idx[d]]])
  {
    hide At, Prod;
  }

  function Range(start: nat, len: nat): (r: seq<nat>)
    ensures |r| == len && forall i | 0 <= i < len :: r[i] == start + i
  {
    seq(len, i requires 0 <= i => start + i)
  }

  /** Part of one axis. */
  function Narrow(t: Tensor, d: nat, start: nat, len: nat): (r: Tensor)
    requires Valid(t) && d < |t.shape| && start + len <= t.shape[d]
    ensures Valid(r) && r.shape == t.shape[d := len]
  {
    Take(t, d, Range(start, len))
  }

  lemma NarrowAt(t: Tensor, d: nat, start: nat, len: nat, idx: seq<nat>)
    requires Valid(t) && d < |t.shape| && start + len <= t.shape[d] && InShape(idx, t.shape[d := len])
    ensures InShape(idx[d := idx[d] + start], t.shape)
    ensures At(Narrow(t, d, start, len), idx) == At(t, idx[d := idx[d] + start])
  {
    hide At, Prod, Take;
    TakeAt(t, d, Range(start, len), idx);
  }

  /** Every axis is named exactly once. */
  predicate IsPermutation(dims: seq<nat>, n: nat) {
    && |dims| == n
    && (forall i | 0 <= i < n :: dims[i] < n)
    && (forall i, j | 0 <= i < j < n :: dims[i] != dims[j])
    && (forall d | 0 <= d < n :: d in dims)
  }

  function Find(dims: seq<nat>, d: nat): (i: nat)
    requires d in dims
    ensures i < |dims| && dims[i] == d
  {
    if dims[0] == d then 0 else 1 + Find(dims[1..], d)
  }

  function Permuted(shape: seq<nat>, dims: seq<nat>): (r: seq<nat>)
    requires IsPermutation(dims, |shape|)
    ensures |r| == |shape| && forall i | 0 <= i < |shape| :: r[i] == shape[dims[i]]
  {
    seq(|shape|, i requires 0 <= i < |shape| => shape[dims[i]])
  }

  /** The index before the permutation: its entry for axis `dims[i]` is entry `i` of the index after it. */
  function Unpermuted(idx: seq<nat>, dims: seq<nat>): (r: seq<nat>)
    requires IsPermutation(dims, |idx|)
    ensures |r| == |idx| && forall i | 0 <= i < |idx| :: r[dims[i]] == idx[i]
  {
    var r := seq(|idx|, d requires 0 <= d < |idx| => idx[Find(dims, d)]);
    assert forall i | 0 <= i < |idx| :: r[dims[i]] == idx[i] by {
      forall i | 0 <= i < |idx| ensures r[dims[i]] == idx[i] {
        assert Find(dims, dims[i]) == i;
      }
    }
    r
  }

  lemma UnpermutedInShape(idx: seq<nat>, shape: seq<nat>, dims: seq<nat>)
    requires IsPermutation(dims, |shape|) && InShape(idx, Permuted(shape, dims))
    ensures InShape(Unpermuted(idx, dims), shape)
  {
    var r := Unpermuted(idx, dims);
    forall d | 0 <= d < |shape| ensures r[d] < shape[d] {
      var i := Find(dims, d);
      assert r[dims[i]] == idx[i] < Permuted(shape, dims)[i];
    }
  }

  function Permute(t: Tensor, dims: seq<nat>): (r: Tensor)
    requires Valid(t) && IsPermutation(dims, |t.shape|)
    ensures Valid(r) && r.shape == Permuted(t.shape, dims)
  {
    assert forall idx | InShape(idx, Permuted(t.shape, dims)) :: InShape(Unpermuted(idx, dims), t.shape) by {
      forall idx | InShape(idx, Permuted(t.shape, dims)) ensures InShape(Unpermuted(idx, dims), t.shape) {
        UnpermutedInShape(idx, t.shape, dims);
      }
    }
    Build(Permuted(t.shape, dims),
          idx requires InShape(idx, Permuted(t.shape, dims)) && InShape(Unpermuted(idx, dims), t.shape) => At(t, Unpermuted(idx, dims)))
  }

  lemma PermuteAt(t: Tensor, dims: seq<nat>, idx: seq<nat>)
    requires Valid(t) && IsPermutation(dims, |t.shape|) && InShape(idx, Permuted(t.shape, dims))
    ensures InShape(Unpermuted(idx, dims), t.shape)
    ensures At(Permute(t, dims), idx) == At(t, Unpermuted(idx, dims))
  {
    hide At, Prod, Unpermuted, Permuted;
    UnpermutedInShape(idx, t.shape, dims);
  }

  /** The same elements in the same order under another shape. */
  function Reshape(t: Tensor, shape: seq<nat>): (r: Tensor)
    requires Valid(t) && Prod(shape) == Prod(t.shape)
    ensures Valid(r) && r.shape == shape
  {
    Tensor(shape, t.data)
  }

  /** Axes that agree but for the first. */
  lemma TailAt(s: seq<nat>, t: seq<nat>)
    requires s != [] && t != [] && s[1..] == t[1..]
    ensures |s| == |t| && forall d | 0 < d < |s| :: s[d] == t[d]
  {
    assert forall d | 0 < d < |s| :: s[d] == s[1..][d - 1];
    assert forall d | 0 < d < |t| :: t[d] == t[1..][d - 1];
  }

  /** One tensor after the other along the first axis. */
  function Cat(t: Tensor, u: Tensor): (r: Tensor)
    requires Valid(t) && Valid(u) && t.shape != [] && u.shape != [] && t.shape[1..] == u.shape[1..]
    ensures Valid(r) && r.shape == t.shape[0 := t.shape[0] + u.shape[0]]
  {
    TailAt(t.shape, u.shape);
    Build(t.shape[0 := t.shape[0] + u.shape[0]],
          idx requires InShape(idx, t.shape[0 := t.shape[0] + u.shape[0]]) =>
            if idx[0] < t.shape[0] then At(t, idx) else At(u, idx[0 := idx[0] - t.shape[0]]))
  }

  lemma CatAt(t: Tensor, u: Tensor, idx: seq<nat>)
    requires Valid(t) && Valid(u) && t.shape != [] && u.shape != [] && t.shape[1..] == u.shape[1..]
    requires InShape(idx, t.shape[0 := t.shape[0] + u.shape[0]])
    ensures idx[0] < t.shape[0] ==> InShape(idx, t.shape) && At(Cat(t, u), idx) == At(t, idx)
    ensures idx[0] >= t.shape[0] ==>
              InShape(idx[0 := idx[0] - t.shape[0]], u.shape) && At(Cat(t, u), idx) == At(u, idx[0 := idx[0] - t.shape[0]])
  {
    TailAt(t.shape, u.shape);
    hide At, Prod;
  }

  /** Tensors of one shape side by side along a new first axis. */
  function Stack(ts: seq<Tensor>, shape: seq<nat>): (r: Tensor)
    requires forall i | 0 <= i < |ts| :: Valid(ts[i]) && ts[i].shape == shape
    ensures Valid(r) && r.shape == [|ts|] + shape
  {
    assert forall idx | InShape(idx, [|ts|] + shape) :: idx[0] < |ts| && InShape(idx[1..], shape) by {
      forall idx | InShape(idx, [|ts|] + shape) ensures idx[0] < |ts| && InShape(idx[1..], shape) {
        StackedIndex(idx, |ts|, shape);
      }
    }
    Build([|ts|] + shape, idx requires idx != [] && idx[0] < |ts| && InShape(idx[1..], shape) => At(ts[idx[0]], idx[1..]))
  }

  lemma StackedIndex(idx: seq<nat>, n: nat, shape: seq<nat>)
    requires InShape(idx, [n] + shape)
    ensures idx[0] < n && InShape(idx[1..], shape)
  {
    assert forall d | 0 <= d < |shape| :: shape[d] == ([n] + shape)[d + 1];
  }

  lemma StackAt(ts: seq<Tensor>, shape: seq<nat>, idx: seq<nat>)
    requires forall i | 0 <= i < |ts| :: Valid(ts[i]) && ts[i].shape == shape
    requires InShape(idx, [|ts|] + shape)
    ensures idx[0] < |ts| && InShape(idx[1..], shape) && At(Stack(ts, shape), idx) == At(ts[idx[0]], idx[1..])
  {
    hide At, Prod;
    StackedIndex(idx, |ts|, shape);
  }

  /** A factor's axes line up with the last axes of the tensor; an axis of length one is repeated. */
  predicate Broadcasts(factor: seq<nat>, shape: seq<nat>) {
    && |factor| <= |shape|
    && forall j | 0 <= j < |factor| :: factor[j] == 1 || factor[j] == shape[|shape| - |factor| + j]
  }

  function FactorIndex(factor: seq<nat>, idx: seq<nat>): (r: seq<nat>)
    requires |factor| <= |idx|
    ensures |r| == |factor|
    ensures forall j | 0 <= j < |factor| :: r[j] == if factor[j] == 1 then 0 else idx[|idx| - |factor| + j]
  {
    seq(|factor|, j requires 0 <= j < |factor| => if factor[j] == 1 then 0 else idx[|idx| - |factor| + j])
  }

  function Times(t: Tensor, factor: Tensor): (r: Tensor)
    requires Valid(t) && Valid(factor) && Broadcasts(factor.shape, t.shape)
    ensures Valid(r) && r.shape == t.shape
  {
    Build(t.shape, idx requires InShape(idx, t.shape) => At(t, idx) * At(factor, FactorIndex(factor.shape, idx)))
  }

  lemma TimesAt(t: Tensor, factor: Tensor, idx: seq<nat>)
    requires Valid(t) && Valid(factor) && Broadcasts(factor.shape, t.shape) && InShape(idx, t.shape)
    ensures |factor.shape| <= |idx| && InShape(FactorIndex(factor.shape, idx), factor.shape)
    ensures At(Times(t, factor), idx) == At(t, idx) * At(factor, FactorIndex(factor.shape, idx))
  {
    hide At, Prod;
  }

  /** A tensor repeated along axes of length one, to fill a larger shape. */
  function Expand(t: Tensor, shape: seq<nat>): (r: Tensor)
    requires Valid(t) && Broadcasts(t.shape, shape)
    ensures Valid(r) && r.shape == shape
  {
    Build(shape, idx requires InShape(idx, shape) => At(t, FactorIndex(t.shape, idx)))
  }

  lemma ExpandAt(t: Tensor, shape: seq<nat>, idx: seq<nat>)
    requires Valid(t) && Broadcasts(t.shape, shape) && InShape(idx, shape)
    ensures InShape(FactorIndex(t.shape, idx), t.shape)
    ensures At(Expand(t, shape), idx) == At(t, FactorIndex(t.shape, idx))
  {
    hide At, Prod;
  }

  /** The length of a factor along an axis of a tensor with n axes: one, if the factor has no such axis. */
  function LinedUp(factor: seq<nat>, n: nat, d: nat): nat
    requires |factor| <= n && d < n
  {
    if d < n - |factor| then 1 else factor[d - (n - |factor|)]
  }

  /** Each of two shapes may be repeated to fit the other; the second has no more axes than the first. */
  predicate FitTogether(shape: seq<nat>, factor: seq<nat>) {
    && |factor| <= |shape|
    && forall d | 0 <= d < |shape| ::
      LinedUp(factor, |shape|, d) == 1 || shape[d] == 1 || LinedUp(factor, |shape|, d) == shape[d]
  }

  /** The shape that both fill. */
  function Joint(shape: seq<nat>, factor: seq<nat>): (r: seq<nat>)
    requires FitTogether(shape, factor)
    ensures |r| == |shape|
    ensures forall d | 0 <= d < |shape| :: r[d] == if shape[d] == 1 then LinedUp(factor, |shape|, d) else shape[d]
  {
    seq(|shape|, d requires 0 <= d < |shape| => if shape[d] == 1 then LinedUp(factor, |shape|, d) else shape[d])
  }

  lemma BothFill(shape: seq<nat>, factor: seq<nat>)
    requires FitTogether(shape, factor)
    ensures Broadcasts(shape, Joint(shape, factor)) && Broadcasts(factor, Joint(shape, factor))
  {
    hide Joint;
    var n, r := |shape|, Joint(shape, factor);
    forall j: nat | j < |factor| ensures factor[j] == 1 || factor[j] == r[n - |factor| + j] {
      assert LinedUp(factor, n, n - |factor| + j) == factor[j];
    }
  }

  /** Each element times the factor's, with both repeated where they have to be. */
  function Scaled(t: Tensor, factor: Tensor): (r: Tensor)
    requires Valid(t) && Valid(factor) && FitTogether(t.shape, factor.shape)
    ensures Valid(r) && r.shape == Joint(t.shape, factor.shape)
  {
    BothFill(t.shape, factor.shape);
    Times(Expand(t, Joint(t.shape, factor.shape)), factor)
  }

  // ---------------------------------------------------------------- splitting

  function Total(sizes: seq<nat>): nat {
    if sizes == [] then 0 else sizes[0] + Total(sizes[1..])
  }

  /** Consecutive parts of one axis, from `start` on. */
  function Split(t: Tensor, d: nat, start: nat, sizes: seq<nat>): (r: seq<Tensor>)
    requires Valid(t) && d < |t.shape| && start + Total(sizes) <= t.shape[d]
    ensures |r| == |sizes|
    ensures forall i | 0 <= i < |r| :: Valid(r[i]) && r[i].shape == t.shape[d := sizes[i]]
    decreases sizes
  {
    if sizes == [] then [] else [Narrow(t, d, start, sizes[0])] + Split(t, d, start + sizes[0], sizes[1..])
  }
}
