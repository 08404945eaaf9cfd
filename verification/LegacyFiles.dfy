/** Writing a legacy model and reading it back: which files are those of well-formed models. */
module LegacyFiles {
  import opened Octets
  import opened Wrappers
  import opened Legacy

  datatype SourceTensor = SourceTensor(name: seq<Byte>, dims: seq<nat>, dtype: nat, data: seq<Byte>)

  datatype Model = Model(header: Header, hyper: Hyper, items: seq<Item>, tensors: seq<SourceTensor>)

  /** What stands in a padded gap is free: the byte at each file position. */
  type Fill = nat -> Byte

  // ---------------------------------------------------------------- the layout

  predicate HeaderOk(h: Header) {
    if h.format == GGJT then 1 <= h.version <= 3 else h.version == 1
  }

  function HeaderBytes(h: Header): seq<Byte>
    requires HeaderOk(h)
  {
    match h.format
    case GGML => GGML_MAGIC
    case GGMF => GGMF_MAGIC + U32(h.version)
    case GGJT => GGJT_MAGIC + U32(h.version)
  }

  function Numbers(h: Hyper): (r: seq<nat>)
    ensures |r| == 7
  {
    [h.vocab, h.embd, h.mult, h.heads, h.layers, h.rot, h.ftype]
  }

  predicate HyperOk(h: Hyper) {
    KnownFtype(h.ftype) && forall i | 0 <= i < 7 :: Numbers(h)[i] < TWO32
  }

  function HyperBytes(h: Hyper): (r: seq<Byte>)
    requires HyperOk(h)
    ensures |r| == 28
  {
    U32s(Numbers(h))
  }

  predicate ItemOk(item: Item, scores: bool) {
    |item.text| < 4096 && item.score < TWO32 && (!scores ==> item.score == 0)
  }

  function ItemBytes(item: Item, scores: bool): seq<Byte>
    requires ItemOk(item, scores)
  {
    U32(|item.text|) + (item.text + if scores then U32(item.score) else [])
  }

  predicate ItemsOk(items: seq<Item>, scores: bool) {
    forall i | 0 <= i < |items| :: ItemOk(items[i], scores)
  }

  function ItemsBytes(items: seq<Item>, scores: bool): seq<Byte>
    requires ItemsOk(items, scores)
  {
    if items == [] then [] else ItemBytes(items[0], scores) + ItemsBytes(items[1..], scores)
  }

  predicate TensorOk(t: SourceTensor) {
    && |t.dims| <= 4 && (forall i | 0 <= i < |t.dims| :: t.dims[i] < TWO32)
    && |t.name| < 4096
    && t.dtype < TWO32 && QuantSize(t.dtype).Some?
    && ByteLength(t.dims, QuantSize(t.dtype).value) == |t.data|
  }

  function HeadBytes(t: SourceTensor): (r: seq<Byte>)
    requires TensorOk(t)
    ensures |r| == 12 + 4 * |t.dims| + |t.name|
  {
    U32s([|t.dims|, |t.name|, t.dtype]) + (U32s(t.dims) + t.name)
  }

  function Gap(at: nat, padded: bool, fill: Fill): seq<Byte> {
    if padded then seq(Pad(at), i requires 0 <= i => fill(at + i)) else []
  }

  function TensorBytes(t: SourceTensor, at: nat, padded: bool, fill: Fill): seq<Byte>
    requires TensorOk(t)
  {
    HeadBytes(t) + (Gap(at + |HeadBytes(t)|, padded, fill) + t.data)
  }

  predicate TensorsOk(ts: seq<SourceTensor>) {
    forall i | 0 <= i < |ts| :: TensorOk(ts[i])
  }

  function TensorsBytes(ts: seq<SourceTensor>, at: nat, padded: bool, fill: Fill): seq<Byte>
    requires TensorsOk(ts)
    decreases |ts|
  {
    if ts == [] then []
    else
      var first := TensorBytes(ts[0], at, padded, fill);
      first + TensorsBytes(ts[1..], at + |first|, padded, fill)
  }

  /** The last tensor of the feed-forward name exists and has two dimensions. */
  predicate HasFeedForward(ts: seq<SourceTensor>) {
    exists i | 0 <= i < |ts| ::
      ts[i].name == FEED_FORWARD && |ts[i].dims| >= 2 && forall j | i < j < |ts| :: ts[j].name != FEED_FORWARD
  }

  predicate WellFormed(m: Model) {
    && HeaderOk(m.header) && HyperOk(m.hyper) && Eligible(m.header, m.hyper.ftype)
    && |m.items| == m.hyper.vocab && ItemsOk(m.items, m.header.format != GGML)
    && TensorsOk(m.tensors) && HasFeedForward(m.tensors)
  }

  function FrontBytes(m: Model): seq<Byte>
    requires WellFormed(m)
  {
    HeaderBytes(m.header) + (HyperBytes(m.hyper) + ItemsBytes(m.items, m.header.format != GGML))
  }

  /** The file of a model. */
  function Write(m: Model, fill: Fill): seq<Byte>
    requires WellFormed(m)
  {
    FrontBytes(m) + TensorsBytes(m.tensors, |FrontBytes(m)|, m.header.format == GGJT, fill)
  }

  // ---------------------------------------------------------------- the model that a file holds

  function Stored(data: seq<Byte>, t: Tensor): SourceTensor {
    SourceTensor(t.name, t.dims, t.dtype, Slice(data, t.start, t.start + t.length))
  }

  function StoredAll(data: seq<Byte>, ts: seq<Tensor>): (r: seq<SourceTensor>)
    ensures |r| == |ts|
  {
    if ts == [] then [] else [Stored(data, ts[0])] + StoredAll(data, ts[1..])
  }

  lemma {:induction false} StoredAt(data: seq<Byte>, ts: seq<Tensor>, i: nat)
    requires i < |ts|
    ensures StoredAll(data, ts)[i] == Stored(data, ts[i])
  {
    if i > 0 { StoredAt(data, ts[1..], i - 1); }
  }

  function Contents(data: seq<Byte>, r: Loaded): Model {
    Model(r.header, r.hyper, r.items, StoredAll(data, r.tensors))
  }

  lemma {:induction false} LastNamedIs(ts: seq<Tensor>, name: seq<Byte>, i: nat)
    requires i < |ts| && ts[i].name == name && forall j | i < j < |ts| :: ts[j].name != name
    ensures LastNamed(ts, name) == Some(ts[i])
    decreases |ts|
  {
    if i < |ts| - 1 { LastNamedIs(ts[..|ts| - 1], name, i); }
  }

  lemma {:induction false} LastNamedAt(ts: seq<Tensor>, name: seq<Byte>) returns (i: nat)
    requires LastNamed(ts, name).Some?
    ensures i < |ts| && LastNamed(ts, name) == Some(ts[i]) && ts[i].name == name
    ensures forall j | i < j < |ts| :: ts[j].name != name
    decreases |ts|
  {
    i := |ts| - 1;
    if ts[|ts| - 1].name != name { i := LastNamedAt(ts[..|ts| - 1], name); }
  }

  lemma FeedForwardFound(data: seq<Byte>, ts: seq<Tensor>)
    ensures HasFeedForward(StoredAll(data, ts)) <==> FeedForward(ts).Ok?
  {
    hide LastNamed, Slice;
    var all := StoredAll(data, ts);
    forall i | 0 <= i < |ts|
      ensures all[i].name == ts[i].name && all[i].dims == ts[i].dims
    {
      StoredAt(data, ts, i);
    }
    if HasFeedForward(all) {
      var i: nat :| i < |all| &&
        all[i].name == FEED_FORWARD && |all[i].dims| >= 2 && forall j | i < j < |all| :: all[j].name != FEED_FORWARD;
      forall j | i < j < |ts| ensures ts[j].name != FEED_FORWARD { assert all[j].name != FEED_FORWARD; }
      LastNamedIs(ts, FEED_FORWARD, i);
    }
    if FeedForward(ts).Ok? {
      var i := LastNamedAt(ts, FEED_FORWARD);
      assert all[i].name == FEED_FORWARD;
    }
  }

  // ---------------------------------------------------------------- reading what was written

  lemma HeaderReadBack(data: seq<Byte>, at: nat, h: Header)
    requires HeaderOk(h) && Has(data, at, HeaderBytes(h))
    ensures ReadHeader(data, at) == Ok((h, at + |HeaderBytes(h)|))
  {
    hide U32, ReadU32, Slice;
    var magic := match h.format case GGML => GGML_MAGIC case GGMF => GGMF_MAGIC case GGJT => GGJT_MAGIC;
    if h.format != GGML {
      HasBoth(data, at, magic, U32(h.version));
      ReadWritten(data, at + 4, h.version);
    }
    HasSlice(data, at, magic);
  }

  lemma HyperReadBack(data: seq<Byte>, at: nat, h: Hyper)
    requires HyperOk(h) && Has(data, at, HyperBytes(h))
    ensures ReadHyper(data, at) == Ok((h, at + 28))
  {
    hide U32s, ReadU32s;
    ReadAllWritten(data, at, Numbers(h));
  }

  lemma ItemReadBack(data: seq<Byte>, at: nat, item: Item, scores: bool)
    requires ItemOk(item, scores) && Has(data, at, ItemBytes(item, scores))
    ensures ReadItem(data, at, scores) == Ok((item, at + |ItemBytes(item, scores)|))
  {
    hide U32, ReadU32, Slice;
    var tail := if scores then U32(item.score) else [];
    HasBoth(data, at, U32(|item.text|), item.text + tail);
    HasBoth(data, at + 4, item.text, tail);
    ReadWritten(data, at, |item.text|);
    HasSlice(data, at + 4, item.text);
    if scores {
      ReadWritten(data, at + 4 + |item.text|, item.score);
    }
  }

  lemma {:induction false} ItemsReadBack(data: seq<Byte>, at: nat, items: seq<Item>, scores: bool)
    requires ItemsOk(items, scores) && Has(data, at, ItemsBytes(items, scores))
    ensures ReadItems(data, at, |items|, scores) == Ok((items, at + |ItemsBytes(items, scores)|))
    decreases |items|
  {
    hide ItemBytes, ReadItem;
    if items != [] {
      var first := ItemBytes(items[0], scores);
      HasBoth(data, at, first, ItemsBytes(items[1..], scores));
      ItemReadBack(data, at, items[0], scores);
      ItemsReadBack(data, at + |first|, items[1..], scores);
      assert [items[0]] + items[1..] == items;
    }
  }

  lemma HeadReadBack(data: seq<Byte>, at: nat, t: SourceTensor)
    requires TensorOk(t) && Has(data, at, HeadBytes(t))
    ensures ReadHead(data, at) == Ok(Head(|t.dims|, |t.name|, t.dtype))
    ensures var nameAt := at + 12 + 4 * |t.dims|;
      && |Slice(data, at + 12, nameAt)| == 4 * |t.dims|
      && ReadU32s(Slice(data, at + 12, nameAt), 0, |t.dims|) == t.dims
      && Slice(data, nameAt, nameAt + |t.name|) == t.name
  {
    hide U32, ReadU32, Slice, U32s, ReadU32s, QuantSize, ByteLength, Has;
    var sizes := [|t.dims|, |t.name|, t.dtype];
    HasBoth(data, at, U32s(sizes), U32s(t.dims) + t.name);
    HasBoth(data, at + 12, U32s(t.dims), t.name);
    SlicedNumbers(data, at, sizes);
    SlicedNumbers(data, at + 12, t.dims);
    ThreeNumbers(Slice(data, at, at + 12));
    HasSlice(data, at + 12 + 4 * |t.dims|, t.name);
  }

  lemma GapLength(at: nat, padded: bool, fill: Fill)
    ensures |Gap(at, padded, fill)| == if padded then Pad(at) else 0
  {
  }

  lemma WithinFile(data: seq<Byte>, at: nat, bytes: seq<Byte>)
    requires Has(data, at, bytes)
    ensures at + |bytes| <= |data|
  {
  }

  lemma TensorReadBack(data: seq<Byte>, at: nat, t: SourceTensor, padded: bool, fill: Fill) returns (r: Tensor)
    requires TensorOk(t) && Has(data, at, TensorBytes(t, at, padded, fill)) && |data| < TWO63
    ensures ReadTensor(data, at, padded) == Ok((r, at + |TensorBytes(t, at, padded, fill)|))
    ensures Stored(data, r) == t && r.length == |t.data| && r.start + r.length < TWO63
  {
    hide HeadBytes, ReadHead, ReadTensor, Slice, U32s, ReadU32s, QuantSize, ByteLength, Pad, Gap, Wrap64, Has;
    var gapAt := at + |HeadBytes(t)|;
    var gap := Gap(gapAt, padded, fill);
    HasBoth(data, at, HeadBytes(t), gap + t.data);
    HasBoth(data, gapAt, gap, t.data);
    HeadReadBack(data, at, t);
    HasSlice(data, gapAt + |gap|, t.data);
    GapLength(gapAt, padded, fill);
    WithinFile(data, gapAt + |gap|, t.data);
    r := Tensor(t.name, t.dims, t.dtype, gapAt + |gap|, |t.data|);
    TensorMade(data, at, padded, Head(|t.dims|, |t.name|, t.dtype), t.dims);
  }

  lemma {:induction false} TensorsReadBack(
    data: seq<Byte>, at: nat, ts: seq<SourceTensor>, padded: bool, fill: Fill) returns (r: seq<Tensor>)
    requires TensorsOk(ts) && Has(data, at, TensorsBytes(ts, at, padded, fill)) && |data| < TWO63
    requires at + |TensorsBytes(ts, at, padded, fill)| == |data|
    ensures Steps(data, at, padded, |ts|) == Done((r, |data|)) && Forward(data, at, padded)
    ensures StoredAll(data, r) == ts
    decreases |ts|
  {
    hide TensorBytes, ReadTensor, Stored, TensorOk;
    if ts == [] {
      r := [];
    } else {
      var first := TensorBytes(ts[0], at, padded, fill);
      HasBoth(data, at, first, TensorsBytes(ts[1..], at + |first|, padded, fill));
      var one := TensorReadBack(data, at, ts[0], padded, fill);
      TensorTakes(ts[0], at, padded, fill);
      var rest := TensorsReadBack(data, at + |first|, ts[1..], padded, fill);
      r := [one] + rest;
      assert r[1..] == rest && ts == [ts[0]] + ts[1..];
    }
  }

  lemma TensorTakes(t: SourceTensor, at: nat, padded: bool, fill: Fill)
    requires TensorOk(t)
    ensures 12 <= |TensorBytes(t, at, padded, fill)|
  {
    hide HeadBytes, Gap;
  }

  lemma {:induction false} TensorsTake(ts: seq<SourceTensor>, at: nat, padded: bool, fill: Fill)
    requires TensorsOk(ts)
    ensures 12 * |ts| <= |TensorsBytes(ts, at, padded, fill)|
    decreases |ts|
  {
    hide TensorBytes, TensorOk;
    if ts != [] {
      TensorTakes(ts[0], at, padded, fill);
      TensorsTake(ts[1..], at + |TensorBytes(ts[0], at, padded, fill)|, padded, fill);
    }
  }

  lemma FrontReadBack(data: seq<Byte>, m: Model)
    requires WellFormed(m) && Has(data, 0, FrontBytes(m))
    ensures ReadFront(data, 0) == Ok(Front(m.header, m.hyper, m.items, |FrontBytes(m)|))
  {
    hide HeaderBytes, HyperBytes, ItemsBytes, HasFeedForward, Has;
    hide ReadHeader, ReadHyper, ReadItems, Eligible, HeaderOk, HyperOk, ItemsOk, TensorsOk;
    var scores := m.header.format != GGML;
    var header, hyper, items := HeaderBytes(m.header), HyperBytes(m.hyper), ItemsBytes(m.items, scores);
    HasBoth(data, 0, header, hyper + items);
    HasBoth(data, |header|, hyper, items);
    HeaderReadBack(data, 0, m.header);
    HyperReadBack(data, |header|, m.hyper);
    ItemsReadBack(data, |header| + 28, m.items, scores);
  }

  lemma BehindReadBack(data: seq<Byte>, m: Model, fill: Fill) returns (r: seq<Tensor>)
    requires WellFormed(m) && data == Write(m, fill) && |data| < TWO63
    ensures Has(data, 0, FrontBytes(m))
    ensures ReadTensors(data, |FrontBytes(m)|, m.header.format == GGJT) == Done((r, |data|))
    ensures Forward(data, |FrontBytes(m)|, m.header.format == GGJT)
    ensures StoredAll(data, r) == m.tensors
  {
    hide FrontBytes, TensorsBytes, StoredAll, Steps, Forward, HasFeedForward, TensorsOk, Has;
    var at, padded := |FrontBytes(m)|, m.header.format == GGJT;
    WholeHas(data);
    HasBoth(data, 0, FrontBytes(m), TensorsBytes(m.tensors, at, padded, fill));
    r := TensorsReadBack(data, at, m.tensors, padded, fill);
    TensorsTake(m.tensors, at, padded, fill);
    StepsEnough(data, at, padded, |m.tensors|, 2 * |data| + 1);
  }

  /** Reading the file of a well-formed model gives back that model and stops at the end of the file. */
  lemma ModelReadBack(m: Model, fill: Fill)
    requires WellFormed(m) && |Write(m, fill)| < TWO63
    ensures var data := Write(m, fill);
      && Read(data, 0).Done?
      && Read(data, 0).value.1 == |data|
      && Contents(data, Read(data, 0).value.0) == m
      && ForwardFile(data, 0)
  {
    var data := Write(m, fill);
    var read := BehindReadBack(data, m, fill);
    FrontReadBack(data, m);
    FeedForwardFound(data, read);
    hide Write, FrontBytes, StoredAll, HasFeedForward, FeedForward, ReadFront, ReadTensors, Forward;
    hide Eligible, HeaderOk, HyperOk, ItemsOk, TensorsOk, Has;
  }

  // ---------------------------------------------------------------- what was read had been written

  /** The fill that a file itself shows. */
  function Shown(data: seq<Byte>): Fill {
    (p: nat) => if p < |data| then data[p] else 0
  }

  lemma SliceIsThere(data: seq<Byte>, lo: nat, hi: nat)
    requires lo <= hi <= |data|
    ensures Has(data, lo, Slice(data, lo, hi)) && |Slice(data, lo, hi)| == hi - lo
  {
  }

  lemma HeaderWasWritten(data: seq<Byte>, at: nat)
    requires ReadHeader(data, at).Ok?
    ensures var r := ReadHeader(data, at).value;
      HeaderOk(r.0) && Has(data, at, HeaderBytes(r.0)) && r.1 == at + |HeaderBytes(r.0)|
  {
    hide U32, ReadU32;
    var r := ReadHeader(data, at).value;
    var magic := Slice(data, at, at + 4);
    assert |magic| == 4;
    SliceIsThere(data, at, at + 4);
    if r.0.format != GGML {
      WrittenAsRead(data, at + 4);
      HasBoth(data, at, magic, U32(r.0.version));
    }
  }

  lemma HyperWasWritten(data: seq<Byte>, at: nat)
    requires ReadHyper(data, at).Ok?
    ensures var r := ReadHyper(data, at).value;
      HyperOk(r.0) && Has(data, at, HyperBytes(r.0)) && r.1 == at + |HyperBytes(r.0)|
  {
    hide U32s, ReadU32s;
    AllWrittenAsRead(data, at, 7);
    var n := ReadU32s(data, at, 7);
    assert Numbers(ReadHyper(data, at).value.0) == n;
  }

  lemma ItemWasWritten(data: seq<Byte>, at: nat, scores: bool)
    requires ReadItem(data, at, scores).Ok? && ReadItem(data, at, scores).value.1 <= |data|
    ensures var r := ReadItem(data, at, scores).value;
      ItemOk(r.0, scores) && Has(data, at, ItemBytes(r.0, scores)) && r.1 == at + |ItemBytes(r.0, scores)|
  {
    hide U32, ReadU32, Slice;
    var item := ReadItem(data, at, scores).value.0;
    var len := ReadU32(data, at);
    var end := at + 4 + len;
    var tail := if scores then U32(item.score) else [];
    WrittenAsRead(data, at);
    SliceIsThere(data, at + 4, end);
    if scores {
      WrittenAsRead(data, end);
    }
    HasBoth(data, at + 4, item.text, tail);
    HasBoth(data, at, U32(len), item.text + tail);
  }

  lemma {:induction false} ItemsWereWritten(data: seq<Byte>, at: nat, n: nat, scores: bool)
    requires ReadItems(data, at, n, scores).Ok? && ReadItems(data, at, n, scores).value.1 <= |data|
    ensures var r := ReadItems(data, at, n, scores).value;
      ItemsOk(r.0, scores) && Has(data, at, ItemsBytes(r.0, scores)) && r.1 == at + |ItemsBytes(r.0, scores)|
    decreases n
  {
    hide ItemBytes, ReadItem, ItemOk;
    if n > 0 {
      var one := ReadItem(data, at, scores).value;
      ItemsAdvance(data, one.1, n - 1, scores);
      ItemWasWritten(data, at, scores);
      ItemsWereWritten(data, one.1, n - 1, scores);
      var rest := ReadItems(data, one.1, n - 1, scores).value;
      var items := ReadItems(data, at, n, scores).value.0;
      assert items[0] == one.0 && items[1..] == rest.0;
      HasBoth(data, at, ItemBytes(one.0, scores), ItemsBytes(rest.0, scores));
    } else {
      assert data[at..at] == [];
    }
  }

  lemma NumbersWereWritten(data: seq<Byte>, at: nat, n: nat)
    requires at + 4 * n <= |data|
    ensures |Slice(data, at, at + 4 * n)| == 4 * n
    ensures Has(data, at, U32s(ReadU32s(Slice(data, at, at + 4 * n), 0, n)))
  {
    hide ReadU32s, U32s;
    WholeSlice(data, at, 4 * n);
    AllWrittenAsRead(Slice(data, at, at + 4 * n), 0, n);
  }

  /** What a tensor that was read is made of. */
  lemma TensorParts(data: seq<Byte>, at: nat, padded: bool)
    requires ReadTensor(data, at, padded).Ok?
    ensures var t := ReadTensor(data, at, padded).value.0;
      var head := ReadHead(data, at).value;
      var nameAt := at + 12 + 4 * head.nDims;
      && |t.dims| == head.nDims && (forall i | 0 <= i < |t.dims| :: t.dims[i] < TWO32)
      && t.dtype == head.dtype && t.name == Slice(data, nameAt, nameAt + head.nameLen)
      && QuantSize(t.dtype).Some? && t.length == ByteLength(t.dims, QuantSize(t.dtype).value)
      && |Slice(data, at + 12, nameAt)| == 4 * head.nDims
      && t.dims == ReadU32s(Slice(data, at + 12, nameAt), 0, head.nDims)
  {
    HeadBounds(data, at);
    hide ReadU32, Slice, ReadU32s, QuantSize, ByteLength, ReadHead, StartOf, Wrap64;
  }

  /** The head of a tensor that was read, with its dimensions and its name, stands where it was read. */
  lemma HeadWasWritten(data: seq<Byte>, at: nat, padded: bool)
    requires ReadTensor(data, at, padded).Ok? && ReadTensor(data, at, padded).value.0.start <= |data|
    ensures var t := ReadTensor(data, at, padded).value.0;
      var sizes := [|t.dims|, |t.name|, t.dtype];
      && |t.dims| <= 4 && |t.name| < 4096 && t.dtype < TWO32
      && (forall i | 0 <= i < |t.dims| :: t.dims[i] < TWO32)
      && ReadHead(data, at) == Ok(Head(|t.dims|, |t.name|, t.dtype))
      && Has(data, at, U32s(sizes) + (U32s(t.dims) + t.name))
  {
    hide U32, ReadU32, Slice, U32s, ReadU32s, QuantSize, ByteLength, Has, ReadHead, ReadTensor;
    TensorIs(data, at, padded);
    TensorParts(data, at, padded);
    HeadInside(data, at);
    HeadNumbers(data, at);
    var head := ReadHead(data, at).value;
    var nameAt := at + 12 + 4 * head.nDims;
    NumbersWereWritten(data, at + 12, head.nDims);
    SliceIsThere(data, nameAt, nameAt + head.nameLen);
    var t := ReadTensor(data, at, padded).value.0;
    HasBoth(data, at + 12, U32s(t.dims), t.name);
    HasBoth(data, at, U32s([|t.dims|, |t.name|, t.dtype]), U32s(t.dims) + t.name);
  }

  lemma HeadNumbers(data: seq<Byte>, at: nat)
    requires ReadHead(data, at).Ok? && at + 12 <= |data|
    ensures var head := ReadHead(data, at).value;
      && head.nDims <= 4 && head.nameLen < 4096 && head.dtype < TWO32 && QuantSize(head.dtype).Some?
      && Has(data, at, U32s([head.nDims, head.nameLen, head.dtype]))
  {
    hide ReadU32, Slice, U32s, ReadU32s, QuantSize, Has;
    NumbersWereWritten(data, at, 3);
    ThreeNumbers(Slice(data, at, at + 12));
  }

  lemma GapIsThere(data: seq<Byte>, at: nat, padded: bool)
    requires at + (if padded then Pad(at) else 0) <= |data|
    ensures Has(data, at, Gap(at, padded, Shown(data)))
  {
    hide Pad;
    var gap := Gap(at, padded, Shown(data));
    assert data[at..at + |gap|] == gap;
  }

  lemma StoredOk(data: seq<Byte>, at: nat, padded: bool)
    requires ReadTensor(data, at, padded).Ok?
    requires var t := ReadTensor(data, at, padded).value.0; 0 <= t.length && t.start + t.length <= |data|
    ensures var t := Stored(data, ReadTensor(data, at, padded).value.0);
      TensorOk(t) && Has(data, at, HeadBytes(t))
  {
    hide U32s, Slice, ReadU32s, QuantSize, ByteLength, Has, ReadHead, ReadTensor;
    TensorIs(data, at, padded);
    TensorParts(data, at, padded);
    HeadWasWritten(data, at, padded);
    var r := ReadTensor(data, at, padded).value.0;
    SliceIsThere(data, r.start, r.start + r.length);
  }

  /** A tensor stands where its head, the gap and its data do. */
  lemma TensorIsThere(data: seq<Byte>, at: nat, t: SourceTensor, padded: bool, fill: Fill)
    requires TensorOk(t) && Has(data, at, HeadBytes(t))
    requires var gapAt := at + |HeadBytes(t)|;
      var gap := Gap(gapAt, padded, fill);
      Has(data, gapAt, gap) && Has(data, gapAt + |gap|, t.data)
    ensures Has(data, at, TensorBytes(t, at, padded, fill))
  {
    hide Has, HeadBytes, Gap, TensorOk;
    var gapAt := at + |HeadBytes(t)|;
    var gap := Gap(gapAt, padded, fill);
    HasBoth(data, gapAt, gap, t.data);
    HasBoth(data, at, HeadBytes(t), gap + t.data);
  }

  lemma TensorWasWritten(data: seq<Byte>, at: nat, padded: bool)
    requires ReadTensor(data, at, padded).Ok?
    requires var t := ReadTensor(data, at, padded).value.0; 0 <= t.length && t.start + t.length <= |data| < TWO63
    ensures var r := ReadTensor(data, at, padded).value;
      var t := Stored(data, r.0);
      && TensorOk(t)
      && Has(data, at, TensorBytes(t, at, padded, Shown(data)))
      && r.1 == at + |TensorBytes(t, at, padded, Shown(data))|
  {
    hide Slice, QuantSize, ByteLength, ReadTensor, ReadHead, Has, TensorOk, HeadBytes, Gap, Pad;
    TensorIs(data, at, padded);
    HeadWasWritten(data, at, padded);
    StoredOk(data, at, padded);
    var r := ReadTensor(data, at, padded).value;
    SliceIsThere(data, r.0.start, r.0.start + r.0.length);
    var t := Stored(data, r.0);
    var gapAt := at + |HeadBytes(t)|;
    GapLength(gapAt, padded, Shown(data));
    GapIsThere(data, gapAt, padded);
    TensorIsThere(data, at, t, padded, Shown(data));
  }

  lemma {:induction false} TensorsWereWritten(data: seq<Byte>, at: nat, padded: bool, n: nat)
    requires Steps(data, at, padded, n).Done? && Steps(data, at, padded, n).value.1 == |data| < TWO63
    requires Forward(data, at, padded)
    ensures var ts := StoredAll(data, Steps(data, at, padded, n).value.0);
      && TensorsOk(ts)
      && Has(data, at, TensorsBytes(ts, at, padded, Shown(data)))
      && |data| == at + |TensorsBytes(ts, at, padded, Shown(data))|
    decreases n
  {
    hide TensorBytes, ReadTensor, Stored, TensorOk, Has;
    if at < |data| {
      var one := ReadTensor(data, at, padded).value;
      TensorIs(data, at, padded);
      var rest := Steps(data, one.1, padded, n - 1).value;
      NoneBeyond(data, one.1, padded, n - 1);
      TensorWasWritten(data, at, padded);
      TensorsWereWritten(data, one.1, padded, n - 1);
      var r := Steps(data, at, padded, n).value.0;
      assert r[0] == one.0 && r[1..] == rest.0;
      var t, ts := Stored(data, one.0), StoredAll(data, rest.0);
      var all := StoredAll(data, r);
      assert all[0] == t && all[1..] == ts;
      HasBoth(data, at, TensorBytes(t, at, padded, Shown(data)), TensorsBytes(ts, one.1, padded, Shown(data)));
    } else {
      NothingIsThere(data);
    }
  }

  /** A loop that only goes forward does not start behind its end. */
  lemma NoneBeyond(data: seq<Byte>, at: nat, padded: bool, n: nat)
    requires Steps(data, at, padded, n).Done? && Steps(data, at, padded, n).value.1 == |data|
    ensures at <= |data|
  {
  }

  lemma NothingIsThere(data: seq<Byte>)
    ensures Has(data, |data|, [])
  {
    assert data[|data|..|data|] == [];
  }

  lemma FrontWasWritten(data: seq<Byte>, m: Model)
    requires ReadFront(data, 0).Ok? && ReadFront(data, 0).value.end <= |data|
    requires var front := ReadFront(data, 0).value;
      m.header == front.header && m.hyper == front.hyper && m.items == front.items
    ensures HeaderOk(m.header) && HyperOk(m.hyper) && Eligible(m.header, m.hyper.ftype)
    ensures |m.items| == m.hyper.vocab && ItemsOk(m.items, m.header.format != GGML)
    ensures WellFormed(m) ==> Has(data, 0, FrontBytes(m)) && |FrontBytes(m)| == ReadFront(data, 0).value.end
  {
    hide HeaderBytes, HyperBytes, ItemsBytes, HasFeedForward, Has, TensorsOk;
    hide ReadHeader, ReadHyper, ReadItems, Eligible, HeaderOk, HyperOk, ItemsOk;
    var (header, a) := ReadHeader(data, 0).value;
    var (hyper, b) := ReadHyper(data, a).value;
    var scores := header.format != GGML;
    HeaderWasWritten(data, 0);
    HyperWasWritten(data, a);
    ItemsAdvance(data, b, hyper.vocab, scores);
    ItemsWereWritten(data, b, hyper.vocab, scores);
    HasBoth(data, a, HyperBytes(hyper), ItemsBytes(m.items, scores));
    HasBoth(data, 0, HeaderBytes(header), HyperBytes(hyper) + ItemsBytes(m.items, scores));
  }

  /** Every file that only goes forward and is read to its end is the file of the well-formed model read from it. */
  lemma FileWasWritten(data: seq<Byte>)
    requires Read(data, 0).Done? && Read(data, 0).value.1 == |data| < TWO63 && ForwardFile(data, 0)
    ensures var m := Contents(data, Read(data, 0).value.0);
      WellFormed(m) && Write(m, Shown(data)) == data
  {
    hide FrontBytes, TensorsBytes, StoredAll, HasFeedForward, FeedForward, Has;
    hide ReadFront, Steps, Forward, Eligible, HeaderOk, HyperOk, ItemsOk, TensorsOk;
    var front := ReadFront(data, 0).value;
    var padded, n: nat := Padded(front), 2 * |data| + 1;
    StepsPlaced(data, front.end, padded, n);
    NoneBeyond(data, front.end, padded, n);
    TensorsWereWritten(data, front.end, padded, n);
    FeedForwardFound(data, ReadTensors(data, front.end, padded).value.0);
    var m := Contents(data, Read(data, 0).value.0);
    FrontWasWritten(data, m);
    HasBoth(data, 0, FrontBytes(m), TensorsBytes(m.tensors, front.end, padded, Shown(data)));
    WholeIs(data, Write(m, Shown(data)));
  }

  lemma WholeIs(data: seq<Byte>, bytes: seq<Byte>)
    requires Has(data, 0, bytes) && |bytes| == |data|
    ensures bytes == data
  {
  }

  /** The file of some well-formed model. */
  ghost predicate IsWritten(data: seq<Byte>) {
    exists m: Model, fill: Fill :: WellFormed(m) && Write(m, fill) == data
  }

  /** The files of well-formed models are exactly those that are read to their end and only go forward. */
  lemma WrittenExactly(data: seq<Byte>)
    requires |data| < TWO63
    ensures IsWritten(data) <==>
      Read(data, 0).Done? && Read(data, 0).value.1 == |data| && ForwardFile(data, 0)
  {
    hide Read, ForwardFile, WellFormed, Write;
    if IsWritten(data) {
      var m: Model, fill: Fill :| WellFormed(m) && Write(m, fill) == data;
      ModelReadBack(m, fill);
    }
    if Read(data, 0).Done? && Read(data, 0).value.1 == |data| && ForwardFile(data, 0) {
      FileWasWritten(data);
    }
  }
}
