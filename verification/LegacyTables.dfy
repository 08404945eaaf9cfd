/** The constants of the legacy files, spelled out: magics, names, file types and element types. */
module LegacyTables {
  import opened Octets
  import opened Wrappers
  import opened Legacy
  import opened LegacyFiles

  /** The magic numbers are written with their lowest byte first, so the letters stand in reverse; only GGUF's do not. */
  lemma MagicsSpelled()
    ensures GGUF_MAGIC == Codes("GGUF") && GGML_MAGIC == Codes("lmgg")
    ensures GGMF_MAGIC == Codes("fmgg") && GGJT_MAGIC == Codes("tjgg")
  {
  }

  function FirstFeedForward(): seq<Byte> {
    Codes("layers.0.feed_forward.w1.weight")
  }

  lemma NameSpelled()
    ensures FEED_FORWARD == FirstFeedForward()
  {
  }

  /** The file types that may be converted: before version 2 only the unquantized ones, from version 3 on all. */
  lemma EligibleTypes(format: Format, version: nat, ftype: nat)
    requires 1 <= version <= 3 && (format != GGJT ==> version == 1)
    ensures Eligible(Header(format, version), ftype) && KnownFtype(ftype) <==>
      ftype in (
        if version == 1 then {0, 1}
        else if version == 2 then {0, 1, 8, 9, 10, 11, 12, 13, 14, 15, 16, 17, 18}
        else {0, 1, 2, 3, 4, 7, 8, 9, 10, 11, 12, 13, 14, 15, 16, 17, 18})
  {
  }

  /** The tensor of that name, the last one in the file, decides; its second dimension is the one that counts. */
  lemma FeedForwardIs(tensors: seq<Tensor>, i: nat)
    requires i < |tensors| && tensors[i].name == FirstFeedForward()
    requires forall j | i < j < |tensors| :: tensors[j].name != FirstFeedForward()
    ensures |tensors[i].dims| < 2 ==> FeedForward(tensors) == Err(FlatFeedForward)
    ensures |tensors[i].dims| >= 2 ==> FeedForward(tensors) == Ok(tensors[i].dims[1])
  {
    hide FEED_FORWARD, FirstFeedForward;
    NameSpelled();
    LastNamedIs(tensors, FEED_FORWARD, i);
  }

  lemma NoFeedForwardTensor(tensors: seq<Tensor>)
    requires forall j | 0 <= j < |tensors| :: tensors[j].name != FirstFeedForward()
    ensures FeedForward(tensors) == Err(NoFeedForward)
  {
    hide FEED_FORWARD, FirstFeedForward;
    NameSpelled();
  }

  /** The 32-bit numbers in front of a vocabulary, in their order. */
  lemma HyperLayout(h: Hyper)
    requires HyperOk(h)
    ensures forall i | 0 <= i < 7 :: Numbers(h)[i] < TWO32
    ensures h.vocab < TWO32 && h.embd < TWO32 && h.mult < TWO32 && h.heads < TWO32 && h.layers < TWO32 && h.rot < TWO32
    ensures HyperBytes(h)
      == U32(h.vocab) + U32(h.embd) + U32(h.mult) + U32(h.heads) + U32(h.layers) + U32(h.rot) + U32(h.ftype)
  {
    hide U32;
    var n := Numbers(h);
    assert n[0] < TWO32 && n[1] < TWO32 && n[2] < TWO32 && n[3] < TWO32 && n[4] < TWO32 && n[5] < TWO32 && n[6] < TWO32;
    SevenWords(h.vocab, h.embd, h.mult, h.heads, h.layers, h.rot, h.ftype);
  }

  lemma SevenWords(a: nat, b: nat, c: nat, d: nat, e: nat, f: nat, g: nat)
    requires a < TWO32 && b < TWO32 && c < TWO32 && d < TWO32 && e < TWO32 && f < TWO32 && g < TWO32
    ensures U32s([a, b, c, d, e, f, g]) == U32(a) + U32(b) + U32(c) + U32(d) + U32(e) + U32(f) + U32(g)
  {
    hide *;
    TwoWords(a, b);
    LastWord([a, b], c);
    LastWord([a, b] + [c], d);
    LastWord([a, b] + [c] + [d], e);
    LastWord([a, b] + [c] + [d] + [e], f);
    LastWord([a, b] + [c] + [d] + [e] + [f], g);
    assert [a, b] + [c] + [d] + [e] + [f] + [g] == [a, b, c, d, e, f, g];
  }

  lemma LastWord(front: seq<nat>, last: nat)
    requires last < TWO32 && forall i | 0 <= i < |front| :: front[i] < TWO32
    ensures forall i | 0 <= i < |front + [last]| :: (front + [last])[i] < TWO32
    ensures U32s(front + [last]) == U32s(front) + U32(last)
  {
    hide U32, U32s;
    U32sConcat(front, [last]);
    OneWord(last);
  }

  lemma OneWord(x: nat)
    requires x < TWO32
    ensures U32s([x]) == U32(x)
  {
    hide U32;
    assert [x][1..] == [] && U32(x) + [] == U32(x);
  }

  lemma TwoWords(x: nat, y: nat)
    requires x < TWO32 && y < TWO32
    ensures U32s([x, y]) == U32(x) + U32(y)
  {
    hide U32, U32s;
    OneWord(x);
    OneWord(y);
    U32sConcat([x], [y]);
    assert [x] + [y] == [x, y];
  }

  lemma ThreeWords(a: nat, b: nat, c: nat)
    requires a < TWO32 && b < TWO32 && c < TWO32
    ensures U32s([a, b, c]) == U32(a) + U32(b) + U32(c)
  {
    hide *;
    TwoWords(a, b);
    LastWord([a, b], c);
    assert [a, b] + [c] == [a, b, c];
  }

  /** What a file of the latest version is made of, from its first byte to its last; the data start at a multiple of 32. */
  lemma FileLayout(m: Model, fill: Fill) returns (gap: seq<Byte>)
    requires WellFormed(m) && m.header == Header(GGJT, 3) && |m.items| == 1 && |m.tensors| == 1
    ensures |gap| < 32
    ensures var item, t, h := m.items[0], m.tensors[0], m.hyper;
      && h.vocab == 1 && HyperOk(h) && ItemOk(item, true) && TensorOk(t)
      && Write(m, fill)
        == Codes("tjgg") + U32(3) + HyperBytes(h)
        + (U32(|item.text|) + item.text + U32(item.score))
        + (U32(|t.dims|) + U32(|t.name|) + U32(t.dtype) + U32s(t.dims) + t.name) + gap + t.data
      && (|Write(m, fill)| - |t.data|) % 32 == 0
  {
    hide U32, HyperBytes, ByteLength, QuantSize, KnownFtype, HasFeedForward, Eligible;
    var item, t := m.items[0], m.tensors[0];
    assert ItemOk(item, true) && TensorOk(t);
    MagicsSpelled();
    gap := Gap(|FrontBytes(m)| + |HeadBytes(t)|, true, fill);
    OneItem(m.items);
    HeadLayout(t);
    var front, first := FrontBytes(m), TensorBytes(t, |FrontBytes(m)|, true, fill);
    assert front == Codes("tjgg") + U32(3) + HyperBytes(m.hyper) + (U32(|item.text|) + item.text + U32(item.score));
    OneTensor(m.tensors, |front|, fill);
    assert first == HeadBytes(t) + (gap + t.data);
    assert Write(m, fill) == front + first;
    assert |Write(m, fill)| - |t.data| == |front| + |HeadBytes(t)| + |gap|;
  }

  lemma OneItem(items: seq<Item>)
    requires |items| == 1 && ItemsOk(items, true)
    ensures ItemOk(items[0], true)
    ensures ItemsBytes(items, true) == U32(|items[0].text|) + items[0].text + U32(items[0].score)
  {
    hide U32;
    assert ItemsBytes(items, true) == ItemBytes(items[0], true) + [];
  }

  lemma OneTensor(ts: seq<SourceTensor>, at: nat, fill: Fill)
    requires |ts| == 1 && TensorsOk(ts)
    ensures TensorsBytes(ts, at, true, fill) == TensorBytes(ts[0], at, true, fill)
  {
    hide TensorBytes, TensorOk;
    assert ts[1..] == [];
    var first := TensorBytes(ts[0], at, true, fill);
    assert TensorsBytes(ts, at, true, fill) == first + [];
  }

  lemma HeadLayout(t: SourceTensor)
    requires TensorOk(t)
    ensures HeadBytes(t) == U32(|t.dims|) + U32(|t.name|) + U32(t.dtype) + U32s(t.dims) + t.name
  {
    hide U32, ByteLength, QuantSize, U32s;
    ThreeWords(|t.dims|, |t.name|, t.dtype);
  }

  /** An element type: its number, how many elements a block has, and how many bytes. */
  datatype Type = Type(name: string, number: nat, elements: int, bytes: int)

  /** Elements of a block of the types with larger blocks. */
  const QK_K := 256

  const PLAIN_TYPES: seq<Type> := [
    Type("F32", 0, 1, 4), Type("F16", 1, 1, 2), Type("BF16", 30, 1, 2), Type("F64", 28, 1, 8), Type("F8_E4M3", 43, 1, 1),
    Type("I8", 24, 1, 1), Type("I16", 25, 1, 2), Type("I32", 26, 1, 4), Type("I64", 27, 1, 8)]

  const SMALL_BLOCKS: seq<Type> := [
    Type("Q4_0", 2, 32, 2 + 16), Type("Q4_1", 3, 32, 2 + 2 + 16), Type("Q5_0", 6, 32, 2 + 4 + 16),
    Type("Q5_1", 7, 32, 2 + 2 + 4 + 16), Type("Q8_0", 8, 32, 2 + 32), Type("Q8_1", 9, 32, 2 + 2 + 32),
    Type("IQ4_NL", 20, 32, 2 + 16), Type("MXFP4", 39, 32, 1 + 16), Type("NVFP4", 40, 64, 4 + 32),
    Type("Q1_0", 41, 128, 2 + 16), Type("Q2_0", 42, 64, 2 + 16)]

  const LARGE_BLOCKS: seq<Type> := [
    Type("Q2_K", 10, QK_K, 2 + 2 + QK_K / 16 + QK_K / 4), Type("Q3_K", 11, QK_K, 2 + QK_K / 4 + QK_K / 8 + 12),
    Type("Q4_K", 12, QK_K, 2 + 2 + QK_K / 2 + 12), Type("Q5_K", 13, QK_K, 2 + 2 + QK_K / 2 + QK_K / 8 + 12),
    Type("Q6_K", 14, QK_K, 2 + QK_K / 2 + QK_K / 4 + QK_K / 16), Type("Q8_K", 15, QK_K, 4 + QK_K + QK_K / 8)]

  const LARGE_CODED_BLOCKS: seq<Type> := [
    Type("IQ2_XXS", 16, QK_K, 2 + QK_K / 4), Type("IQ2_XS", 17, QK_K, 2 + QK_K / 4 + QK_K / 32),
    Type("IQ3_XXS", 18, QK_K, 2 + QK_K / 4 + QK_K / 8), Type("IQ1_S", 19, QK_K, 2 + QK_K / 8 + QK_K / 16),
    Type("IQ3_S", 21, QK_K, 2 + QK_K / 4 + QK_K / 8 + QK_K / 32 + 4),
    Type("IQ2_S", 22, QK_K, 2 + QK_K / 4 + QK_K / 16), Type("IQ4_XS", 23, QK_K, 2 + 2 + QK_K / 2 + QK_K / 64),
    Type("IQ1_M", 29, QK_K, QK_K / 8 + QK_K / 16 + QK_K / 32), Type("TQ1_0", 34, QK_K, 2 + 4 * 13),
    Type("TQ2_0", 35, QK_K, 2 + 64)]

  predicate Known(t: Type) {
    QuantSize(t.number) == Some((t.elements, t.bytes))
  }

  /** The reader knows each of these types. */
  lemma TypesKnown()
    ensures forall i | 0 <= i < |PLAIN_TYPES| :: Known(PLAIN_TYPES[i])
    ensures forall i | 0 <= i < |SMALL_BLOCKS| :: Known(SMALL_BLOCKS[i])
    ensures forall i | 0 <= i < |LARGE_BLOCKS| :: Known(LARGE_BLOCKS[i])
    ensures forall i | 0 <= i < |LARGE_CODED_BLOCKS| :: Known(LARGE_CODED_BLOCKS[i])
  {
    PlainKnown();
    SmallKnown();
    LargeKnown();
    CodedKnown();
  }

  lemma PlainKnown()
    ensures forall i | 0 <= i < |PLAIN_TYPES| :: Known(PLAIN_TYPES[i])
  {
  }

  lemma SmallKnown()
    ensures forall i | 0 <= i < |SMALL_BLOCKS| :: Known(SMALL_BLOCKS[i])
  {
  }

  lemma LargeKnown()
    ensures forall i | 0 <= i < |LARGE_BLOCKS| :: Known(LARGE_BLOCKS[i])
  {
  }

  lemma CodedKnown()
    ensures forall i | 0 <= i < |LARGE_CODED_BLOCKS| :: Known(LARGE_CODED_BLOCKS[i])
  {
  }

  predicate Listed(number: nat, types: seq<Type>) {
    exists i | 0 <= i < |types| :: types[i].number == number
  }

  /** It knows no others. */
  lemma NoOtherTypes(number: nat)
    requires QuantSize(number).Some?
    ensures Listed(number, PLAIN_TYPES + SMALL_BLOCKS + LARGE_BLOCKS + LARGE_CODED_BLOCKS)
  {
    var all := PLAIN_TYPES + SMALL_BLOCKS + LARGE_BLOCKS + LARGE_CODED_BLOCKS;
    var i := Place(number);
    assert i < |all| && all[i].number == number;
  }

  /** Where a type stands in the four lists. */
  function Place(number: nat): nat {
    if number == 0 then 0 else if number == 1 then 1 else if number == 30 then 2 else if number == 28 then 3
    else if number == 43 then 4 else if 24 <= number <= 27 then number - 19
    else if number == 2 then 9 else if number == 3 then 10 else if 6 <= number <= 9 then number + 5
    else if number == 20 then 15 else if 39 <= number <= 42 then number - 23
    else if 10 <= number <= 15 then number + 10 else if 16 <= number <= 19 then number + 10
    else if 21 <= number <= 23 then number + 9 else if number == 29 then 33
    else if number == 34 then 34 else if number == 35 then 35 else 0
  }
}
