/**
 * The legacy model files GGML, GGMF and GGJT: what a model holds, where its bytes stand in a file,
 * and what reading a file is to yield.
 */
module Legacy {
  import opened Octets
  import opened Wrappers

  datatype Format = GGML | GGMF | GGJT

  datatype Error =
    | AlreadyGguf
    | BadMagic
    | BadVersion
    | BadFtype
    | NotEligible
    | TooShort
    | AbsurdItem
    | BadDims
    | AbsurdName
    | UnknownType
    | NoFeedForward
    | FlatFeedForward

  /** What a reader yields, or why it refuses. */
  type Reading<T> = Result<T, Error>

  /** What becomes of a loop: it ends, it fails, or it never ends. */
  datatype Outcome<T> = Done(value: T) | Failed(error: Error) | Forever

  datatype Header = Header(format: Format, version: nat)

  /** The seven numbers in front of the vocabulary; the last is the file type. */
  datatype Hyper = Hyper(vocab: nat, embd: nat, mult: nat, heads: nat, layers: nat, rot: nat, ftype: nat)

  /** A vocabulary item; the score is kept as its 32-bit pattern. */
  datatype Item = Item(text: seq<Byte>, score: nat)

  /** What the reader keeps of a tensor: its data stay in the file, from `start` on. */
  datatype Tensor = Tensor(name: seq<Byte>, dims: seq<nat>, dtype: nat, start: int, length: int)

  datatype Loaded = Loaded(header: Header, hyper: Hyper, items: seq<Item>, tensors: seq<Tensor>, ff: nat)

  // ---------------------------------------------------------------- sizes

  const TWO63: int := 0x8000_0000_0000_0000
  const TWO64: int := 0x1_0000_0000_0000_0000

  /** A whole number as a 64-bit signed integer holds it. */
  function Wrap64(x: int): (r: int)
    ensures -TWO63 <= r < TWO63
    ensures r == x <==> -TWO63 <= x < TWO63
  {
    (x + TWO63) % TWO64 - TWO63
  }

  function Product(dims: seq<nat>): nat {
    if dims == [] then 1 else dims[0] * Product(dims[1..])
  }

  /** Elements in a block, and bytes of a block. */
  function QuantSize(dtype: nat): (r: Option<(int, int)>)
    ensures r.Some? ==> 1 <= r.value.0 <= 256 && 1 <= r.value.1 <= 292
  {
    if dtype == 0 then Some((1, 4))
    else if dtype in {1, 25, 30} then Some((1, 2))
    else if dtype in {2, 20} then Some((32, 18))
    else if dtype == 3 then Some((32, 20))
    else if dtype == 6 then Some((32, 22))
    else if dtype == 7 then Some((32, 24))
    else if dtype == 8 then Some((32, 34))
    else if dtype == 9 then Some((32, 36))
    else if dtype == 10 then Some((256, 84))
    else if dtype in {11, 21} then Some((256, 110))
    else if dtype == 12 then Some((256, 144))
    else if dtype == 13 then Some((256, 176))
    else if dtype == 14 then Some((256, 210))
    else if dtype == 15 then Some((256, 292))
    else if dtype in {16, 35} then Some((256, 66))
    else if dtype == 17 then Some((256, 74))
    else if dtype == 18 then Some((256, 98))
    else if dtype == 19 then Some((256, 50))
    else if dtype == 22 then Some((256, 82))
    else if dtype == 23 then Some((256, 136))
    else if dtype in {24, 43} then Some((1, 1))
    else if dtype == 26 then Some((1, 4))
    else if dtype in {27, 28} then Some((1, 8))
    else if dtype == 29 then Some((256, 56))
    else if dtype == 34 then Some((256, 54))
    else if dtype == 39 then Some((32, 17))
    else if dtype == 40 then Some((64, 36))
    else if dtype == 41 then Some((128, 18))
    else if dtype == 42 then Some((64, 18))
    else None
  }

  /** The number of bytes as the reader computes it, wrapping in 64 bits twice. */
  function ByteLength(dims: seq<nat>, size: (int, int)): int
    requires 1 <= size.0
  {
    Wrap64(Wrap64(Product(dims)) * size.1) / size.0
  }

  /** The computed length is the true one exactly when the product fits in 64 bits. */
  lemma LengthExact(dims: seq<nat>, size: (int, int))
    requires 1 <= size.0 <= 256 && 1 <= size.1
    ensures ByteLength(dims, size) == Product(dims) * size.1 / size.0 <==> Product(dims) * size.1 < TWO63
  {
    hide Wrap64, Product;
    WrapsOnce(Product(dims), size.1);
    Scaled(0, Product(dims), size.1);
    DividedExactly(Product(dims) * size.1, size.0);
  }

  lemma DividedExactly(x: nat, b: int)
    requires 1 <= b <= 256
    ensures Wrap64(x) / b == x / b <==> x < TWO63
  {
    if TWO63 <= x {
      WrapsFarDown(x);
      hide Wrap64;
      FloorsDiffer(Wrap64(x), x, b);
    }
  }

  lemma WrapsFarDown(x: int)
    requires TWO63 <= x
    ensures Wrap64(x) + 256 <= x
  {
  }

  lemma WrapsOnce(p: int, n: int)
    ensures Wrap64(Wrap64(p) * n) == Wrap64(p * n)
  {
    var q := (p + TWO63) / TWO64;
    assert Wrap64(p) == p - q * TWO64;
    assert (p - q * TWO64) * n == p * n + -(q * n) * TWO64;
    WrapsAlike(p * n, -(q * n));
  }

  lemma WrapsAlike(x: int, k: int)
    ensures Wrap64(x + k * TWO64) == Wrap64(x)
  {
    var q := (x + TWO63) / TWO64;
    assert x + k * TWO64 + TWO63 == (q + k) * TWO64 + (x + TWO63) % TWO64;
  }

  lemma FloorsDiffer(x: int, y: int, b: int)
    requires 1 <= b <= 256 && x + b <= y
    ensures x / b < y / b
  {
    var q, s := x / b, y / b;
    assert x == q * b + x % b && y == s * b + y % b;
    if s <= q {
      Scaled(s, q, b);
    }
  }

  lemma Scaled(s: int, q: int, b: int)
    requires s <= q && 1 <= b
    ensures s * b <= q * b
  {
  }

  /** A two-dimensional tensor of 32-bit floats whose computed length is negative. */
  lemma LengthCanBeNegative()
    ensures ByteLength([0x8000_0000, 0x4000_0000], (1, 4)) == -TWO63
  {
    assert Product([0x4000_0000]) == 0x4000_0000 by { assert Product([]) == 1; }
    assert [0x8000_0000, 0x4000_0000][1..] == [0x4000_0000];
  }

  /** The bytes up to the next multiple of 32. */
  function Pad(at: int): (r: nat)
    ensures r < 32 && (at + r) % 32 == 0
    ensures at % 32 == 0 ==> r == 0
  {
    (at + 31) / 32 * 32 - at
  }

  // ---------------------------------------------------------------- what reading yields

  predicate KnownFtype(ftype: nat) {
    ftype <= 4 || 7 <= ftype <= 18
  }

  predicate Eligible(h: Header, ftype: nat) {
    if h.format != GGJT || h.version < 2 then ftype <= 1
    else if h.version == 2 then ftype !in {2, 3, 4, 7}
    else true
  }

  const GGUF_MAGIC: seq<Byte> := [0x47, 0x47, 0x55, 0x46]
  const GGML_MAGIC: seq<Byte> := [0x6C, 0x6D, 0x67, 0x67]
  const GGMF_MAGIC: seq<Byte> := [0x66, 0x6D, 0x67, 0x67]
  const GGJT_MAGIC: seq<Byte> := [0x74, 0x6A, 0x67, 0x67]

  function ReadHeader(data: seq<Byte>, at: nat): Reading<(Header, nat)> {
    var magic := Slice(data, at, at + 4);
    if magic == GGUF_MAGIC then Err(AlreadyGguf)
    else if magic == GGML_MAGIC then Ok((Header(GGML, 1), at + 4))
    else if |data| < at + 8 then Err(TooShort)
    else
      var version := ReadU32(data, at + 4);
      if magic == GGMF_MAGIC then (if version != 1 then Err(BadVersion) else Ok((Header(GGMF, 1), at + 8)))
      else if magic == GGJT_MAGIC then
        (if version < 1 || 3 < version then Err(BadVersion) else Ok((Header(GGJT, version), at + 8)))
      else Err(BadMagic)
  }

  function ReadHyper(data: seq<Byte>, at: nat): Reading<(Hyper, nat)> {
    if |data| < at + 28 then Err(TooShort)
    else
      var n := ReadU32s(data, at, 7);
      if !KnownFtype(n[6]) then Err(BadFtype)
      else Ok((Hyper(n[0], n[1], n[2], n[3], n[4], n[5], n[6]), at + 28))
  }

  function ReadItem(data: seq<Byte>, at: nat, scores: bool): Reading<(Item, nat)> {
    if |data| < at + 4 then Err(TooShort)
    else
      var len := ReadU32(data, at);
      var end := at + 4 + len;
      if 4096 <= len then Err(AbsurdItem)
      else if !scores then Ok((Item(Slice(data, at + 4, end), 0), end))
      else if |data| < end + 4 then Err(TooShort)
      else Ok((Item(Slice(data, at + 4, end), ReadU32(data, end)), end + 4))
  }

  function ReadItems(data: seq<Byte>, at: nat, n: nat, scores: bool): Reading<(seq<Item>, nat)>
    decreases n
  {
    if n == 0 then Ok(([], at))
    else
      match ReadItem(data, at, scores)
      case Err(e) => Err(e)
      case Ok(one) => Following([one.0], ReadItems(data, one.1, n - 1, scores))
  }

  /** The outcome of reading on, after some entries have been read. */
  function Following<T>(first: seq<T>, rest: Reading<(seq<T>, nat)>): Reading<(seq<T>, nat)> {
    match rest
    case Err(e) => Err(e)
    case Ok(more) => Ok((first + more.0, more.1))
  }

  /** The three numbers in front of a tensor: how many dimensions, how long a name, and which element type. */
  datatype Head = Head(nDims: nat, nameLen: nat, dtype: nat)

  function ReadHead(data: seq<Byte>, at: int): Reading<Head> {
    var bytes := Slice(data, at, at + 12);
    if |bytes| != 12 then Err(TooShort)
    else
      var head := Head(ReadU32(bytes, 0), ReadU32(bytes, 4), ReadU32(bytes, 8));
      if 4 < head.nDims then Err(BadDims)
      else if 4096 <= head.nameLen then Err(AbsurdName)
      else if QuantSize(head.dtype).None? then Err(UnknownType)
      else Ok(head)
  }

  /** Where the data of a tensor start: behind its numbers, its name and the gap. */
  function StartOf(head: Head, at: int, padded: bool): (r: int)
    ensures at + 12 + 4 * head.nDims + head.nameLen <= r
    ensures padded ==> r % 32 == 0
  {
    var end := at + 12 + 4 * head.nDims + head.nameLen;
    if padded then end + Pad(end) else end
  }

  /**
   * A tensor, and the offset that reading goes on at. The offset is whatever the 64-bit addition of the computed
   * length gives: it can lie before the tensor, and it can be negative, which counts from the end of the file.
   */
  function ReadTensor(data: seq<Byte>, at: int, padded: bool): Reading<(Tensor, int)> {
    match ReadHead(data, at)
    case Err(e) => Err(e)
    case Ok(head) =>
      var nameAt := at + 12 + 4 * head.nDims;
      var numbers := Slice(data, at + 12, nameAt);
      if |numbers| != 4 * head.nDims then Err(TooShort)
      else
        var dims := ReadU32s(numbers, 0, head.nDims);
        var start := StartOf(head, at, padded);
        var length := ByteLength(dims, QuantSize(head.dtype).value);
        Ok((Tensor(Slice(data, nameAt, nameAt + head.nameLen), dims, head.dtype, start, length), Wrap64(start + length)))
  }

  /** The loop over the tensors, for at most n of them; `Forever` if it is not over by then. */
  function Steps(data: seq<Byte>, at: int, padded: bool, n: nat): Outcome<(seq<Tensor>, int)>
    decreases n
  {
    if |data| <= at then Done(([], at))
    else if n == 0 then Forever
    else
      match ReadTensor(data, at, padded)
      case Err(e) => Failed(e)
      case Ok(one) => Behind([one.0], Steps(data, one.1, padded, n - 1))
  }

  /** The outcome of a loop that goes on after some entries. */
  function Behind<T>(first: seq<T>, rest: Outcome<(seq<T>, int)>): Outcome<(seq<T>, int)> {
    match rest
    case Done(more) => Done((first + more.0, more.1))
    case Failed(e) => Failed(e)
    case Forever => Forever
  }

  /**
   * The loop over the tensors. Every readable offset is at least -|data| and below |data|; a loop that is not over
   * after one tensor more than there are such offsets has come back to one of them and never ends (`ForeverIs`).
   */
  function ReadTensors(data: seq<Byte>, at: int, padded: bool): Outcome<(seq<Tensor>, int)> {
    Steps(data, at, padded, 2 * |data| + 1)
  }

  /** "layers.0.feed_forward.w1.weight" */
  const FEED_FORWARD: seq<Byte> := [
    0x6C, 0x61, 0x79, 0x65, 0x72, 0x73, 0x2E, 0x30, 0x2E, 0x66, 0x65, 0x65, 0x64, 0x5F, 0x66, 0x6F,
    0x72, 0x77, 0x61, 0x72, 0x64, 0x2E, 0x77, 0x31, 0x2E, 0x77, 0x65, 0x69, 0x67, 0x68, 0x74]

  /** The last tensor with a name, if any. */
  function LastNamed(tensors: seq<Tensor>, name: seq<Byte>): (r: Option<Tensor>)
    ensures r.Some? ==> r.value in tensors && r.value.name == name
  {
    if tensors == [] then None
    else if tensors[|tensors| - 1].name == name then Some(tensors[|tensors| - 1])
    else LastNamed(tensors[..|tensors| - 1], name)
  }

  function FeedForward(tensors: seq<Tensor>): Reading<nat> {
    match LastNamed(tensors, FEED_FORWARD)
    case None => Err(NoFeedForward)
    case Some(t) => if |t.dims| < 2 then Err(FlatFeedForward) else Ok(t.dims[1])
  }

  /** What stands in front of the tensors. */
  datatype Front = Front(header: Header, hyper: Hyper, items: seq<Item>, end: nat)

  function ReadFront(data: seq<Byte>, at: nat): Reading<Front> {
    match ReadHeader(data, at)
    case Err(e) => Err(e)
    case Ok(header) =>
      match ReadHyper(data, header.1)
      case Err(e) => Err(e)
      case Ok(hyper) =>
        if !Eligible(header.0, hyper.0.ftype) then Err(NotEligible)
        else
          match ReadItems(data, hyper.1, hyper.0.vocab, header.0.format != GGML)
          case Err(e) => Err(e)
          case Ok(items) => Ok(Front(header.0, hyper.0, items.0, items.1))
  }

  predicate Padded(front: Front) {
    front.header.format == GGJT
  }

  /** Reading a file from an offset on: the model, and the offset at which reading stopped. */
  function Read(data: seq<Byte>, at: nat): Outcome<(Loaded, int)> {
    match ReadFront(data, at)
    case Err(e) => Failed(e)
    case Ok(front) =>
      match ReadTensors(data, front.end, Padded(front))
      case Failed(e) => Failed(e)
      case Forever => Forever
      case Done(tensors) =>
        match FeedForward(tensors.0)
        case Err(e) => Failed(e)
        case Ok(ff) => Done((Loaded(front.header, front.hyper, front.items, tensors.0, ff), tensors.1))
  }

  // ---------------------------------------------------------------- when the loop ends

  /** The offset after n tensors, while the loop goes on. */
  function OffsetAfter(data: seq<Byte>, at: int, padded: bool, n: nat): (r: Option<int>)
    ensures r.Some? ==> r.value < |data|
    decreases n
  {
    if |data| <= at then None
    else if n == 0 then Some(at)
    else
      match ReadTensor(data, at, padded)
      case Err(_) => None
      case Ok(one) => OffsetAfter(data, one.1, padded, n - 1)
  }

  lemma {:induction false} StepsOver(data: seq<Byte>, at: int, padded: bool, n: nat)
    ensures Steps(data, at, padded, n) == Forever <==> OffsetAfter(data, at, padded, n).Some?
    decreases n
  {
    hide ReadTensor;
    if at < |data| && n > 0 {
      var one := ReadTensor(data, at, padded);
      if one.Ok? { StepsOver(data, one.value.1, padded, n - 1); }
    }
  }

  /** Once the loop is over, allowing it more tensors changes nothing. */
  lemma {:induction false} StepsEnough(data: seq<Byte>, at: int, padded: bool, n: nat, m: nat)
    requires n <= m && Steps(data, at, padded, n) != Forever
    ensures Steps(data, at, padded, m) == Steps(data, at, padded, n)
    decreases n
  {
    hide ReadTensor;
    if at < |data| && n > 0 {
      var one := ReadTensor(data, at, padded);
      if one.Ok? { StepsEnough(data, one.value.1, padded, n - 1, m - 1); }
    }
  }

  lemma {:induction false} OffsetChain(data: seq<Byte>, at: int, padded: bool, n: nat, m: nat)
    ensures OffsetAfter(data, at, padded, n + m) ==
      match OffsetAfter(data, at, padded, n)
      case Some(x) => OffsetAfter(data, x, padded, m)
      case None => None
    decreases n
  {
    hide ReadTensor;
    if at < |data| && n > 0 {
      var one := ReadTensor(data, at, padded);
      if one.Ok? { OffsetChain(data, one.value.1, padded, n - 1, m); }
    }
  }

  /** A readable offset is at least as large as minus the length of the file. */
  lemma ReadableOffset(data: seq<Byte>, at: int, padded: bool)
    requires ReadTensor(data, at, padded).Ok?
    ensures -|data| <= at
  {
    hide ByteLength, QuantSize, ReadU32, ReadU32s, StartOf, Wrap64;
  }

  lemma PassedOffset(data: seq<Byte>, at: int, padded: bool, n: nat)
    requires OffsetAfter(data, at, padded, n + 1).Some?
    ensures OffsetAfter(data, at, padded, n).Some? && -|data| <= OffsetAfter(data, at, padded, n).value < |data|
  {
    OffsetChain(data, at, padded, n, 1);
    hide ReadTensor;
    ReadableOffset(data, OffsetAfter(data, at, padded, n).value, padded);
  }

  /** The loop comes back to an offset. */
  ghost predicate ComesBack(data: seq<Byte>, at: int, padded: bool) {
    exists i: nat, j: nat :: SameOffset(data, at, padded, i, j)
  }

  predicate SameOffset(data: seq<Byte>, at: int, padded: bool, i: nat, j: nat) {
    i < j && OffsetAfter(data, at, padded, i).Some?
    && OffsetAfter(data, at, padded, i) == OffsetAfter(data, at, padded, j)
  }

  lemma {:induction false} ComesBackForever(data: seq<Byte>, at: int, padded: bool, i: nat, j: nat, n: nat)
    requires SameOffset(data, at, padded, i, j)
    ensures OffsetAfter(data, at, padded, n).Some?
    decreases n
  {
    hide OffsetAfter;
    if n <= j {
      OffsetChain(data, at, padded, n, j - n);
    } else {
      ComesBackForever(data, at, padded, i, j, i + (n - j));
      OffsetChain(data, at, padded, i, n - j);
      OffsetChain(data, at, padded, j, n - j);
    }
  }

  /** Different whole numbers from a range are no more than the range holds. */
  lemma {:induction false} DistinctAreFew(s: seq<int>, lo: int, hi: int)
    requires lo <= hi && forall i | 0 <= i < |s| :: lo <= s[i] < hi
    requires forall i, j | 0 <= i < j < |s| :: s[i] != s[j]
    ensures |s| <= hi - lo
    decreases hi - lo
  {
    if s != [] {
      var x := s[0];
      assert lo <= x < hi;
      if hi - 1 in s {
        var k :| 0 <= k < |s| && s[k] == hi - 1;
        DistinctAreFew(s[..k] + s[k + 1..], lo, hi - 1);
      } else {
        DistinctAreFew(s, lo, hi - 1);
      }
    }
  }

  lemma {:induction false} OffsetsSoFar(data: seq<Byte>, at: int, padded: bool, n: nat) returns (s: seq<int>)
    requires OffsetAfter(data, at, padded, n).Some?
    ensures |s| == n && forall i: nat | i < n :: OffsetAfter(data, at, padded, i) == Some(s[i]) && -|data| <= s[i] < |data|
    decreases n
  {
    hide OffsetAfter;
    s := [];
    if n > 0 {
      PassedOffset(data, at, padded, n - 1);
      s := OffsetsSoFar(data, at, padded, n - 1);
      s := s + [OffsetAfter(data, at, padded, n - 1).value];
    }
  }

  lemma LongRunsComeBack(data: seq<Byte>, at: int, padded: bool)
    requires OffsetAfter(data, at, padded, 2 * |data| + 1).Some?
    ensures ComesBack(data, at, padded)
  {
    hide OffsetAfter;
    var s := OffsetsSoFar(data, at, padded, 2 * |data| + 1);
    if forall i, j | 0 <= i < j < |s| :: s[i] != s[j] {
      DistinctAreFew(s, -|data|, |data|);
    } else {
      var i, j :| 0 <= i < j < |s| && s[i] == s[j];
      assert SameOffset(data, at, padded, i, j);
    }
  }

  /** The loop never ends exactly when it comes back to an offset; that is what `Forever` says. */
  lemma ForeverIs(data: seq<Byte>, at: int, padded: bool)
    ensures ReadTensors(data, at, padded) == Forever <==> ComesBack(data, at, padded)
    ensures ReadTensors(data, at, padded) == Forever <==> forall n: nat :: Steps(data, at, padded, n) == Forever
  {
    hide OffsetAfter, Steps;
    var n: nat := 2 * |data| + 1;
    StepsOver(data, at, padded, n);
    if ReadTensors(data, at, padded) == Forever {
      LongRunsComeBack(data, at, padded);
    }
    if ComesBack(data, at, padded) {
      var i: nat, j: nat :| SameOffset(data, at, padded, i, j);
      forall m: nat ensures Steps(data, at, padded, m) == Forever {
        ComesBackForever(data, at, padded, i, j, m);
        StepsOver(data, at, padded, m);
      }
    }
  }

  // ---------------------------------------------------------------- how far a tensor advances

  lemma TensorIs(data: seq<Byte>, at: int, padded: bool)
    requires ReadTensor(data, at, padded).Ok?
    ensures var r := ReadTensor(data, at, padded).value;
      && ReadHead(data, at).Ok?
      && r.0.start == StartOf(ReadHead(data, at).value, at, padded)
      && -TWO63 <= r.0.length < TWO63
      && r.1 == Wrap64(r.0.start + r.0.length)
  {
    HeadBounds(data, at);
    hide ReadHead, ReadU32, ReadU32s, Slice, StartOf, Product, QuantSize, Wrap64;
    var head := ReadHead(data, at).value;
    var size := QuantSize(head.dtype).value;
    var dims := ReadU32s(Slice(data, at + 12, at + 12 + 4 * head.nDims), 0, head.nDims);
    QuotientFits(Wrap64(Wrap64(Product(dims)) * size.1), size.0);
  }

  /** A quotient is no further from zero. */
  lemma QuotientFits(x: int, b: int)
    requires 1 <= b
    ensures x >= 0 ==> 0 <= x / b <= x
    ensures x < 0 ==> x <= x / b < 0
  {
    var q := x / b;
    assert x == q * b + x % b;
    if x < 0 && q < x {
      Scaled(q, x - 1, b);
      assert (x - 1) * b == x * b - b;
      Scaled(1, b, -x);
    } else if x >= 0 && q > x {
      Scaled(x + 1, q, b);
      assert (x + 1) * b == x * b + b;
      Scaled(1, b, x + 1);
    }
  }

  /** A tensor from its parts. */
  lemma TensorMade(data: seq<Byte>, at: int, padded: bool, head: Head, dims: seq<nat>)
    requires ReadHead(data, at) == Ok(head) && QuantSize(head.dtype).Some?
    requires var numbers := Slice(data, at + 12, at + 12 + 4 * head.nDims);
      |numbers| == 4 * head.nDims && ReadU32s(numbers, 0, head.nDims) == dims
    ensures var nameAt := at + 12 + 4 * head.nDims;
      var start := StartOf(head, at, padded);
      var length := ByteLength(dims, QuantSize(head.dtype).value);
      ReadTensor(data, at, padded) ==
      Ok((Tensor(Slice(data, nameAt, nameAt + head.nameLen), dims, head.dtype, start, length), Wrap64(start + length)))
  {
    hide ReadHead, ReadU32s, Slice, StartOf, ByteLength, QuantSize, Wrap64;
  }

  /**
   * Reading goes on at least 12 bytes later exactly when the computed length does not take back more than the
   * numbers, the name and the gap take up, and the sum of offset and length fits in 64 bits.
   */
  lemma AdvancesExactly(data: seq<Byte>, at: nat, padded: bool)
    requires ReadTensor(data, at, padded).Ok? && |data| < 0x4000_0000_0000_0000
    ensures var r := ReadTensor(data, at, padded).value;
      var head := ReadHead(data, at).value;
      var end := at + 12 + 4 * head.nDims + head.nameLen;
      var gap := if padded then Pad(end) else 0;
      at + 12 <= r.1 <==> 0 <= 4 * head.nDims + head.nameLen + gap + r.0.length && r.0.start + r.0.length < TWO63
  {
    TensorIs(data, at, padded);
    HeadInside(data, at);
    HeadBounds(data, at);
    hide ReadTensor, ReadHead, Pad, Wrap64;
    var r := ReadTensor(data, at, padded).value;
    WrapsOver(r.0.start, r.0.length);
  }

  lemma WrapsOver(start: int, length: int)
    requires 0 <= start < 0x4000_0000_0001_0000 && -TWO63 <= length < TWO63
    ensures Wrap64(start + length) == if TWO63 <= start + length then start + length - TWO64 else start + length
  {
    if TWO63 <= start + length { WrapsAlike(start + length - TWO64, 1); }
  }

  lemma HeadInside(data: seq<Byte>, at: nat)
    requires ReadHead(data, at).Ok?
    ensures at + 12 <= |data|
  {
    hide ReadU32, QuantSize;
    WholeSlice(data, at, 12);
  }

  lemma HeadBounds(data: seq<Byte>, at: int)
    requires ReadHead(data, at).Ok?
    ensures ReadHead(data, at).value.nDims <= 4 && ReadHead(data, at).value.nameLen < 4096
    ensures QuantSize(ReadHead(data, at).value.dtype).Some?
  {
    hide ReadU32, QuantSize, Slice;
  }

  /** Three dimensions of 32-bit floats whose computed length is minus the length of their numbers. */
  const STUCK_NUMBERS: seq<nat> := [3, 0, 0, 3897942, 3124327, 4544113]

  lemma StuckLength()
    ensures ByteLength([3897942, 3124327, 4544113], (1, 4)) == -24
  {
    var d := [3897942, 3124327, 4544113];
    assert d[1..] == [3124327, 4544113] && d[1..][1..] == [4544113] && d[1..][1..][1..] == [];
    assert Product(d[1..][1..]) == 4544113;
    assert Product(d[1..]) == 3124327 * 4544113;
    assert Product(d) == 3897942 * (3124327 * 4544113);
  }

  lemma StuckRead(data: seq<Byte>, at: nat)
    requires Has(data, at, U32s(STUCK_NUMBERS)) && at < TWO63
    ensures ReadTensor(data, at, false) == Ok((Tensor([], [3897942, 3124327, 4544113], 0, at + 24, -24), at))
  {
    StuckHead(data, at);
    StuckLength();
    assert QuantSize(0) == Some((1, 4));
    hide ByteLength, ReadU32, ReadU32s, ReadTensor, ReadHead, Has, QuantSize, U32s;
    TensorMade(data, at, false, Head(3, 0, 0), [3897942, 3124327, 4544113]);
    WholeSlice(data, at + 24, 0);
  }

  /** Where these numbers stand, unpadded, with no name, the loop stays: it appends the same tensor for ever. */
  lemma StuckTensor(data: seq<Byte>, at: nat)
    requires Has(data, at, U32s(STUCK_NUMBERS)) && at < TWO63
    ensures ReadTensor(data, at, false).Ok? && ReadTensor(data, at, false).value.1 == at
    ensures ReadTensors(data, at, false) == Forever
  {
    StuckRead(data, at);
    StuckHead(data, at);
    hide ReadTensor, Has, ReadTensors, U32s;
    var one := ReadTensor(data, at, false).value;
    assert OffsetAfter(data, at, false, 0) == Some(at);
    assert OffsetAfter(data, at, false, 1) == OffsetAfter(data, one.1, false, 0);
    assert SameOffset(data, at, false, 0, 1);
    ForeverIs(data, at, false);
  }

  lemma StuckHead(data: seq<Byte>, at: nat)
    requires Has(data, at, U32s(STUCK_NUMBERS))
    ensures at + 24 <= |data| && ReadHead(data, at) == Ok(Head(3, 0, 0))
    ensures ReadU32s(Slice(data, at + 12, at + 24), 0, 3) == [3897942, 3124327, 4544113]
  {
    assert STUCK_NUMBERS == [3, 0, 0] + [3897942, 3124327, 4544113];
    U32sConcat([3, 0, 0], [3897942, 3124327, 4544113]);
    HasBoth(data, at, U32s([3, 0, 0]), U32s([3897942, 3124327, 4544113]));
    SlicedNumbers(data, at, [3, 0, 0]);
    SlicedNumbers(data, at + 12, [3897942, 3124327, 4544113]);
    ThreeNumbers(Slice(data, at, at + 12));
  }

  /** Numbers that stand somewhere can be read from the slice that holds them. */
  lemma SlicedNumbers(data: seq<Byte>, at: nat, ns: seq<nat>)
    requires (forall i | 0 <= i < |ns| :: ns[i] < TWO32) && Has(data, at, U32s(ns))
    ensures |Slice(data, at, at + 4 * |ns|)| == 4 * |ns|
    ensures ReadU32s(Slice(data, at, at + 4 * |ns|), 0, |ns|) == ns
  {
    hide U32s, ReadU32s;
    HasSlice(data, at, U32s(ns));
    WholeHas(U32s(ns));
    ReadAllWritten(U32s(ns), 0, ns);
  }

  lemma ThreeNumbers(bytes: seq<Byte>)
    requires |bytes| == 12
    ensures ReadU32s(bytes, 0, 3) == [ReadU32(bytes, 0), ReadU32(bytes, 4), ReadU32(bytes, 8)]
  {
    hide ReadU32;
    assert ReadU32s(bytes, 0, 3) == [ReadU32(bytes, 0)] + ([ReadU32(bytes, 4)] + ([ReadU32(bytes, 8)] + []));
  }

  // ---------------------------------------------------------------- where the data of the tensors stand

  /** No computed length is negative, and no offset leaves the 64-bit range: a check that goes through the file once. */
  predicate Forward(data: seq<Byte>, at: int, padded: bool)
    decreases |data| - at
  {
    |data| <= at ||
    match ReadTensor(data, at, padded)
    case Err(_) => true
    case Ok(one) =>
      TensorIs(data, at, padded);
      0 <= one.0.length && one.0.start + one.0.length < TWO63 && one.1 > at && Forward(data, one.1, padded)
  }

  /** Such a loop ends: each tensor takes at least 12 bytes. */
  lemma {:induction false} ForwardEnds(data: seq<Byte>, at: int, padded: bool, n: nat)
    requires Forward(data, at, padded) && -TWO63 <= at && |data| - at <= 12 * n
    ensures Steps(data, at, padded, n) != Forever
    decreases n
  {
    hide ReadTensor;
    if at < |data| {
      var one := ReadTensor(data, at, padded);
      if one.Ok? {
        TensorIs(data, at, padded);
        ForwardEnds(data, one.value.1, padded, n - 1);
      }
    }
  }

  lemma ForwardStops(data: seq<Byte>, at: nat, padded: bool)
    requires Forward(data, at, padded)
    ensures ReadTensors(data, at, padded) != Forever
  {
    hide Steps, Forward;
    ForwardEnds(data, at, padded, |data|);
    StepsEnough(data, at, padded, |data|, 2 * |data| + 1);
  }

  /**
   * Data in file order: each tensor has room for its 12 bytes of sizes after the data before it, none has a
   * negative length, only the data of the last may pass the limit, and padded data start on multiples of 32.
   */
  predicate Placed(tensors: seq<Tensor>, from: int, end: int, padded: bool, limit: nat) {
    if tensors == [] then from == end
    else
      var t := tensors[0];
      && from + 12 <= t.start && 0 <= t.length
      && (padded ==> t.start % 32 == 0)
      && (|tensors| > 1 ==> t.start + t.length < limit)
      && Placed(tensors[1..], t.start + t.length, end, padded, limit)
  }

  /** A loop that ends has placed the data one after the other exactly when it only went forward. */
  lemma {:induction false} StepsPlaced(data: seq<Byte>, at: int, padded: bool, n: nat)
    requires Steps(data, at, padded, n).Done? && -TWO63 <= at && |data| < TWO63
    ensures var r := Steps(data, at, padded, n).value;
      |data| <= r.1 && (Placed(r.0, at, r.1, padded, |data|) <==> Forward(data, at, padded))
    decreases n
  {
    hide ReadTensor;
    if at < |data| {
      var one := ReadTensor(data, at, padded).value;
      TensorIs(data, at, padded);
      StepsPlaced(data, one.1, padded, n - 1);
      var rest := Steps(data, one.1, padded, n - 1).value;
      var r := Steps(data, at, padded, n).value;
      assert r.0 == [one.0] + rest.0 && r.0[0] == one.0 && r.0[1..] == rest.0;
      FirstPlaced(data, one.0, one.1, rest.0, rest.1, padded);
    }
  }

  /** Behind the first tensor: its data end where reading goes on, unless the sum does not fit in 64 bits. */
  lemma FirstPlaced(data: seq<Byte>, t: Tensor, next: int, rest: seq<Tensor>, end: int, padded: bool)
    requires next == Wrap64(t.start + t.length) && -TWO63 <= t.start && |data| <= end && |data| < TWO63
    requires rest == [] <==> |data| <= next
    requires rest == [] ==> end == next
    ensures 0 <= t.length && Placed(rest, t.start + t.length, end, padded, |data|)
        && (rest != [] ==> t.start + t.length < |data|)
      ==> t.start + t.length < TWO63
    ensures t.start + t.length < TWO63 && 0 <= t.length ==> next == t.start + t.length
  {
  }

  lemma {:induction false} PlacedOne(tensors: seq<Tensor>, from: int, end: int, padded: bool, limit: nat, j: nat)
    requires Placed(tensors, from, end, padded, limit) && j < |tensors|
    ensures from + 12 <= tensors[j].start <= tensors[j].start + tensors[j].length <= end
    ensures padded ==> tensors[j].start % 32 == 0
    ensures j < |tensors| - 1 ==> tensors[j].start + tensors[j].length < limit
    decreases |tensors|
  {
    var rest := tensors[1..];
    var next := tensors[0].start + tensors[0].length;
    if j > 0 {
      PlacedOne(rest, next, end, padded, limit, j - 1);
    } else {
      PlacedCount(rest, next, end, padded, limit);
    }
  }

  lemma {:induction false} PlacedTwo(
    tensors: seq<Tensor>, from: int, end: int, padded: bool, limit: nat, i: nat, j: nat)
    requires Placed(tensors, from, end, padded, limit) && i < j < |tensors|
    ensures tensors[i].start + tensors[i].length + 12 <= tensors[j].start
    decreases |tensors|
  {
    var rest := tensors[1..];
    var next := tensors[0].start + tensors[0].length;
    if i > 0 {
      PlacedTwo(rest, next, end, padded, limit, i - 1, j - 1);
    } else {
      PlacedOne(rest, next, end, padded, limit, j - 1);
    }
  }

  lemma {:induction false} PlacedCount(tensors: seq<Tensor>, from: int, end: int, padded: bool, limit: nat)
    requires Placed(tensors, from, end, padded, limit)
    ensures from + 12 * |tensors| <= end
    decreases |tensors|
  {
    if tensors != [] {
      PlacedCount(tensors[1..], tensors[0].start + tensors[0].length, end, padded, limit);
    }
  }

  /** The check for a whole file. */
  predicate ForwardFile(data: seq<Byte>, at: nat) {
    match ReadFront(data, at)
    case Err(_) => true
    case Ok(front) => Forward(data, front.end, Padded(front))
  }

  /** A file that only goes forward is read in finitely many steps, to a model or to an error. */
  lemma ForwardFileStops(data: seq<Byte>, at: nat)
    requires ForwardFile(data, at)
    ensures Read(data, at) != Forever
  {
    hide ReadFront, ReadTensors, Forward, FeedForward;
    var front := ReadFront(data, at);
    if front.Ok? { ForwardStops(data, front.value.end, Padded(front.value)); }
  }

  /** A file that is read has its data in order, without overlap, exactly when it only goes forward. */
  lemma PlacedExactly(data: seq<Byte>, at: nat)
    requires Read(data, at).Done? && |data| < TWO63
    ensures var r := Read(data, at).value;
      var front := ReadFront(data, at).value;
      |data| <= r.1 && (Placed(r.0.tensors, front.end, r.1, Padded(front), |data|) <==> ForwardFile(data, at))
  {
    hide ReadFront, Steps, Forward, FeedForward, Placed;
    var front := ReadFront(data, at).value;
    StepsPlaced(data, front.end, Padded(front), 2 * |data| + 1);
  }

  /**
   * For every file that is read and only goes forward: the data of different tensors do not overlap and come in
   * order with at least 12 bytes between, all but the last end inside the file, the last does exactly when the
   * returned offset is the length of the file, and in GGJT files all start on multiples of 32.
   */
  lemma DataRanges(data: seq<Byte>, at: nat)
    requires Read(data, at).Done? && |data| < TWO63 && ForwardFile(data, at)
    ensures var r := Read(data, at).value;
      var ts := r.0.tensors;
      && |data| <= r.1
      && (forall i, j | 0 <= i < j < |ts| :: ts[i].start + ts[i].length + 12 <= ts[j].start)
      && (forall i | 0 <= i < |ts| :: at <= ts[i].start <= ts[i].start + ts[i].length <= r.1)
      && (forall i | 0 <= i < |ts| - 1 :: ts[i].start + ts[i].length < |data|)
      && (r.0.header.format == GGJT ==> forall i | 0 <= i < |ts| :: ts[i].start % 32 == 0)
  {
    FrontAdvances(data, at);
    PlacedExactly(data, at);
    hide ReadFront, ReadTensors, Forward, ForwardFile, FeedForward, Placed;
    var front := ReadFront(data, at).value;
    var r := Read(data, at).value;
    PlacedRanges(r.0.tensors, front.end, r.1, Padded(front), |data|);
  }

  lemma PlacedRanges(ts: seq<Tensor>, from: int, end: int, padded: bool, limit: nat)
    requires Placed(ts, from, end, padded, limit)
    ensures forall i, j | 0 <= i < j < |ts| :: ts[i].start + ts[i].length + 12 <= ts[j].start
    ensures forall i | 0 <= i < |ts| :: from <= ts[i].start <= ts[i].start + ts[i].length <= end
    ensures forall i | 0 <= i < |ts| - 1 :: ts[i].start + ts[i].length < limit
    ensures padded ==> forall i | 0 <= i < |ts| :: ts[i].start % 32 == 0
  {
    hide Placed;
    forall i, j | 0 <= i < j < |ts|
      ensures ts[i].start + ts[i].length + 12 <= ts[j].start
    {
      PlacedTwo(ts, from, end, padded, limit, i, j);
    }
    forall i | 0 <= i < |ts|
      ensures from <= ts[i].start <= ts[i].start + ts[i].length <= end
      ensures i < |ts| - 1 ==> ts[i].start + ts[i].length < limit
      ensures padded ==> ts[i].start % 32 == 0
    {
      PlacedOne(ts, from, end, padded, limit, i);
    }
  }

  lemma {:induction false} ItemsAdvance(data: seq<Byte>, at: nat, n: nat, scores: bool)
    requires ReadItems(data, at, n, scores).Ok?
    ensures at <= ReadItems(data, at, n, scores).value.1 && |ReadItems(data, at, n, scores).value.0| == n
    decreases n
  {
    if n > 0 { ItemsAdvance(data, ReadItem(data, at, scores).value.1, n - 1, scores); }
  }

  lemma FrontAdvances(data: seq<Byte>, at: nat)
    requires ReadFront(data, at).Ok?
    ensures at <= ReadFront(data, at).value.end
  {
    hide ReadItems, ReadU32, ReadU32s, Slice, Eligible;
    var (header, a) := ReadHeader(data, at).value;
    var (hyper, b) := ReadHyper(data, a).value;
    ItemsAdvance(data, b, hyper.vocab, header.format != GGML);
  }

  // ---------------------------------------------------------------- a file on which reading never ends

  const STUCK_FILE: seq<Byte> := GGML_MAGIC + (U32s([0, 0, 0, 0, 0, 0, 0]) + U32s(STUCK_NUMBERS))

  /** A file of 56 bytes without vocabulary, of which the last 24 are read again and again. */
  lemma StuckFile()
    ensures |STUCK_FILE| == 56 && Read(STUCK_FILE, 0) == Forever
  {
    StuckParts();
    hide *;
    StuckFront(STUCK_FILE);
    StuckBehind(STUCK_FILE);
  }

  lemma StuckParts()
    ensures |STUCK_FILE| == 56
    ensures Has(STUCK_FILE, 0, GGML_MAGIC)
    ensures Has(STUCK_FILE, 4, U32s([0, 0, 0, 0, 0, 0, 0]))
    ensures Has(STUCK_FILE, 32, U32s(STUCK_NUMBERS))
  {
    hide Has, U32s;
    var data, numbers := STUCK_FILE, [0, 0, 0, 0, 0, 0, 0];
    WholeHas(data);
    HasBoth(data, 0, GGML_MAGIC, U32s(numbers) + U32s(STUCK_NUMBERS));
    HasBoth(data, 4, U32s(numbers), U32s(STUCK_NUMBERS));
  }

  lemma StuckFront(data: seq<Byte>)
    requires Has(data, 0, GGML_MAGIC) && Has(data, 4, U32s([0, 0, 0, 0, 0, 0, 0]))
    ensures ReadFront(data, 0) == Ok(Front(Header(GGML, 1), Hyper(0, 0, 0, 0, 0, 0, 0), [], 32))
  {
    HasSlice(data, 0, GGML_MAGIC);
    ReadAllWritten(data, 4, [0, 0, 0, 0, 0, 0, 0]);
    hide U32s, ReadU32s, ReadU32, Slice, Has;
    assert ReadHeader(data, 0) == Ok((Header(GGML, 1), 4));
    assert ReadHyper(data, 4) == Ok((Hyper(0, 0, 0, 0, 0, 0, 0), 32));
  }

  lemma StuckBehind(data: seq<Byte>)
    requires ReadFront(data, 0) == Ok(Front(Header(GGML, 1), Hyper(0, 0, 0, 0, 0, 0, 0), [], 32))
    requires Has(data, 32, U32s(STUCK_NUMBERS))
    ensures Read(data, 0) == Forever
  {
    StuckTensor(data, 32);
    hide ReadFront, ReadTensors;
  }
}
