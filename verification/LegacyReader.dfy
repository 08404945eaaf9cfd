/** The classes that read a legacy model file, each proved to yield what `Legacy` says reading is to yield. */
module LegacyReader {
  import opened Octets
  import opened Wrappers
  import opened Legacy

  class Hyperparameters {
    var vocab: nat
    var embd: nat
    var mult: nat
    var heads: nat
    var layers: nat
    var rot: nat
    var ff: nat
    var ftype: nat

    constructor ()
      ensures ftype == 0 && ff == 0
    {
      vocab, embd, mult, heads, layers, rot, ff, ftype := 0, 0, 0, 0, 0, 0, 0, 0;
    }

    function Numbers(): Hyper
      reads this
    {
      Hyper(vocab, embd, mult, heads, layers, rot, ftype)
    }

    /** Takes the seven numbers; an unknown file type is refused after the others are stored. */
    method Load(data: seq<Byte>, offset: nat) returns (r: Reading<nat>)
      modifies this
      ensures ff == old(ff)
      ensures match ReadHyper(data, offset)
        case Ok(read) => r == Ok(read.1 - offset) && Numbers() == read.0
        case Err(e) => r == Err(e) && ftype == old(ftype)
    {
      hide ReadU32, ReadU32s, KnownFtype;
      if |data| < offset + 28 {
        return Err(TooShort);
      }
      var n := ReadU32s(data, offset, 7);
      vocab, embd, mult, heads, layers, rot := n[0], n[1], n[2], n[3], n[4], n[5];
      if !KnownFtype(n[6]) {
        return Err(BadFtype);
      }
      ftype := n[6];
      return Ok(28);
    }
  }

  class Vocab {
    var items: seq<Item>
    const loadScores: bool

    constructor (loadScores: bool)
      ensures items == [] && this.loadScores == loadScores
    {
      items := [];
      this.loadScores := loadScores;
    }

    /** Appends the items that stand at the offset. */
    method Load(data: seq<Byte>, offset: nat, n: nat) returns (r: Reading<nat>)
      modifies this
      ensures match ReadItems(data, offset, n, loadScores)
        case Ok(read) => r == Ok(read.1 - offset) && items == old(items) + read.0
        case Err(e) => r == Err(e)
    {
      hide ReadU32, Slice;
      var at := offset;
      ghost var read: seq<Item> := [];
      ghost var all := ReadItems(data, offset, n, loadScores);
      NothingFirst(all);
      for i := 0 to n
        invariant offset <= at && items == old(items) + read
        invariant all == Following(read, ReadItems(data, at, n - i, loadScores))
      {
        ghost var one := ReadItem(data, at, loadScores);
        if |data| < at + 4 {
          return Err(TooShort);
        }
        var itemLen := ReadU32(data, at);
        if 4096 <= itemLen {
          return Err(AbsurdItem);
        }
        var end := at + 4 + itemLen;
        var text := Slice(data, at + 4, end);
        var score := 0;
        if loadScores {
          if |data| < end + 4 {
            return Err(TooShort);
          }
          score := ReadU32(data, end);
          end := end + 4;
        }
        items := items + [Item(text, score)];
        assert one == Ok((Item(text, score), end));
        FollowingTwice(read, [Item(text, score)], ReadItems(data, end, n - i - 1, loadScores));
        read := read + [Item(text, score)];
        at := end;
      }
      FollowingNothing(read, at);
      return Ok(at - offset);
    }
  }

  lemma FollowingTwice<T>(a: seq<T>, b: seq<T>, rest: Reading<(seq<T>, nat)>)
    ensures Following(a, Following(b, rest)) == Following(a + b, rest)
  {
    if rest.Ok? {
      assert a + (b + rest.value.0) == (a + b) + rest.value.0;
    }
  }

  lemma NothingFirst<T>(rest: Reading<(seq<T>, nat)>)
    ensures Following([], rest) == rest
  {
    if rest.Ok? {
      assert [] + rest.value.0 == rest.value.0;
    }
  }

  lemma FollowingNothing<T>(a: seq<T>, at: nat)
    ensures Following(a, Ok(([], at))) == Ok((a, at))
  {
    assert a + [] == a;
  }

  lemma BehindTwice<T>(a: seq<T>, b: seq<T>, rest: Outcome<(seq<T>, int)>)
    ensures Behind(a, Behind(b, rest)) == Behind(a + b, rest)
  {
    if rest.Done? {
      assert a + (b + rest.value.0) == (a + b) + rest.value.0;
    }
  }

  lemma NothingBehind<T>(rest: Outcome<(seq<T>, int)>)
    ensures Behind([], rest) == rest
  {
    if rest.Done? {
      assert [] + rest.value.0 == rest.value.0;
    }
  }

  lemma BehindNothing<T>(a: seq<T>, at: int)
    ensures Behind(a, Done(([], at))) == Done((a, at))
  {
    assert a + [] == a;
  }

  class TensorReader {
    var name: seq<Byte>
    var dims: seq<nat>
    var dtype: nat
    var startOffset: int
    var lenBytes: int
    const usePadding: bool

    constructor (usePadding: bool)
      ensures this.usePadding == usePadding
    {
      name, dims, dtype, startOffset, lenBytes := [], [], 0, 0, 0;
      this.usePadding := usePadding;
    }

    function Fields(): Tensor
      reads this
    {
      Tensor(name, dims, dtype, startOffset, lenBytes)
    }

    /** The returned distance is the difference to the next offset, in 64-bit arithmetic. */
    method Load(data: seq<Byte>, offset: int) returns (r: Reading<int>)
      modifies this
      ensures match ReadTensor(data, offset, usePadding)
        case Ok(read) => r == Ok(Wrap64(read.1 - offset)) && Fields() == read.0
        case Err(e) => r == Err(e)
    {
      hide QuantSize, ByteLength, Pad, ReadU32, ReadU32s, Slice, Wrap64;
      var sizes := Slice(data, offset, offset + 12);
      if |sizes| != 12 {
        return Err(TooShort);
      }
      var nDims, nameLen := ReadU32(sizes, 0), ReadU32(sizes, 4);
      dtype := ReadU32(sizes, 8);
      if 4 < nDims {
        return Err(BadDims);
      }
      if 4096 <= nameLen {
        return Err(AbsurdName);
      }
      var quant := QuantSize(dtype);
      if quant.None? {
        return Err(UnknownType);
      }
      var at := offset + 12;
      var numbers := Slice(data, at, at + 4 * nDims);
      if |numbers| != 4 * nDims {
        return Err(TooShort);
      }
      dims := ReadU32s(numbers, 0, nDims);
      at := at + 4 * nDims;
      name := Slice(data, at, at + nameLen);
      at := at + nameLen;
      if usePadding {
        at := at + Pad(at);
      }
      var bytes := ByteLength(dims, quant.value);
      startOffset, lenBytes := at, bytes;
      at := Wrap64(at + bytes);
      return Ok(Wrap64(at - offset));
    }
  }

  /** Adding a wrapped distance arrives where the distance leads. */
  lemma ArrivesThere(at: int, next: int)
    requires -TWO63 <= next < TWO63
    ensures Wrap64(at + Wrap64(next - at)) == next
  {
    var q := (next - at + TWO63) / TWO64;
    assert Wrap64(next - at) == next - at - q * TWO64;
    WrapsAlike(next, -q);
  }

  /** A name's entry is the last tensor that has it, and only names that occur have one. */
  ghost predicate Indexes(index: map<seq<Byte>, nat>, tensors: seq<Tensor>) {
    forall name ::
      if name in index then index[name] < |tensors| && LastNamed(tensors, name) == Some(tensors[index[name]])
      else LastNamed(tensors, name) == None
  }

  lemma NoneIndexed()
    ensures Indexes(map[], [])
  {
  }

  lemma IndexesMore(index: map<seq<Byte>, nat>, tensors: seq<Tensor>, t: Tensor)
    requires Indexes(index, tensors)
    ensures Indexes(index[t.name := |tensors|], tensors + [t])
  {
    var more, all := index[t.name := |tensors|], tensors + [t];
    assert all[..|tensors|] == tensors;
    forall name
      ensures if name in more then more[name] < |all| && LastNamed(all, name) == Some(all[more[name]])
        else LastNamed(all, name) == None
    {
      assert LastNamed(all, name) == if t.name == name then Some(t) else LastNamed(tensors, name);
    }
  }

  class GGMLModel {
    var fileFormat: Format
    var formatVersion: nat
    var hyperparameters: Hyperparameters?
    var vocab: Vocab?
    var tensors: seq<Tensor>
    var tensorMap: map<seq<Byte>, nat>

    constructor ()
      ensures hyperparameters == null && vocab == null && tensors == [] && tensorMap == map[]
    {
      fileFormat, formatVersion := GGML, 1;
      hyperparameters, vocab, tensors, tensorMap := null, null, [], map[];
    }

    function Contents(): Loaded
      requires hyperparameters != null && vocab != null
      reads this, hyperparameters, vocab
    {
      Loaded(Header(fileFormat, formatVersion), hyperparameters.Numbers(), vocab.items, tensors, hyperparameters.ff)
    }

    method ValidateHeader(data: seq<Byte>, offset: nat) returns (r: Reading<nat>)
      modifies this`fileFormat, this`formatVersion
      ensures match ReadHeader(data, offset)
        case Ok(read) => r == Ok(read.1 - offset) && Header(fileFormat, formatVersion) == read.0
        case Err(e) => r == Err(e) && fileFormat == old(fileFormat) && formatVersion == old(formatVersion)
    {
      hide ReadU32, Slice;
      var magic := Slice(data, offset, offset + 4);
      if magic == GGUF_MAGIC {
        return Err(AlreadyGguf);
      }
      if magic == GGML_MAGIC {
        fileFormat, formatVersion := GGML, 1;
        return Ok(4);
      }
      if |data| < offset + 8 {
        return Err(TooShort);
      }
      var version := ReadU32(data, offset + 4);
      if magic == GGMF_MAGIC {
        if version != 1 {
          return Err(BadVersion);
        }
        fileFormat, formatVersion := GGMF, version;
        return Ok(8);
      }
      if magic == GGJT_MAGIC {
        if version < 1 || 3 < version {
          return Err(BadVersion);
        }
        fileFormat, formatVersion := GGJT, version;
        return Ok(8);
      }
      return Err(BadMagic);
    }

    /** Whether files of this format and version may be converted with this file type. */
    method ValidateConversion(ftype: nat) returns (ok: bool)
      ensures ok == Eligible(Header(fileFormat, formatVersion), ftype)
    {
      ok := true;
      if fileFormat != GGJT || formatVersion < 2 {
        if ftype != 0 && ftype != 1 {
          ok := false;
        }
      } else if fileFormat == GGJT && formatVersion == 2 {
        if ftype in {2, 3, 4, 7} {
          ok := false;
        }
      }
    }

    /** Reads the tensors up to the end of the file; the loop ends unless it comes back to an offset. */
    method LoadTensors(data: seq<Byte>, offset: int)
      returns (r: Reading<int>, tensors: seq<Tensor>, index: map<seq<Byte>, nat>)
      requires ReadTensors(data, offset, fileFormat == GGJT) != Forever
      ensures Indexes(index, tensors)
      ensures match ReadTensors(data, offset, fileFormat == GGJT)
        case Done(read) => r == Ok(read.1) && tensors == read.0
        case Failed(e) => r == Err(e)
    {
      hide ReadTensor, Indexes, Wrap64;
      var padded := fileFormat == GGJT;
      var at := offset;
      tensors, index := [], map[];
      ghost var left: nat := 2 * |data| + 1;
      ghost var all := ReadTensors(data, offset, padded);
      NothingBehind(all);
      NoneIndexed();
      while at < |data|
        invariant Indexes(index, tensors)
        invariant all == Behind(tensors, Steps(data, at, padded, left))
        decreases left
      {
        ghost var one := ReadTensor(data, at, padded);
        var tensor := new TensorReader(padded);
        var length := tensor.Load(data, at);
        if length.Err? {
          return Err(length.error), tensors, index;
        }
        var t := tensor.Fields();
        TensorIs(data, at, padded);
        ArrivesThere(at, one.value.1);
        IndexesMore(index, tensors, t);
        left := left - 1;
        BehindTwice(tensors, [t], Steps(data, one.value.1, padded, left));
        at := Wrap64(at + length.value);
        index := index[t.name := |tensors|];
        tensors := tensors + [t];
      }
      BehindNothing(tensors, at);
      return Ok(at), tensors, index;
    }

    /** Takes the feed-forward size from the tensor that the index names. */
    method SetFeedForward() returns (r: Reading<nat>)
      requires hyperparameters != null && Indexes(tensorMap, tensors)
      modifies hyperparameters`ff
      ensures r == FeedForward(tensors)
      ensures r.Ok? ==> hyperparameters.ff == r.value
    {
      if FEED_FORWARD !in tensorMap {
        return Err(NoFeedForward);
      }
      var tensor := tensors[tensorMap[FEED_FORWARD]];
      if |tensor.dims| < 2 {
        return Err(FlatFeedForward);
      }
      hyperparameters.ff := tensor.dims[1];
      return Ok(tensor.dims[1]);
    }

    /** What stands in front of the tensors. */
    method LoadFront(data: seq<Byte>, offset: nat) returns (r: Reading<nat>, hp: Hyperparameters?, words: Vocab?)
      modifies this`fileFormat, this`formatVersion
      ensures match ReadFront(data, offset)
        case Ok(front) =>
          && r == Ok(front.end) && Header(fileFormat, formatVersion) == front.header
          && hp != null && words != null && fresh(hp) && fresh(words)
          && hp.Numbers() == front.hyper && words.items == front.items
        case Err(e) => r == Err(e)
    {
      hide ReadHeader, ReadHyper, ReadItems, Eligible;
      hp, words := null, null;
      var at := offset;
      var header := ValidateHeader(data, at);
      if header.Err? {
        return header, hp, words;
      }
      at := at + header.value;
      hp := new Hyperparameters();
      var numbers := hp.Load(data, at);
      if numbers.Err? {
        return numbers, hp, words;
      }
      at := at + numbers.value;
      var eligible := ValidateConversion(hp.ftype);
      if !eligible {
        return Err(NotEligible), hp, words;
      }
      words := new Vocab(fileFormat != GGML);
      var items := words.Load(data, at, hp.vocab);
      if items.Err? {
        return items, hp, words;
      }
      assert [] + words.items == words.items;
      return Ok(at + items.value), hp, words;
    }

    /** Reads a file: the new contents and the returned offset, or the error, are those of `Read`. */
    method Load(data: seq<Byte>, offset: nat) returns (r: Reading<int>)
      requires Read(data, offset) != Forever
      modifies this
      ensures match Read(data, offset)
        case Done(read) =>
          && r == Ok(read.1)
          && hyperparameters != null && vocab != null
          && fresh(hyperparameters) && fresh(vocab)
          && Contents() == read.0
          && Indexes(tensorMap, tensors)
        case Failed(e) => r == Err(e)
    {
      hide ReadFront, Steps, ReadTensors, FeedForward, Indexes, LastNamed;
      var front, hp, words := LoadFront(data, offset);
      if front.Err? {
        return Err(front.error);
      }
      var last, list, index := LoadTensors(data, front.value);
      if last.Err? {
        return last;
      }
      hyperparameters, vocab, tensors, tensorMap := hp, words, list, index;
      var ff := SetFeedForward();
      if ff.Err? {
        return Err(ff.error);
      }
      return last;
    }
  }
}
