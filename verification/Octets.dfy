/** Bytes, and what it means that some bytes stand at a place in a file. */
module Octets {

  newtype Byte = x: int | 0 <= x < 256

  predicate Narrow(text: string) {
    forall i | 0 <= i < |text| :: text[i] as int < 256
  }

  /** The bytes of a text whose characters are one byte each. */
  function Codes(text: string): (r: seq<Byte>)
    requires Narrow(text)
    ensures |r| == |text| && forall i | 0 <= i < |r| :: r[i] as int == text[i] as int
  {
    seq(|text|, i requires 0 <= i < |text| && text[i] as int < 256 => text[i] as int as Byte)
  }

  /** A slice bound as Python takes it: a negative one counts from the end, and both ends clamp. */
  function Bound(i: int, n: nat): (r: nat)
    ensures r <= n
  {
    if i < 0 then (if i + n < 0 then 0 else i + n) else if i < n then i else n
  }

  /** A slice as Python takes it: what is there of it. */
  function Slice(data: seq<Byte>, lo: int, hi: int): (r: seq<Byte>)
    ensures |r| <= |data|
  {
    var l, h := Bound(lo, |data|), Bound(hi, |data|);
    if l <= h then data[l..h] else []
  }

  /** A slice of full length that starts at no negative place lies where it says. */
  lemma WholeSlice(data: seq<Byte>, lo: nat, n: nat)
    ensures |Slice(data, lo, lo + n)| == n <==> lo + n <= |data| || n == 0
    ensures lo + n <= |data| ==> Slice(data, lo, lo + n) == data[lo..lo + n]
  {
  }

  predicate Has(data: seq<Byte>, at: nat, bytes: seq<Byte>) {
    at + |bytes| <= |data| && data[at..at + |bytes|] == bytes
  }

  lemma HasSlice(data: seq<Byte>, at: nat, bytes: seq<Byte>)
    requires Has(data, at, bytes)
    ensures Slice(data, at, at + |bytes|) == bytes
  {
  }

  lemma HasBoth(data: seq<Byte>, at: nat, a: seq<Byte>, b: seq<Byte>)
    ensures Has(data, at, a + b) <==> Has(data, at, a) && Has(data, at + |a|, b)
  {
    if at + |a| + |b| <= |data| {
      var all := data[at..at + |a| + |b|];
      assert all[..|a|] == data[at..at + |a|] && all[|a|..] == data[at + |a|..at + |a| + |b|];
      assert (a + b)[..|a|] == a && (a + b)[|a|..] == b;
      if Has(data, at, a) && Has(data, at + |a|, b) {
        assert all == all[..|a|] + all[|a|..];
      }
    }
  }

  // ---------------------------------------------------------------- 32-bit numbers, little endian

  const TWO32: nat := 0x1_0000_0000

  function U32(n: nat): (r: seq<Byte>)
    requires n < TWO32
    ensures |r| == 4
  {
    [(n % 256) as Byte, (n / 256 % 256) as Byte, (n / 65536 % 256) as Byte, (n / 16777216) as Byte]
  }

  function ReadU32(data: seq<Byte>, at: nat): (n: nat)
    requires at + 4 <= |data|
    ensures n < TWO32
  {
    data[at] as nat + data[at + 1] as nat * 256 + data[at + 2] as nat * 65536 + data[at + 3] as nat * 16777216
  }

  /** The lowest byte comes first. */
  lemma LowByteFirst(a: Byte, b: Byte, c: Byte, d: Byte)
    ensures var n := a as nat + b as nat * 0x100 + c as nat * 0x1_0000 + d as nat * 0x100_0000;
      n < TWO32 && U32(n) == [a, b, c, d] && ReadU32([a, b, c, d], 0) == n
  {
    DigitsOf(a as nat, b as nat, c as nat, d as nat);
  }

  lemma FourDigits(n: nat)
    requires n < TWO32
    ensures n == n % 256 + n / 256 % 256 * 256 + n / 65536 % 256 * 65536 + n / 16777216 * 16777216
  {
    var a := n / 256;
    var b := a / 256;
    assert n / 65536 == b && n / 16777216 == b / 256;
    assert n == n % 256 + a * 256 && a == a % 256 + b * 256 && b == b % 256 + b / 256 * 256;
  }

  lemma ReadWritten(data: seq<Byte>, at: nat, n: nat)
    requires n < TWO32 && Has(data, at, U32(n))
    ensures at + 4 <= |data| && ReadU32(data, at) == n
  {
    var piece := data[at..at + 4];
    assert data[at] == piece[0] && data[at + 1] == piece[1] && data[at + 2] == piece[2] && data[at + 3] == piece[3];
    FourDigits(n);
  }

  lemma DigitsOf(a: nat, b: nat, c: nat, d: nat)
    requires a < 256 && b < 256 && c < 256 && d < 256
    ensures var n := a + b * 256 + c * 65536 + d * 16777216;
      n % 256 == a && n / 256 % 256 == b && n / 65536 % 256 == c && n / 16777216 == d
  {
    var z := c + d * 256;
    var y := b + z * 256;
    var n := a + y * 256;
    assert n / 256 == y && y / 256 == z && z / 256 == d;
    assert n / 65536 == z && n / 16777216 == d;
  }

  /** What was read is what writing the number would have put there. */
  lemma WrittenAsRead(data: seq<Byte>, at: nat)
    requires at + 4 <= |data|
    ensures Has(data, at, U32(ReadU32(data, at)))
  {
    DigitsOf(data[at] as nat, data[at + 1] as nat, data[at + 2] as nat, data[at + 3] as nat);
    assert data[at..at + 4] == [data[at], data[at + 1], data[at + 2], data[at + 3]];
  }

  function U32s(ns: seq<nat>): (r: seq<Byte>)
    requires forall i | 0 <= i < |ns| :: ns[i] < TWO32
    ensures |r| == 4 * |ns|
  {
    if ns == [] then [] else U32(ns[0]) + U32s(ns[1..])
  }

  function ReadU32s(data: seq<Byte>, at: nat, n: nat): (r: seq<nat>)
    requires at + 4 * n <= |data|
    ensures |r| == n && forall i | 0 <= i < n :: r[i] < TWO32
    decreases n
  {
    if n == 0 then [] else [ReadU32(data, at)] + ReadU32s(data, at + 4, n - 1)
  }

  lemma {:induction false} ReadAllWritten(data: seq<Byte>, at: nat, ns: seq<nat>)
    requires (forall i | 0 <= i < |ns| :: ns[i] < TWO32) && Has(data, at, U32s(ns))
    ensures at + 4 * |ns| <= |data| && ReadU32s(data, at, |ns|) == ns
    decreases |ns|
  {
    if ns != [] {
      HasBoth(data, at, U32(ns[0]), U32s(ns[1..]));
      ReadWritten(data, at, ns[0]);
      ReadAllWritten(data, at + 4, ns[1..]);
    }
  }

  lemma {:induction false} AllWrittenAsRead(data: seq<Byte>, at: nat, n: nat)
    requires at + 4 * n <= |data|
    ensures Has(data, at, U32s(ReadU32s(data, at, n)))
    decreases n
  {
    hide U32, ReadU32;
    if n != 0 {
      WrittenAsRead(data, at);
      AllWrittenAsRead(data, at + 4, n - 1);
      var ns := ReadU32s(data, at, n);
      assert ns[1..] == ReadU32s(data, at + 4, n - 1);
      HasBoth(data, at, U32(ns[0]), U32s(ns[1..]));
    }
  }

  lemma {:induction false} U32sConcat(a: seq<nat>, b: seq<nat>)
    requires (forall i | 0 <= i < |a| :: a[i] < TWO32) && forall i | 0 <= i < |b| :: b[i] < TWO32
    ensures forall i | 0 <= i < |a + b| :: (a + b)[i] < TWO32
    ensures U32s(a + b) == U32s(a) + U32s(b)
  {
    hide U32;
    if a == [] {
      assert a + b == b;
    } else {
      U32sConcat(a[1..], b);
      assert (a + b)[0] == a[0] && (a + b)[1..] == a[1..] + b;
    }
  }

  lemma WholeHas(data: seq<Byte>)
    ensures Has(data, 0, data)
  {
    assert data[0..|data|] == data;
  }
}
