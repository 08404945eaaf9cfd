/** UTF-8 as the line editor reads and writes it (section 3 of RFC 3629, surrogates included). */
module Utf8 {
  import opened Octets

  /** A code point that the editor can store. */
  type Point = x: int | 0 <= x <= 0x10FFFF

  /** The bytes of one code point. */
  function Bytes(c: Point): (r: seq<Byte>)
    ensures 1 <= |r| <= 4
    ensures !IsTail(r[0]) && forall i | 1 <= i < |r| :: IsTail(r[i])
  {
    if c <= 0x7F then [c as Byte]
    else if c <= 0x7FF then [(0xC0 + c / 64) as Byte, (0x80 + c % 64) as Byte]
    else if c <= 0xFFFF then [(0xE0 + c / 4096) as Byte, (0x80 + c / 64 % 64) as Byte, (0x80 + c % 64) as Byte]
    else [(0xF0 + c / 262144) as Byte, (0x80 + c / 4096 % 64) as Byte, (0x80 + c / 64 % 64) as Byte, (0x80 + c % 64) as Byte]
  }

  /** A byte of the form 10xxxxxx. */
  predicate IsTail(b: Byte) {
    0x80 <= b < 0xC0
  }

  /**
   The bytes spell the code point: the first byte says how many follow and holds the highest bits, each other
   byte holds six more, and no code point takes more bytes than it needs.
   */
  lemma PointOfBytes(c: Point)
    ensures var b := seq(|Bytes(c)|, i requires 0 <= i < |Bytes(c)| => Bytes(c)[i] as int);
      && (|b| == 1 ==> c == b[0] < 0x80)
      && (|b| == 2 ==> 0xC0 <= b[0] < 0xE0 && c == (b[0] - 0xC0) * 0x40 + (b[1] - 0x80) >= 0x80)
      && (|b| == 3 ==> 0xE0 <= b[0] < 0xF0 && c == (b[0] - 0xE0) * 0x1000 + (b[1] - 0x80) * 0x40 + (b[2] - 0x80) >= 0x800)
      && (|b| == 4 ==>
        && 0xF0 <= b[0] < 0xF8
        && c == (b[0] - 0xF0) * 0x40000 + (b[1] - 0x80) * 0x1000 + (b[2] - 0x80) * 0x40 + (b[3] - 0x80) >= 0x10000)
  {
    var q, r := c / 64, c / 4096;
    assert q / 64 == r && r / 64 == c / 262144;
    assert c == q * 64 + c % 64 && q == r * 64 + q % 64 && r == r / 64 * 64 + r % 64;
  }

  function Encode(s: seq<Point>): seq<Byte> {
    if s == [] then [] else Bytes(s[0]) + Encode(s[1..])
  }

  lemma {:induction false} EncodeConcat(s: seq<Point>, t: seq<Point>)
    ensures Encode(s + t) == Encode(s) + Encode(t)
  {
    hide Bytes;
    if s == [] {
      assert s + t == t;
    } else {
      EncodeConcat(s[1..], t);
      assert (s + t)[0] == s[0] && (s + t)[1..] == s[1..] + t;
      var x, y, z := Bytes(s[0]), Encode(s[1..]), Encode(t);
      assert x + (y + z) == (x + y) + z;
    }
  }

  /** A text is never shorter than its number of code points. */
  lemma {:induction false} EncodeLength(s: seq<Point>)
    ensures |s| <= |Encode(s)|
  {
    if s != [] { EncodeLength(s[1..]); }
  }

  /** A text starts with the first byte of a code point. */
  lemma EncodeStarts(s: seq<Point>)
    requires s != []
    ensures Encode(s) != [] && Encode(s)[0] == Bytes(s[0])[0] && !IsTail(Encode(s)[0])
  {
  }

  /** The replacement character that stands for bytes that are no code point. */
  const REPLACEMENT: Point := 0xFFFD

  /** Reads one code point and its length; anything malformed is one replacement character of one byte. */
  function DecodeUtf8(input: seq<Byte>, pos: nat): (r: (int, nat))
    requires pos < |input|
    ensures 1 <= r.1 <= 4 && pos + r.1 <= |input|
  {
    var b := input[pos] as int;
    if b < 0x80 then (b, 1)
    else if 0xC0 <= b < 0xE0 && pos + 1 < |input| && IsTail(input[pos + 1]) then
      (b % 32 * 64 + Six(input[pos + 1]), 2)
    else if 0xE0 <= b < 0xF0 && pos + 2 < |input| && IsTail(input[pos + 1]) && IsTail(input[pos + 2]) then
      (b % 16 * 4096 + Six(input[pos + 1]) * 64 + Six(input[pos + 2]), 3)
    else if 0xF0 <= b < 0xF8 && pos + 3 < |input| && IsTail(input[pos + 1]) && IsTail(input[pos + 2]) && IsTail(input[pos + 3]) then
      (b % 8 * 262144 + Six(input[pos + 1]) * 4096 + Six(input[pos + 2]) * 64 + Six(input[pos + 3]), 4)
    else (REPLACEMENT, 1)
  }

  /** The six bits that a continuing byte carries. */
  function Six(b: Byte): nat {
    b as int % 64
  }

  lemma Tail(x: nat)
    requires x < 64
    ensures IsTail((0x80 + x) as Byte) && Six((0x80 + x) as Byte) == x
  {
  }

  lemma TwoDigits(c: nat)
    requires 0x7F < c <= 0x7FF
    ensures (0xC0 + c / 64) % 32 * 64 + c % 64 == c
  {
  }

  lemma ThreeDigits(c: nat)
    requires 0x7FF < c <= 0xFFFF
    ensures (0xE0 + c / 4096) % 16 * 4096 + c / 64 % 64 * 64 + c % 64 == c
  {
    assert (0xE0 + c / 4096) % 16 == c / 4096;
    assert c / 64 == c / 4096 * 64 + c / 64 % 64;
  }

  lemma FourDigits(c: nat)
    requires 0xFFFF < c <= 0x10FFFF
    ensures (0xF0 + c / 262144) % 8 * 262144 + c / 4096 % 64 * 4096 + c / 64 % 64 * 64 + c % 64 == c
  {
    assert (0xF0 + c / 262144) % 8 == c / 262144;
    assert c / 4096 == c / 262144 * 64 + c / 4096 % 64;
    assert c / 64 == c / 4096 * 64 + c / 64 % 64;
  }

  lemma BytesAt(input: seq<Byte>, pos: nat, bytes: seq<Byte>)
    requires pos + |bytes| <= |input| && input[pos..pos + |bytes|] == bytes
    ensures forall j | pos <= j < pos + |bytes| :: input[j] == bytes[j - pos]
  {
    assert forall j | pos <= j < pos + |bytes| :: input[j] == input[pos..pos + |bytes|][j - pos];
  }

  /** Reading at the start of a code point gives that code point and its length. */
  lemma DecodeAt(input: seq<Byte>, pos: nat, c: Point)
    requires pos + |Bytes(c)| <= |input| && input[pos..pos + |Bytes(c)|] == Bytes(c)
    ensures DecodeUtf8(input, pos) == (c, |Bytes(c)|)
  {
    BytesAt(input, pos, Bytes(c));
    assert input[pos] == Bytes(c)[0];
    if c <= 0x7F {
    } else if c <= 0x7FF {
      assert input[pos + 1] == Bytes(c)[1];
      Tail(c % 64);
      TwoDigits(c);
    } else if c <= 0xFFFF {
      assert input[pos + 1] == Bytes(c)[1] && input[pos + 2] == Bytes(c)[2];
      Tail(c / 64 % 64);
      Tail(c % 64);
      hide Six, IsTail;
      ThreeDigits(c);
    } else {
      assert input[pos + 1] == Bytes(c)[1] && input[pos + 2] == Bytes(c)[2] && input[pos + 3] == Bytes(c)[3];
      Tail(c / 4096 % 64);
      Tail(c / 64 % 64);
      Tail(c % 64);
      hide Six, IsTail;
      FourDigits(c);
    }
  }

  // ---------------------------------------------------------------- stepping over code points

  /** The start of the next code point: past this byte and past every continuing byte. */
  function NextPos(line: seq<Byte>, pos: nat): (r: nat)
    ensures r <= |line|
  {
    if pos >= |line| then |line| else SkipTails(line, pos + 1)
  }

  function SkipTails(line: seq<Byte>, pos: nat): (r: nat)
    requires pos <= |line|
    ensures pos <= r <= |line|
    decreases |line| - pos
  {
    if pos < |line| && IsTail(line[pos]) then SkipTails(line, pos + 1) else pos
  }

  /** The start of the code point before: back over continuing bytes to one that starts a code point. */
  function PrevPos(line: seq<Byte>, pos: nat): (r: nat)
    requires pos <= |line|
    ensures r <= pos
  {
    if pos == 0 then 0 else SkipTailsBack(line, pos - 1)
  }

  function SkipTailsBack(line: seq<Byte>, pos: nat): (r: nat)
    requires pos < |line|
    ensures r <= pos
  {
    if pos > 0 && IsTail(line[pos]) then SkipTailsBack(line, pos - 1) else pos
  }

  method NextUtf8CharPos(line: seq<Byte>, pos: nat) returns (r: nat)
    ensures r == NextPos(line, pos)
  {
    if pos >= |line| {
      return |line|;
    }
    r := pos + 1;
    while r < |line| && IsTail(line[r])
      invariant pos < r <= |line| && SkipTails(line, r) == SkipTails(line, pos + 1)
    {
      r := r + 1;
    }
  }

  method PrevUtf8CharPos(line: seq<Byte>, pos: nat) returns (r: nat)
    requires pos <= |line|
    ensures r == PrevPos(line, pos)
  {
    if pos == 0 {
      return 0;
    }
    r := pos - 1;
    while r > 0 && IsTail(line[r])
      invariant r < |line| && SkipTailsBack(line, r) == SkipTailsBack(line, pos - 1)
    {
      r := r - 1;
    }
  }

  /** The byte offset of code point `k`. */
  function Offset(s: seq<Point>, k: nat): nat
    requires k <= |s|
  {
    |Encode(s[..k])|
  }

  /** A text splits at every code point. */
  lemma EncodeAt(s: seq<Point>, k: nat)
    requires k <= |s|
    ensures Encode(s) == Encode(s[..k]) + Encode(s[k..])
    ensures Offset(s, k) <= |Encode(s)| && k <= Offset(s, k)
    ensures Encode(s)[..Offset(s, k)] == Encode(s[..k]) && Encode(s)[Offset(s, k)..] == Encode(s[k..])
  {
    assert s == s[..k] + s[k..];
    EncodeConcat(s[..k], s[k..]);
    EncodeLength(s[..k]);
  }

  lemma OffsetNext(s: seq<Point>, k: nat)
    requires k < |s|
    ensures Offset(s, k + 1) == Offset(s, k) + |Bytes(s[k])| <= |Encode(s)|
    ensures Encode(s)[Offset(s, k)..Offset(s, k + 1)] == Bytes(s[k])
  {
    assert s[..k + 1] == s[..k] + [s[k]] && [s[k]][1..] == [];
    EncodeConcat(s[..k], [s[k]]);
    assert Encode([s[k]]) == Bytes(s[k]) + [];
    EncodeAt(s, k + 1);
    EncodeAt(s, k);
    assert Encode(s)[Offset(s, k)..Offset(s, k + 1)] == Encode(s)[..Offset(s, k + 1)][Offset(s, k)..];
  }

  lemma {:induction false} SkipTailsTo(line: seq<Byte>, pos: nat, end: nat)
    requires pos <= end <= |line|
    requires forall i | pos <= i < end :: IsTail(line[i])
    requires end < |line| ==> !IsTail(line[end])
    ensures SkipTails(line, pos) == end
    decreases end - pos
  {
    if pos < end { SkipTailsTo(line, pos + 1, end); }
  }

  lemma {:induction false} SkipTailsBackTo(line: seq<Byte>, pos: nat, start: nat)
    requires start <= pos < |line|
    requires forall i | start < i <= pos :: IsTail(line[i])
    requires !IsTail(line[start])
    ensures SkipTailsBack(line, pos) == start
  {
    if start < pos { SkipTailsBackTo(line, pos - 1, start); }
  }

  lemma EncodeNothing()
    ensures Encode([]) == []
  {
  }

  /** From the start of a code point the two steps lead to its end, and from its end back to its start. */
  lemma StepsOverPoint(s: seq<Point>, k: nat)
    requires k < |s|
    ensures Offset(s, k + 1) <= |Encode(s)|
    ensures NextPos(Encode(s), Offset(s, k)) == Offset(s, k + 1)
    ensures PrevPos(Encode(s), Offset(s, k + 1)) == Offset(s, k)
  {
    EncodeNothing();
    hide Bytes, Encode, Offset, IsTail, SkipTails, SkipTailsBack;
    OffsetNext(s, k);
    var line, from, to := Encode(s), Offset(s, k), Offset(s, k + 1);
    BytesAt(line, from, Bytes(s[k]));
    if to < |line| {
      EncodeAt(s, k + 1);
      EncodeStarts(s[k + 1..]);
      assert line[to] == line[to..][0];
    }
    SkipTailsTo(line, from + 1, to);
    SkipTailsBackTo(line, to - 1, from);
  }

  lemma DecodePoint(s: seq<Point>, k: nat)
    requires k < |s|
    ensures Offset(s, k) < |Encode(s)|
    ensures DecodeUtf8(Encode(s), Offset(s, k)) == (s[k], Offset(s, k + 1) - Offset(s, k))
  {
    OffsetNext(s, k);
    DecodeAt(Encode(s), Offset(s, k), s[k]);
  }

  // ---------------------------------------------------------------- counting code points

  /** The bytes that start a code point. */
  function Heads(line: seq<Byte>): nat {
    if line == [] then 0 else (if IsTail(line[0]) then 0 else 1) + Heads(line[1..])
  }

  lemma {:induction false} HeadsConcat(a: seq<Byte>, b: seq<Byte>)
    ensures Heads(a + b) == Heads(a) + Heads(b)
  {
    if a == [] {
      assert a + b == b;
    } else {
      HeadsConcat(a[1..], b);
      assert (a + b)[1..] == a[1..] + b;
    }
  }

  lemma {:induction false} NoHeads(tails: seq<Byte>)
    requires forall i | 0 <= i < |tails| :: IsTail(tails[i])
    ensures Heads(tails) == 0
  {
    if tails != [] { NoHeads(tails[1..]); }
  }

  /** The number of code points can be read off the bytes. */
  lemma {:induction false} HeadsOfEncoding(s: seq<Point>)
    ensures Heads(Encode(s)) == |s|
  {
    if s != [] {
      HeadsOfEncoding(s[1..]);
      HeadsConcat(Bytes(s[0]), Encode(s[1..]));
      NoHeads(Bytes(s[0])[1..]);
    }
  }
}
