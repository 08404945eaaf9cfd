/** Base64 (sections 4 and 5 of RFC 4648): the loops that encode and decode, against what each byte is to be. */
module Base64 {
  import opened Wrappers
  import opened Octets

  datatype Alphabet = Auto | Standard | UrlSafe

  datatype Behavior = Moderate | Loose

  const PAD: Byte := 61

  // ---------------------------------------------------------------- the alphabets

  /** The character of a value; only the URL-safe alphabet differs from the standard one. */
  function Letter(a: Alphabet, v: nat): (c: Byte)
    requires v < 64
    ensures c != PAD
  {
    if v < 26 then (65 + v) as Byte
    else if v < 52 then (97 + v - 26) as Byte
    else if v < 62 then (48 + v - 52) as Byte
    else if v == 62 then (if a == UrlSafe then 45 else 43)
    else if a == UrlSafe then 95 else 47
  }

  /** A letter or a digit, which every alphabet has. */
  predicate Plain(c: Byte) {
    65 <= c <= 90 || 97 <= c <= 122 || 48 <= c <= 57
  }

  predicate InAlphabet(a: Alphabet, c: Byte)
    requires a != Auto
  {
    Plain(c) || (if a == Standard then c in {43, 47} else c in {45, 95})
  }

  /** The value of a character of either alphabet. */
  function Value(c: Byte): (v: nat)
    ensures v < 64
  {
    if 65 <= c <= 90 then c as int - 65
    else if 97 <= c <= 122 then c as int - 97 + 26
    else if 48 <= c <= 57 then c as int - 48 + 52
    else if c == 43 || c == 45 then 62
    else 63
  }

  lemma LetterHasValue(a: Alphabet, v: nat)
    requires v < 64
    ensures Value(Letter(a, v)) == v
    ensures InAlphabet(if a == UrlSafe then UrlSafe else Standard, Letter(a, v))
  {
  }

  lemma ValueHasLetter(a: Alphabet, c: Byte)
    requires a != Auto && InAlphabet(a, c)
    ensures Letter(a, Value(c)) == c
  {
  }

  // ---------------------------------------------------------------- regrouping bits

  function At(s: seq<Byte>, i: nat): (r: nat)
    ensures r < 256
  {
    if i < |s| then s[i] as nat else 0
  }

  /** Six bits of three bytes. */
  function Six(part: nat, b0: nat, b1: nat): (v: nat)
    requires part < 4 && b0 < 256 && b1 < 256
    ensures v < 64
  {
    if part == 0 then b0 / 4
    else if part == 1 then b0 % 4 * 16 + b1 / 16
    else if part == 2 then b0 % 16 * 4 + b1 / 64
    else b0 % 64
  }

  /** The six bits from bit 6 * j on; bits after the end are zero. */
  function Sextet(s: seq<Byte>, j: nat): (v: nat)
    ensures v < 64
  {
    var q := j / 4 * 3;
    if j % 4 == 0 then Six(0, At(s, q), At(s, q + 1))
    else if j % 4 == 1 then Six(1, At(s, q), At(s, q + 1))
    else if j % 4 == 2 then Six(2, At(s, q + 1), At(s, q + 2))
    else Six(3, At(s, q + 2), 0)
  }

  /** The eight bits from bit 8 * k on. */
  function Octet(t: seq<Byte>, k: nat): (b: nat)
    requires k < |t| * 3 / 4
    ensures b < 256
  {
    var q := k / 3 * 4;
    if k % 3 == 0 then Value(t[q]) * 4 + Value(t[q + 1]) / 16
    else if k % 3 == 1 then Value(t[q + 1]) % 16 * 16 + Value(t[q + 2]) / 4
    else Value(t[q + 2]) % 4 * 64 + Value(t[q + 3])
  }

  function SextetCount(n: nat): nat {
    (n * 4 + 2) / 3
  }

  function Letters(s: seq<Byte>, a: Alphabet): (r: seq<Byte>)
    ensures |r| == SextetCount(|s|)
  {
    seq(SextetCount(|s|), j requires 0 <= j => Letter(a, Sextet(s, j)))
  }

  function Padding(n: nat): (r: seq<Byte>)
    requires n <= 2
    ensures |r| == n
    ensures forall i | 0 <= i < n :: r[i] == PAD
  {
    if n == 0 then [] else if n == 1 then [PAD] else [PAD, PAD]
  }

  /** The text of some bytes: their bits in sixes, then padding to whole groups of four. */
  function Encoded(s: seq<Byte>, a: Alphabet): seq<Byte> {
    Letters(s, a) + Padding((3 - |s| % 3) % 3)
  }

  function Joined(t: seq<Byte>): (r: seq<Byte>)
    ensures |r| == |t| * 3 / 4
  {
    seq(|t| * 3 / 4, k requires 0 <= k < |t| * 3 / 4 => Octet(t, k) as Byte)
  }

  // ---------------------------------------------------------------- what decoding is to yield

  /** The part before the first padding character. */
  function Body(t: seq<Byte>): (r: seq<Byte>)
    ensures r <= t && PAD !in r
    ensures |r| < |t| ==> t[|r|] == PAD
  {
    if t == [] || t[0] == PAD then [] else [t[0]] + Body(t[1..])
  }

  predicate AllIn(a: Alphabet, t: seq<Byte>)
    requires a != Auto
  {
    forall i | 0 <= i < |t| :: InAlphabet(a, t[i])
  }

  /** In automatic mode the whole text must be of one alphabet. */
  predicate Fits(a: Alphabet, t: seq<Byte>) {
    if a == Auto then AllIn(Standard, t) || AllIn(UrlSafe, t) else AllIn(a, t)
  }

  predicate AllPadding(t: seq<Byte>) {
    forall i | 0 <= i < |t| :: t[i] == PAD
  }

  predicate Accepts(t: seq<Byte>, a: Alphabet, b: Behavior) {
    Fits(a, Body(t)) && (b == Loose || AllPadding(t[|Body(t)|..]))
  }

  function Decoded(t: seq<Byte>, a: Alphabet, b: Behavior): Option<seq<Byte>> {
    if Accepts(t, a, b) then Some(Joined(Body(t))) else None
  }

  // ---------------------------------------------------------------- the encoder

  ghost function FirstLetters(s: seq<Byte>, a: Alphabet, n: nat): (r: seq<Byte>)
    requires n <= SextetCount(|s|)
    ensures |r| == n
  {
    Letters(s, a)[..n]
  }

  lemma MoreLetters(s: seq<Byte>, a: Alphabet, n: nat)
    requires n < SextetCount(|s|)
    ensures FirstLetters(s, a, n + 1) == FirstLetters(s, a, n) + [Letter(a, Sextet(s, n))]
  {
  }

  lemma ByThree(x: nat, q: nat, r: nat)
    requires x == 3 * q + r && r < 3
    ensures x / 3 == q && x % 3 == r
  {
  }

  lemma ByFour(x: nat, q: nat, r: nat)
    requires x == 4 * q + r && r < 4
    ensures x / 4 == q && x % 4 == r
  {
  }

  lemma ByEight(x: nat, q: nat, r: nat)
    requires x == 8 * q + r && r < 8
    ensures x / 8 == q && x % 8 == r
  {
  }

  /** The four values that the group of bytes at i gives. */
  lemma SextetsOfGroup(s: seq<Byte>, i: nat, n: nat)
    requires i % 3 == 0 && n == i / 3 * 4
    ensures Sextet(s, n) == Six(0, At(s, i), At(s, i + 1))
    ensures Sextet(s, n + 1) == Six(1, At(s, i), At(s, i + 1))
    ensures Sextet(s, n + 2) == Six(2, At(s, i + 1), At(s, i + 2))
    ensures Sextet(s, n + 3) == Six(3, At(s, i + 2), 0)
    ensures i + 3 <= |s| ==> n + 4 <= SextetCount(|s|) && (i + 3) % 3 == 0 && (i + 3) / 3 * 4 == n + 4
    ensures i + 2 == |s| ==> SextetCount(|s|) == n + 3 && (3 - |s| % 3) % 3 == 1
    ensures i + 1 == |s| ==> SextetCount(|s|) == n + 2 && (3 - |s| % 3) % 3 == 2
    ensures i == |s| ==> SextetCount(|s|) == n && (3 - |s| % 3) % 3 == 0
  {
    var g := i / 3;
    assert i == 3 * g && n == 4 * g;
    assert n / 4 == g && (n + 1) / 4 == g && (n + 2) / 4 == g && (n + 3) / 4 == g;
    assert n % 4 == 0 && (n + 1) % 4 == 1 && (n + 2) % 4 == 2 && (n + 3) % 4 == 3;
  }

  lemma FirstSix(b0: nat, b1: nat)
    requires b0 < 256 && b1 < 256
    ensures Six(0, b0, b1) == Six(0, b0, 0)
  {
  }

  method Encode(s: seq<Byte>, a: Alphabet) returns (out: seq<Byte>)
    ensures out == Encoded(s, a)
  {
    hide Letters, Letter, Sextet, SextetCount, Encoded, At, FirstLetters, Six;
    out := [];
    var i := 0;
    while i < |s|
      invariant i <= |s| && i % 3 == 0 && |out| == i / 3 * 4 && |out| <= SextetCount(|s|)
      invariant out == FirstLetters(s, a, |out|)
    {
      SextetsOfGroup(s, i, |out|);
      BytesAt(s, i);
      var i0, i1, i2 := s[i] as nat, 0, 0;
      MoreLetters(s, a, |out|);
      FirstSix(i0, At(s, i + 1));
      out := out + [Letter(a, Six(0, i0, 0))];
      MoreLetters(s, a, |out|);
      if i + 1 == |s| {
        out := out + [Letter(a, Six(1, i0, 0))];
        EncodedIs(s, a, out);
        return out + [PAD, PAD];
      }
      i1 := s[i + 1] as nat;
      out := out + [Letter(a, Six(1, i0, i1))];
      MoreLetters(s, a, |out|);
      if i + 2 == |s| {
        out := out + [Letter(a, Six(2, i1, 0))];
        EncodedIs(s, a, out);
        return out + [PAD];
      }
      i2 := s[i + 2] as nat;
      out := out + [Letter(a, Six(2, i1, i2))];
      MoreLetters(s, a, |out|);
      out := out + [Letter(a, Six(3, i2, 0))];
      i := i + 3;
    }
    SextetsOfGroup(s, i, |out|);
    EncodedIs(s, a, out);
  }

  lemma BytesAt(s: seq<Byte>, i: nat)
    requires i < |s|
    ensures At(s, i) == s[i] as nat
    ensures At(s, i + 1) == if i + 1 < |s| then s[i + 1] as nat else 0
    ensures At(s, i + 2) == if i + 2 < |s| then s[i + 2] as nat else 0
  {
  }

  lemma EncodedIs(s: seq<Byte>, a: Alphabet, out: seq<Byte>)
    requires |out| == SextetCount(|s|) && out == FirstLetters(s, a, |out|)
    ensures |s| % 3 == 0 ==> Encoded(s, a) == out
    ensures |s| % 3 == 1 ==> Encoded(s, a) == out + [PAD, PAD]
    ensures |s| % 3 == 2 ==> Encoded(s, a) == out + [PAD]
  {
    assert out == Letters(s, a) && out + [] == out;
  }

  // ---------------------------------------------------------------- decoding what was encoded

  lemma {:induction false} BodyStops(t: seq<Byte>, p: seq<Byte>)
    requires PAD !in t && (p == [] || p[0] == PAD)
    ensures Body(t + p) == t
  {
    if t == [] {
      assert t + p == p;
    } else {
      assert (t + p)[0] == t[0] && (t + p)[1..] == t[1..] + p;
      BodyStops(t[1..], p);
    }
  }

  lemma BodyOfEncoded(s: seq<Byte>, a: Alphabet)
    ensures Body(Encoded(s, a)) == Letters(s, a)
    ensures AllPadding(Encoded(s, a)[|Letters(s, a)|..])
    ensures Fits(if a == UrlSafe then UrlSafe else Standard, Letters(s, a))
  {
    var t, p := Letters(s, a), Padding((3 - |s| % 3) % 3);
    forall j | 0 <= j < |t|
      ensures t[j] != PAD && InAlphabet(if a == UrlSafe then UrlSafe else Standard, t[j])
    {
      LetterHasValue(a, Sextet(s, j));
    }
    BodyStops(t, p);
    assert (t + p)[|t|..] == p;
  }

  /** The bytes that a group of characters gives, as far as it goes. */
  lemma OctetsOfGroup(t: seq<Byte>, g: nat)
    requires 4 * g + 1 < |t|
    ensures 3 * g < |t| * 3 / 4 && Octet(t, 3 * g) == Value(t[4 * g]) * 4 + Value(t[4 * g + 1]) / 16
    ensures 4 * g + 2 == |t| ==> |t| * 3 / 4 == 3 * g + 1
    ensures 4 * g + 2 < |t| ==>
      3 * g + 1 < |t| * 3 / 4 && Octet(t, 3 * g + 1) == Value(t[4 * g + 1]) % 16 * 16 + Value(t[4 * g + 2]) / 4
    ensures 4 * g + 3 == |t| ==> |t| * 3 / 4 == 3 * g + 2
    ensures 4 * g + 3 < |t| ==>
      3 * g + 2 < |t| * 3 / 4 && Octet(t, 3 * g + 2) == Value(t[4 * g + 2]) % 4 * 64 + Value(t[4 * g + 3])
  {
    hide Value;
    assert 3 * g / 3 == g && (3 * g + 1) / 3 == g && (3 * g + 2) / 3 == g;
    assert 3 * g % 3 == 0 && (3 * g + 1) % 3 == 1 && (3 * g + 2) % 3 == 2;
  }

  /** Three bytes in four sextets, and back. */
  lemma Regroup(b0: nat, b1: nat, b2: nat)
    requires b0 < 256 && b1 < 256 && b2 < 256
    ensures var v0, v1, v2, v3 := Six(0, b0, b1), Six(1, b0, b1), Six(2, b1, b2), Six(3, b2, 0);
      v0 * 4 + v1 / 16 == b0 && v1 % 16 * 16 + v2 / 4 == b1 && v2 % 4 * 64 + v3 == b2
  {
    assert (b0 % 4 * 16 + b1 / 16) / 16 == b0 % 4 && (b0 % 4 * 16 + b1 / 16) % 16 == b1 / 16;
    assert (b1 % 16 * 4 + b2 / 64) / 4 == b1 % 16 && (b1 % 16 * 4 + b2 / 64) % 4 == b2 / 64;
  }

  /** Four sextets in three bytes, and back. */
  lemma Ungroup(v0: nat, v1: nat, v2: nat, v3: nat)
    requires v0 < 64 && v1 < 64 && v2 < 64 && v3 < 64
    ensures var b0, b1, b2 := v0 * 4 + v1 / 16, v1 % 16 * 16 + v2 / 4, v2 % 4 * 64 + v3;
      Six(0, b0, b1) == v0 && Six(1, b0, b1) == v1 && Six(2, b1, b2) == v2 && Six(3, b2, 0) == v3
  {
    assert (v0 * 4 + v1 / 16) / 4 == v0 && (v0 * 4 + v1 / 16) % 4 == v1 / 16;
    assert (v1 % 16 * 16 + v2 / 4) / 16 == v1 % 16 && (v1 % 16 * 16 + v2 / 4) % 16 == v2 / 4;
    assert (v2 % 4 * 64 + v3) / 64 == v2 % 4 && (v2 % 4 * 64 + v3) % 64 == v3;
  }

  lemma LetterValueAt(s: seq<Byte>, a: Alphabet, j: nat)
    requires j < SextetCount(|s|)
    ensures Value(Letters(s, a)[j]) == Sextet(s, j)
  {
    hide Letter, Value, Sextet, SextetCount;
    LetterHasValue(a, Sextet(s, j));
  }

  lemma CountBack(n: nat)
    ensures SextetCount(n) * 3 / 4 == n
  {
  }

  lemma OctetBack(s: seq<Byte>, a: Alphabet, k: nat)
    requires k < |s|
    ensures |Letters(s, a)| * 3 / 4 == |s| && Octet(Letters(s, a), k) == s[k] as nat
  {
    hide Letters, Value, Sextet, Octet, Six, At, SextetCount;
    CountBack(|s|);
    BytesAt(s, k / 3 * 3);
    var g := k / 3;
    var i, n, t := 3 * g, 4 * g, Letters(s, a);
    SextetsOfGroup(s, i, n);
    LetterValueAt(s, a, n);
    LetterValueAt(s, a, n + 1);
    if i + 1 < |s| { LetterValueAt(s, a, n + 2); }
    if i + 2 < |s| { LetterValueAt(s, a, n + 3); }
    OctetsOfGroup(t, g);
    Regroup(At(s, i), At(s, i + 1), At(s, i + 2));
  }

  /** Decoding the text of some bytes gives them back, with their alphabet named or detected. */
  lemma RoundTrip(s: seq<Byte>, a: Alphabet, mode: Alphabet, b: Behavior)
    requires mode == Auto || mode == if a == UrlSafe then UrlSafe else Standard
    ensures Decoded(Encoded(s, a), mode, b) == Some(s)
  {
    hide Letters, Octet, Encoded;
    BodyOfEncoded(s, a);
    var t := Letters(s, a);
    forall k | 0 <= k < |s| ensures |t| * 3 / 4 == |s| && Octet(t, k) as Byte == s[k] { OctetBack(s, a, k); }
    assert Joined(t) == s;
  }

  /** A text that encoding can produce: whole groups, the padding that is due, and no stray bits at the end. */
  predicate Canonical(t: seq<Byte>) {
    var body := Body(t);
    var over := |body| % 4;
    && |t| % 4 == 0 && |t| - |body| <= 2 && AllPadding(t[|body|..])
    && (over == 2 ==> Value(body[|body| - 1]) % 16 == 0)
    && (over == 3 ==> Value(body[|body| - 1]) % 4 == 0)
  }

  lemma SextetBack(t: seq<Byte>, j: nat)
    requires j < |t| && |t| % 4 != 1
    requires |t| % 4 == 2 ==> ValueAt(t, |t| - 1) % 16 == 0
    requires |t| % 4 == 3 ==> ValueAt(t, |t| - 1) % 4 == 0
    ensures SextetCount(|Joined(t)|) == |t| && Sextet(Joined(t), j) == ValueAt(t, j)
  {
    hide Value, Octet, Sextet, Joined, At;
    SextetsBack(t, j / 4);
    JoinedCount(|t|);
  }

  lemma SextetsBack(t: seq<Byte>, g: nat)
    requires 4 * g + 1 < |t|
    requires |t| == 4 * g + 2 ==> ValueAt(t, 4 * g + 1) % 16 == 0
    requires |t| == 4 * g + 3 ==> ValueAt(t, 4 * g + 2) % 4 == 0
    ensures Sextet(Joined(t), 4 * g) == ValueAt(t, 4 * g) && Sextet(Joined(t), 4 * g + 1) == ValueAt(t, 4 * g + 1)
    ensures Sextet(Joined(t), 4 * g + 2) == ValueAt(t, 4 * g + 2)
    ensures Sextet(Joined(t), 4 * g + 3) == ValueAt(t, 4 * g + 3)
  {
    hide Value, Octet, Sextet, Joined, At, ValueAt, Six;
    SextetsOfGroup(Joined(t), 3 * g, 4 * g);
    JoinedGroup(t, g);
    Ungroup(ValueAt(t, 4 * g), ValueAt(t, 4 * g + 1), ValueAt(t, 4 * g + 2), ValueAt(t, 4 * g + 3));
  }

  function ValueAt(t: seq<Byte>, i: nat): (v: nat)
    ensures v < 64
  {
    if i < |t| then Value(t[i]) else 0
  }

  lemma JoinedGroup(t: seq<Byte>, g: nat)
    requires 4 * g + 1 < |t|
    requires |t| == 4 * g + 2 ==> ValueAt(t, 4 * g + 1) % 16 == 0
    requires |t| == 4 * g + 3 ==> ValueAt(t, 4 * g + 2) % 4 == 0
    ensures At(Joined(t), 3 * g) == ValueAt(t, 4 * g) * 4 + ValueAt(t, 4 * g + 1) / 16
    ensures At(Joined(t), 3 * g + 1) == ValueAt(t, 4 * g + 1) % 16 * 16 + ValueAt(t, 4 * g + 2) / 4
    ensures At(Joined(t), 3 * g + 2) == ValueAt(t, 4 * g + 2) % 4 * 64 + ValueAt(t, 4 * g + 3)
  {
    hide Value, Octet;
    OctetsOfGroup(t, g);
  }

  lemma JoinedCount(n: nat)
    requires n % 4 != 1
    ensures SextetCount(n * 3 / 4) == n
  {
    var q := n / 4;
    assert n * 3 / 4 == 3 * q + (n % 4) * 3 / 4;
  }

  lemma LastSextet(s: seq<Byte>)
    ensures |s| % 3 == 1 ==> SextetCount(|s|) >= 2 && Sextet(s, SextetCount(|s|) - 1) % 16 == 0
    ensures |s| % 3 == 2 ==> SextetCount(|s|) >= 3 && Sextet(s, SextetCount(|s|) - 1) % 4 == 0
    ensures |s| % 3 == 0 ==> SextetCount(|s|) % 4 == 0
    ensures |s| % 3 == 1 ==> SextetCount(|s|) % 4 == 2
    ensures |s| % 3 == 2 ==> SextetCount(|s|) % 4 == 3
  {
    hide Sextet;
    var g, k, n := |s| / 3, |s| % 3, |s|;
    SextetsOfGroup(s, 3 * g, 4 * g);
    if k == 0 {
      ByThree(n * 4 + 2, 4 * g, 2);
      ByFour(4 * g, g, 0);
    } else if k == 1 {
      ByThree(n * 4 + 2, 4 * g + 2, 0);
      ByFour(4 * g + 2, g, 2);
    } else {
      ByThree(n * 4 + 2, 4 * g + 3, 1);
      ByFour(4 * g + 3, g, 3);
    }
  }

  lemma PaddedWhole(x: nat, p: nat)
    requires (x % 4 == 0 && p == 0) || (x % 4 == 2 && p == 2) || (x % 4 == 3 && p == 1)
    ensures (x + p) % 4 == 0
  {
  }

  lemma EncodedIsCanonical(s: seq<Byte>, a: Alphabet)
    ensures Canonical(Encoded(s, a))
  {
    hide Sextet, Value, Letter, Body, Letters, SextetCount, Padding;
    BodyOfEncoded(s, a);
    LastSextet(s);
    var t, pad := Letters(s, a), Padding((3 - |s| % 3) % 3);
    PaddedWhole(|t|, |pad|);
    assert (t + pad)[|t|..] == pad;
    if SextetCount(|s|) > 0 {
      LetterValueAt(s, a, SextetCount(|s|) - 1);
    }
  }

  lemma CanonicalEnds(t: seq<Byte>)
    requires Canonical(t)
    ensures var body := Body(t);
      && |body| % 4 != 1
      && (|body| % 4 == 2 ==> ValueAt(body, |body| - 1) % 16 == 0)
      && (|body| % 4 == 3 ==> ValueAt(body, |body| - 1) % 4 == 0)
  {
    hide Value, Body;
  }

  lemma CanonicalBack(t: seq<Byte>, a: Alphabet)
    requires a != Auto && Fits(a, Body(t)) && Canonical(t)
    ensures Letters(Joined(Body(t)), a) == Body(t)
  {
    hide Sextet, Value, ValueAt, Letter, Body, Octet, Joined, AllPadding, InAlphabet, Canonical, SextetCount;
    CanonicalEnds(t);
    var body := Body(t);
    var s := Joined(body);
    forall j | 0 <= j < |body|
      ensures SextetCount(|s|) == |body| && Letter(a, Sextet(s, j)) == body[j]
    {
      SextetBack(body, j);
      ValueAtIs(body, j);
      ValueHasLetter(a, body[j]);
    }
    JoinedCount(|body|);
  }

  lemma ValueAtIs(t: seq<Byte>, j: nat)
    requires j < |t|
    ensures ValueAt(t, j) == Value(t[j])
  {
  }

  lemma DueCount(n: nat, total: nat)
    requires n <= total <= n + 2 && total % 4 == 0 && n % 4 != 1
    ensures total - n == (3 - n * 3 / 4 % 3) % 3
  {
    var g, k := n / 4, n % 4;
    if k == 0 {
      ByFour(n * 3, 3 * g, 0);
      ByThree(3 * g, g, 0);
    } else if k == 2 {
      ByFour(n * 3, 3 * g + 1, 2);
      ByThree(3 * g + 1, g, 1);
    } else {
      ByFour(n * 3, 3 * g + 2, 1);
      ByThree(3 * g + 2, g, 2);
    }
  }

  lemma PaddingDue(t: seq<Byte>)
    requires Canonical(t)
    ensures t[|Body(t)|..] == Padding((3 - |Joined(Body(t))| % 3) % 3)
  {
    CanonicalEnds(t);
    hide Value, Body, Octet, ValueAt;
    DueCount(|Body(t)|, |t|);
  }

  /** Encoding what was decoded gives the text back exactly when the text is canonical. */
  lemma ReencodesExactly(t: seq<Byte>, a: Alphabet)
    requires a != Auto && Accepts(t, a, Moderate)
    ensures Encoded(Joined(Body(t)), a) == t <==> Canonical(t)
  {
    hide Letters, Body, Joined, Canonical;
    var body := Body(t);
    EncodedIsCanonical(Joined(body), a);
    if Canonical(t) {
      CanonicalBack(t, a);
      PaddingDue(t);
      assert t == body + t[|body|..];
    }
  }

  // ---------------------------------------------------------------- sizes

  function RequiredEncodeSize(n: nat): nat {
    (n / 3 + if n % 3 != 0 then 1 else 0) * 4
  }

  function MaxDecodeSize(n: nat): nat {
    (n / 4 + if n % 4 != 0 then 1 else 0) * 3
  }

  lemma EncodedSize(s: seq<Byte>, a: Alphabet)
    ensures |Encoded(s, a)| == RequiredEncodeSize(|s|)
  {
    LastSextet(s);
  }

  lemma DecodedSize(t: seq<Byte>, a: Alphabet, b: Behavior)
    requires Accepts(t, a, b)
    ensures |Decoded(t, a, b).value| <= MaxDecodeSize(|t|)
  {
    var n := |Body(t)|;
    assert n <= |t|;
  }

  // ---------------------------------------------------------------- the decoder

  /** The value of a character; in automatic mode the first special character fixes the alphabet. */
  method CharValue(a: Alphabet, c: Byte) returns (v: Option<nat>, now: Alphabet)
    ensures v.Some? ==> v.value == Value(c)
    ensures a != Auto ==> now == a && (v.Some? <==> InAlphabet(a, c))
    ensures a == Auto ==> (v.Some? <==> InAlphabet(Standard, c) || InAlphabet(UrlSafe, c))
    ensures a == Auto ==> now == if Plain(c) || v.None? then Auto else if InAlphabet(Standard, c) then Standard else UrlSafe
  {
    now := a;
    if 65 <= c <= 90 {
      return Some(c as int - 65), now;
    } else if 97 <= c <= 122 {
      return Some(c as int - 97 + 26), now;
    } else if 48 <= c <= 57 {
      return Some(c as int - 48 + 52), now;
    }
    if a == Standard {
      if c == 43 {
        return Some(62), now;
      } else if c == 47 {
        return Some(63), now;
      }
    } else if a == UrlSafe {
      if c == 45 {
        return Some(62), now;
      } else if c == 95 {
        return Some(63), now;
      }
    } else {
      if c == 43 {
        return Some(62), Standard;
      } else if c == 47 {
        return Some(63), Standard;
      } else if c == 45 {
        return Some(62), UrlSafe;
      } else if c == 95 {
        return Some(63), UrlSafe;
      }
    }
    return None, now;
  }

  /** What is known after some characters were accepted under a mode: the alphabet found so far. */
  ghost predicate Detected(mode: Alphabet, now: Alphabet, t: seq<Byte>) {
    if mode != Auto then now == mode && AllIn(mode, t)
    else if now == Auto then forall i | 0 <= i < |t| :: Plain(t[i])
    else AllIn(now, t) && exists i :: 0 <= i < |t| && !Plain(t[i])
  }

  lemma DetectedMore(mode: Alphabet, was: Alphabet, now: Alphabet, t: seq<Byte>, c: Byte)
    requires Detected(mode, was, t)
    requires was != Auto ==> now == was && InAlphabet(was, c)
    requires was == Auto ==> if now == Auto then Plain(c) else InAlphabet(now, c) && !Plain(c)
    ensures Detected(mode, now, t + [c])
  {
    var more := t + [c];
    if mode == Auto && now != Auto {
      assert was == Auto ==> !Plain(more[|t|]);
      if was != Auto {
        var i :| 0 <= i < |t| && !Plain(t[i]);
        assert !Plain(more[i]);
      }
    }
  }

  lemma DetectedFits(mode: Alphabet, now: Alphabet, t: seq<Byte>)
    requires Detected(mode, now, t)
    ensures Fits(mode, t)
  {
  }

  /** A character that is refused after others were accepted makes every longer text unfit. */
  lemma DetectedRefuses(mode: Alphabet, now: Alphabet, t: seq<Byte>, n: nat)
    requires n < |t| && Detected(mode, now, t[..n])
    requires if now != Auto then !InAlphabet(now, t[n]) else !InAlphabet(Standard, t[n]) && !InAlphabet(UrlSafe, t[n])
    ensures !Fits(mode, t)
  {
    if mode == Auto && now != Auto {
      var i :| 0 <= i < n && !Plain(t[..n][i]);
      assert t[..n][i] == t[i] && InAlphabet(now, t[..n][i]);
      assert !InAlphabet(if now == Standard then UrlSafe else Standard, t[i]);
    }
  }

  /** The byte made of the low bits of one value and the high bits of the next; the two parts do not overlap. */
  function Spliced(last: nat, part: nat, bits: nat): Byte {
    ((if bits == 6 then last * 4 + part / 16 else if bits == 4 then last * 16 + part / 4 else last * 64 + part) % 256) as Byte
  }

  lemma CountMore(n: nat)
    ensures n % 4 == 0 ==> n * 6 % 8 == 0 && (n + 1) * 6 % 8 == 6 && (n + 1) * 3 / 4 == n * 3 / 4
    ensures n % 4 == 1 ==> n * 6 % 8 == 6 && (n + 1) * 6 % 8 == 4 && n * 3 / 4 == n / 4 * 3
    ensures n % 4 == 2 ==> n * 6 % 8 == 4 && (n + 1) * 6 % 8 == 2 && n * 3 / 4 == n / 4 * 3 + 1
    ensures n % 4 == 3 ==> n * 6 % 8 == 2 && (n + 1) * 6 % 8 == 0 && n * 3 / 4 == n / 4 * 3 + 2
    ensures n % 4 != 0 ==> (n + 1) * 3 / 4 == n * 3 / 4 + 1
  {
    var g, k := n / 4, n % 4;
    if k == 0 {
      ByEight(n * 6, 3 * g, 0);
      ByEight((n + 1) * 6, 3 * g, 6);
      ByFour(n * 3, 3 * g, 0);
      ByFour((n + 1) * 3, 3 * g, 3);
    } else if k == 1 {
      ByEight(n * 6, 3 * g, 6);
      ByEight((n + 1) * 6, 3 * g + 1, 4);
      ByFour(n * 3, 3 * g, 3);
      ByFour((n + 1) * 3, 3 * g + 1, 2);
    } else if k == 2 {
      ByEight(n * 6, 3 * g + 1, 4);
      ByEight((n + 1) * 6, 3 * g + 2, 2);
      ByFour(n * 3, 3 * g + 1, 2);
      ByFour((n + 1) * 3, 3 * g + 2, 1);
    } else {
      ByEight(n * 6, 3 * g + 2, 2);
      ByEight((n + 1) * 6, 3 * g + 3, 0);
      ByFour(n * 3, 3 * g + 2, 1);
      ByFour((n + 1) * 3, 3 * g + 3, 0);
    }
  }

  lemma LastOctet(t: seq<Byte>, n: nat)
    requires |t| == n + 1 && n % 4 != 0
    ensures n * 3 / 4 < |t| * 3 / 4
    ensures Octet(t, n * 3 / 4) as Byte == Spliced(Value(t[n - 1]), Value(t[n]), n * 6 % 8)
  {
    hide Value, Octet;
    CountMore(n);
    OctetsOfGroup(t, n / 4);
    var u, v := Value(t[n - 1]), Value(t[n]);
    assert n == 4 * (n / 4) + n % 4;
    SplicedIs(u, v);
  }

  lemma SplicedIs(u: nat, v: nat)
    requires u < 64 && v < 64
    ensures Spliced(u, v, 6) == (u * 4 + v / 16) as Byte
    ensures Spliced(u, v, 4) == (u % 16 * 16 + v / 4) as Byte
    ensures Spliced(u, v, 2) == (u % 4 * 64 + v) as Byte
  {
    LowByte(u % 16 * 16 + v / 4, u / 16);
    LowByte(u % 4 * 64 + v, u / 4);
    LowByte(u * 4 + v / 16, 0);
    assert u * 16 == u % 16 * 16 + u / 16 * 256 && u * 64 == u % 4 * 64 + u / 4 * 256;
  }

  lemma LowByte(x: nat, y: nat)
    requires x < 256
    ensures (x + y * 256) % 256 == x
  {
  }

  lemma JoinedMore(t: seq<Byte>, n: nat)
    requires n < |t|
    ensures n * 6 % 8 == 0 ==> Joined(t[..n + 1]) == Joined(t[..n]) && (n + 1) * 6 % 8 == 6
    ensures n * 6 % 8 != 0 ==>
      && n > 0
      && Joined(t[..n + 1]) == Joined(t[..n]) + [Spliced(Value(t[n - 1]), Value(t[n]), n * 6 % 8)]
      && (n + 1) * 6 % 8 == n * 6 % 8 - 2
    ensures n * 6 % 8 in {0, 2, 4, 6}
  {
    hide Value, Octet, Spliced;
    CountMore(n);
    var was, now := t[..n], t[..n + 1];
    forall j | 0 <= j < |was| * 3 / 4
      ensures j < |now| * 3 / 4 && Octet(now, j) == Octet(was, j)
    {
      OctetLocal(now, was, j);
    }
    if n % 4 != 0 {
      LastOctet(now, n);
    }
  }

  lemma OctetLocal(t: seq<Byte>, u: seq<Byte>, k: nat)
    requires u <= t && k < |u| * 3 / 4
    ensures k < |t| * 3 / 4 && Octet(t, k) == Octet(u, k)
  {
  }

  lemma BodyIs(t: seq<Byte>, n: nat)
    requires n <= |t| && PAD !in t[..n] && (n == |t| || t[n] == PAD)
    ensures Body(t) == t[..n]
  {
    BodyStops(t[..n], t[n..]);
    assert t == t[..n] + t[n..];
  }

  lemma {:induction false} BodyReaches(t: seq<Byte>, n: nat)
    requires n <= |t| && PAD !in t[..n]
    ensures n <= |Body(t)|
  {
    if n > 0 {
      assert t[0] == t[..n][0];
      assert t[1..][..n - 1] == t[..n][1..];
      BodyReaches(t[1..], n - 1);
    }
  }

  lemma RefusedText(mode: Alphabet, now: Alphabet, t: seq<Byte>, n: nat, b: Behavior)
    requires n < |t| && PAD !in t[..n] && t[n] != PAD && Detected(mode, now, t[..n])
    requires if now != Auto then !InAlphabet(now, t[n]) else !InAlphabet(Standard, t[n]) && !InAlphabet(UrlSafe, t[n])
    ensures !Accepts(t, mode, b)
  {
    assert t[..n + 1] == t[..n] + [t[n]];
    BodyReaches(t, n + 1);
    assert Body(t)[..n] == t[..n] && Body(t)[n] == t[n];
    DetectedRefuses(mode, now, Body(t), n);
  }

  lemma DetectedStep(mode: Alphabet, was: Alphabet, now: Alphabet, t: seq<Byte>, n: nat)
    requires n < |t| && Detected(mode, was, t[..n])
    requires was != Auto ==> now == was && InAlphabet(was, t[n])
    requires was == Auto ==> InAlphabet(Standard, t[n]) || InAlphabet(UrlSafe, t[n])
    requires was == Auto ==> now == if Plain(t[n]) then Auto else if InAlphabet(Standard, t[n]) then Standard else UrlSafe
    ensures Detected(mode, now, t[..n + 1])
  {
    assert t[..n + 1] == t[..n] + [t[n]];
    DetectedMore(mode, was, now, t[..n], t[n]);
  }

  /** What the loop knows once it stops at the first padding character or at the end. */
  lemma AcceptsIs(t: seq<Byte>, n: nat, mode: Alphabet, now: Alphabet, b: Behavior)
    requires n <= |t| && PAD !in t[..n] && (n == |t| || t[n] == PAD) && Detected(mode, now, t[..n])
    ensures Body(t) == t[..n] && (Accepts(t, mode, b) <==> b == Loose || AllPadding(t[n..]))
  {
    BodyIs(t, n);
    DetectedFits(mode, now, t[..n]);
  }

  lemma PaddingFails(t: seq<Byte>, n: nat, i: nat)
    requires n <= i < |t| && t[i] != PAD
    ensures !AllPadding(t[n..])
  {
    assert t[n..][i - n] == t[i];
  }

  method Decode(t: seq<Byte>, mode: Alphabet, behavior: Behavior) returns (r: Option<seq<Byte>>)
    ensures r == Decoded(t, mode, behavior)
  {
    hide Value, Octet, Body, Joined, Detected, InAlphabet, Plain, Spliced, Accepts;
    var out: seq<Byte> := [];
    var last, bits, i, now := 0, 0, 0, mode;
    NothingYet(mode, t);
    while i < |t|
      invariant i <= |t| && PAD !in t[..i]
      invariant bits == i * 6 % 8 && (i > 0 ==> last == Value(t[i - 1]))
      invariant out == Joined(t[..i])
      invariant Detected(mode, now, t[..i])
    {
      var c := t[i];
      if c == PAD {
        break;
      }
      var was := now;
      var part: Option<nat>;
      part, now := CharValue(was, c);
      if part.None? {
        RefusedText(mode, was, t, i, behavior);
        return None;
      }
      DetectedStep(mode, was, now, t, i);
      JoinedMore(t, i);
      if bits + 6 >= 8 {
        out := out + [Spliced(last, part.value, bits)];
        bits := bits - 2;
      } else {
        bits := bits + 6;
      }
      last := part.value;
      i := i + 1;
    }
    AcceptsIs(t, i, mode, now, behavior);
    if behavior != Loose {
      ghost var n := i;
      while i < |t|
        invariant n <= i <= |t| && forall k | n <= k < i :: t[k] == PAD
      {
        if t[i] != PAD {
          PaddingFails(t, n, i);
          return None;
        }
        i := i + 1;
      }
    }
    return Some(out);
  }

  lemma NothingYet(mode: Alphabet, t: seq<Byte>)
    ensures Detected(mode, mode, t[..0]) && Joined(t[..0]) == []
  {
  }

  /** The array, part decoded: its front holds the bytes so far, and what is still to be read is unchanged. */
  ghost predicate PartDecoded(
    a: seq<Byte>, t: seq<Byte>, n: nat, i: nat, last: nat, bits: nat, mode: Alphabet, now: Alphabet)
  {
    && n <= i <= |t| == |a| && PAD !in t[..i]
    && a[n..] == t[n..] && a[..n] == Joined(t[..i])
    && bits == i * 6 % 8 && (i > 0 ==> last == Value(t[i - 1]))
    && Detected(mode, now, t[..i])
  }

  lemma StillThere(a: seq<Byte>, t: seq<Byte>, n: nat, i: nat)
    requires n <= i <= |t| == |a| && a[n..] == t[n..]
    ensures a[i..] == t[i..] && (i < |t| ==> a[i] == t[i])
  {
    assert a[i..] == a[n..][i - n..] && t[i..] == t[n..][i - n..];
    assert i < |t| ==> a[i] == a[i..][0] && t[i] == t[i..][0];
  }

  /** One character that is no padding. */
  method TakeChar(a: array<Byte>, n: nat, i: nat, last: nat, bits: nat, mode: Alphabet, now: Alphabet, ghost t: seq<Byte>)
    returns (ok: bool, n': nat, last': nat, bits': nat, now': Alphabet)
    requires i < a.Length == |t| && a[i] != PAD && PartDecoded(a[..], t, n, i, last, bits, mode, now)
    modifies a
    ensures ok ==> PartDecoded(a[..], t, n', i + 1, last', bits', mode, now')
    ensures !ok ==> forall behavior :: !Accepts(t, mode, behavior)
  {
    hide Value, Octet, Body, Joined, Detected, InAlphabet, Plain, Spliced, Accepts;
    StillThere(a[..], t, n, i);
    assert a[..][n..] == a[n..] && a[..][..n] == a[..n];
    n', last', bits' := n, last, bits;
    var part: Option<nat>;
    part, now' := CharValue(now, a[i]);
    ok := part.Some?;
    if !ok {
      forall behavior ensures !Accepts(t, mode, behavior) { RefusedText(mode, now, t, i, behavior); }
      return;
    }
    DetectedStep(mode, now, now', t, i);
    JoinedMore(t, i);
    if bits + 6 >= 8 {
      WriteBehind(a, n, t, Spliced(last, part.value, bits));
      n' := n + 1;
      bits' := bits - 2;
    } else {
      bits' := bits + 6;
    }
    last' := part.value;
    assert a[..][n'..] == a[n'..] && a[..][..n'] == a[..n'];
  }

  /**
   * Decodes into the array that holds the text: the bytes written never reach the characters still to be read,
   * so the result is that of decoding into a fresh sequence, and what stands behind it is unchanged.
   */
  method DecodeInPlace(a: array<Byte>, mode: Alphabet, behavior: Behavior) returns (r: Option<nat>)
    modifies a
    ensures r.None? <==> Decoded(old(a[..]), mode, behavior) == None
    ensures r.Some? ==> r.value <= a.Length && Decoded(old(a[..]), mode, behavior) == Some(a[..r.value])
    ensures r.Some? ==> a[r.value..] == old(a[r.value..])
  {
    hide Value, Octet, Body, Joined, Detected, InAlphabet, Plain, Spliced, Accepts;
    ghost var t := a[..];
    var n: nat, last: nat, bits: nat, i: nat, now := 0, 0, 0, 0, mode;
    NothingYet(mode, t);
    while i < a.Length
      invariant i <= a.Length && PartDecoded(a[..], t, n, i, last, bits, mode, now)
    {
      if a[i] == PAD {
        break;
      }
      var ok: bool;
      ok, n, last, bits, now := TakeChar(a, n, i, last, bits, mode, now, t);
      if !ok {
        return None;
      }
      i := i + 1;
    }
    StillThere(a[..], t, n, i);
    AcceptsIs(t, i, mode, now, behavior);
    if behavior != Loose {
      assert a[i..] == a[..][i..];
      var ok := OnlyPadding(a, i);
      if !ok {
        return None;
      }
    }
    assert a[..n] == a[..][..n] && a[n..] == a[..][n..];
    return Some(n);
  }

  /** The loop that checks what follows the first padding character. */
  method OnlyPadding(a: array<Byte>, from: nat) returns (ok: bool)
    requires from <= a.Length
    ensures ok == AllPadding(a[from..])
  {
    var i := from;
    while i < a.Length
      invariant from <= i <= a.Length && forall k | from <= k < i :: a[k] == PAD
    {
      if a[i] != PAD {
        PaddingFails(a[..], from, i);
        assert a[..][from..] == a[from..];
        return false;
      }
      i := i + 1;
    }
    return true;
  }

  method WriteBehind(a: array<Byte>, n: nat, ghost t: seq<Byte>, b: Byte)
    requires n < a.Length == |t| && a[n..] == t[n..]
    modifies a
    ensures a[..n + 1] == old(a[..n]) + [b] && a[n + 1..] == t[n + 1..]
  {
    assert t[n + 1..] == t[n..][1..] && a[n + 1..] == a[n..][1..];
    a[n] := b;
  }

  // ---------------------------------------------------------------- the automatic mode

  /** Automatic mode accepts exactly what one of the two alphabets accepts, with the same result. */
  lemma AutoIsEither(t: seq<Byte>, b: Behavior)
    ensures var s, u := Decoded(t, Standard, b), Decoded(t, UrlSafe, b);
      Decoded(t, Auto, b) == if s.Some? then s else u
  {
  }

  /** A loose decoder takes whatever stands before the first padding character; a moderate one takes no more. */
  lemma LooseTakesMore(t: seq<Byte>, a: Alphabet)
    ensures Decoded(t, a, Loose) == Decoded(Body(t), a, Moderate)
    ensures Decoded(t, a, Moderate).Some? ==> Decoded(t, a, Moderate) == Decoded(t, a, Loose)
  {
    var body := Body(t);
    BodyStops(body, []);
    assert body + [] == body;
  }

  // ---------------------------------------------------------------- spelled out

  const CAPITALS: string := "ABCDEFGHIJKLMNOPQRSTUVWXYZ"
  const SMALL_LETTERS: string := "abcdefghijklmnopqrstuvwxyz"
  const DIGITS: string := "0123456789"

  lemma CapitalsAre(i: nat)
    requires i < 26
    ensures |CAPITALS| == 26 && CAPITALS[i] as int == 65 + i
  {
  }

  lemma SmallLettersAre(i: nat)
    requires i < 26
    ensures |SMALL_LETTERS| == 26 && SMALL_LETTERS[i] as int == 97 + i
  {
  }

  lemma DigitsAre(i: nat)
    requires i < 10
    ensures |DIGITS| == 10 && DIGITS[i] as int == 48 + i
  {
  }

  /** The alphabets of sections 4 and 5 of RFC 4648, in the order of the values. */
  lemma AlphabetsSpelled(v: nat)
    requires v < 64
    ensures |CAPITALS + SMALL_LETTERS + DIGITS| == 62
    ensures Letter(Standard, v) as int == (CAPITALS + SMALL_LETTERS + DIGITS + "+/")[v] as int
    ensures Letter(UrlSafe, v) as int == (CAPITALS + SMALL_LETTERS + DIGITS + "-_")[v] as int
    ensures PAD as int == '=' as int
  {
    CapitalsAre(if v < 26 then v else 0);
    SmallLettersAre(if 26 <= v < 52 then v - 26 else 0);
    DigitsAre(if 52 <= v < 62 then v - 52 else 0);
    hide CAPITALS, SMALL_LETTERS, DIGITS;
  }

  /** The number that some digits make, the highest one first. */
  function Digits(base: nat, ds: seq<nat>): nat {
    if ds == [] then 0 else Digits(base, ds[..|ds| - 1]) * base + ds[|ds| - 1]
  }

  lemma FourDigits(base: nat, a: nat, b: nat, c: nat, d: nat)
    ensures Digits(base, [a, b, c]) == (a * base + b) * base + c
    ensures Digits(base, [a, b, c, d]) == ((a * base + b) * base + c) * base + d
  {
    assert [a, b, c, d][..3] == [a, b, c] && [a, b, c][..2] == [a, b] && [a, b][..1] == [a] && [a][..0] == [];
    assert Digits(base, [a]) == a && Digits(base, [a, b]) == a * base + b;
  }

  /** Three bytes and the four letters they become are the same number, in base 256 and in base 64; missing bytes are zero. */
  lemma GroupsAgree(s: seq<Byte>, g: nat)
    ensures Digits(256, [At(s, 3 * g), At(s, 3 * g + 1), At(s, 3 * g + 2)])
      == Digits(64, [Sextet(s, 4 * g), Sextet(s, 4 * g + 1), Sextet(s, 4 * g + 2), Sextet(s, 4 * g + 3)])
  {
    hide At, Sextet, Digits, Six;
    var x, y, z := At(s, 3 * g), At(s, 3 * g + 1), At(s, 3 * g + 2);
    SextetsOfGroup(s, 3 * g, 4 * g);
    FourDigits(256, x, y, z, 0);
    FourDigits(64, Six(0, x, y), Six(1, x, y), Six(2, y, z), Six(3, z, 0));
    SixesAgree(x, y, z);
  }

  lemma SixesAgree(x: nat, y: nat, z: nat)
    requires x < 256 && y < 256 && z < 256
    ensures (x * 256 + y) * 256 + z == ((Six(0, x, y) * 64 + Six(1, x, y)) * 64 + Six(2, y, z)) * 64 + Six(3, z, 0)
  {
    assert x == x / 4 * 4 + x % 4 && y == y / 16 * 16 + y % 16 && z == z / 64 * 64 + z % 64;
  }

  lemma FourLetters(s: seq<Byte>, a: Alphabet)
    requires 1 <= |s| <= 3
    ensures Encoded(s, a) ==
      [Letter(a, Six(0, At(s, 0), At(s, 1))), Letter(a, Six(1, At(s, 0), At(s, 1)))]
      + (if |s| > 1 then [Letter(a, Six(2, At(s, 1), At(s, 2)))] else [PAD])
      + (if |s| > 2 then [Letter(a, Six(3, At(s, 2), 0))] else [PAD])
  {
    hide Letter, Six, At, Sextet;
    SextetsOfGroup(s, 0, 0);
    assert Padding(2) == [PAD, PAD] && Padding(1) == [PAD] && Padding(0) == [];
  }

  /** Examples of section 10 of RFC 4648: `f`, `fo` and `foo`. */
  lemma Examples()
    ensures Encoded(Codes("f"), Standard) == Codes("Zg==")
    ensures Encoded(Codes("fo"), Standard) == Codes("Zm8=")
    ensures Encoded(Codes("foo"), Standard) == Codes("Zm9v")
  {
    hide Encoded;
    FourLetters(Codes("f"), Standard);
    FourLetters(Codes("fo"), Standard);
    FourLetters(Codes("foo"), Standard);
  }
}
