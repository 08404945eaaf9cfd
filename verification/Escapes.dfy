/** Backslash escapes, undone in place: the loop against a function of the original text. */
module Escapes {
  import opened Wrappers
  import opened Octets

  const BACKSLASH: Byte := 92
  const LETTER_X: Byte := 120

  // ---------------------------------------------------------------- numbers as strtol reads them

  predicate IsHex(c: Byte) {
    48 <= c <= 57 || 65 <= c <= 70 || 97 <= c <= 102
  }

  function HexValue(c: Byte): (v: nat)
    requires IsHex(c)
    ensures v < 16
  {
    if c <= 57 then c as int - 48 else if c <= 70 then c as int - 55 else c as int - 87
  }

  predicate IsSpace(c: Byte) {
    c == 32 || 9 <= c <= 13
  }

  predicate IsSign(c: Byte) {
    c == 43 || c == 45
  }

  function Spaces(s: seq<Byte>): (n: nat)
    ensures n <= |s|
  {
    if s == [] || !IsSpace(s[0]) then 0 else 1 + Spaces(s[1..])
  }

  function Digits(s: seq<Byte>): (n: nat)
    ensures n <= |s|
    ensures forall i | 0 <= i < n :: IsHex(s[i])
  {
    if s == [] || !IsHex(s[0]) then 0 else 1 + Digits(s[1..])
  }

  function Number(s: seq<Byte>): nat
    requires forall i | 0 <= i < |s| :: IsHex(s[i])
  {
    if s == [] then 0 else 16 * Number(s[..|s| - 1]) + HexValue(s[|s| - 1])
  }

  /**
   * Base 16: spaces, a sign, a prefix 0x that counts only before a digit, then digits.
   * The second part is where reading stopped, 0 if there was no number.
   */
  function Strtol16(s: seq<Byte>): (int, nat) {
    var w := Spaces(s);
    var p := if w < |s| && IsSign(s[w]) then w + 1 else w;
    var q := if p + 2 < |s| && s[p] == 48 && s[p + 1] in {88, 120} && IsHex(s[p + 2]) then p + 2 else p;
    var d := Digits(s[q..]);
    var n: int := Number(s[q..][..d]);
    var signed: int := if w < p && s[w] == 45 then -n else n;
    if d == 0 then (0, 0) else (signed, q + d)
  }

  /** The byte that two characters after `\x` stand for. */
  function HexPair(a: Byte, b: Byte): Option<Byte> {
    if !IsHex(b) then None
    else if IsHex(a) then Some((HexValue(a) * 16 + HexValue(b)) as Byte)
    else if IsSpace(a) || a == 43 then Some(HexValue(b) as Byte)
    else if a == 45 then Some(((256 - HexValue(b)) % 256) as Byte)
    else None
  }

  /** Two characters are taken as a number exactly if they are two digits, or a space or sign and a digit. */
  lemma PairAsNumber(a: Byte, b: Byte)
    ensures Strtol16([a, b]).1 == 2 <==> HexPair(a, b).Some?
    ensures HexPair(a, b).Some? ==> (Strtol16([a, b]).0 % 256) as Byte == HexPair(a, b).value
  {
    hide IsHex, IsSpace, HexValue, Number, Spaces, Digits;
    var s := [a, b];
    assert s[1..] == [b] && s[0..] == s && s[..2] == s && s[2..] == [] && [b][..1] == [b];
    OneChar(b);
    TwoChars(a, b);
    OneKind(a);
    OneKind(b);
  }

  lemma OneKind(c: Byte)
    ensures IsHex(c) ==> !IsSpace(c) && !IsSign(c)
    ensures IsSpace(c) ==> !IsSign(c)
  {
  }

  lemma OneChar(b: Byte)
    ensures Spaces([b]) == if IsSpace(b) then 1 else 0
    ensures Digits([b]) == if IsHex(b) then 1 else 0
    ensures IsHex(b) ==> Number([b]) == HexValue(b)
    ensures Digits([]) == 0
  {
    assert [b][1..] == [] && [b][..0] == [];
  }

  lemma TwoChars(a: Byte, b: Byte)
    ensures Spaces([a, b]) == if !IsSpace(a) then 0 else if IsSpace(b) then 2 else 1
    ensures Digits([a, b]) == if !IsHex(a) then 0 else if IsHex(b) then 2 else 1
    ensures IsHex(a) && IsHex(b) ==> Number([a, b]) == 16 * HexValue(a) + HexValue(b)
  {
    OneChar(a);
    OneChar(b);
    assert [a, b][1..] == [b] && [a, b][..1] == [a];
  }

  // ---------------------------------------------------------------- the text without its escapes

  /** The characters that a backslash and one letter stand for. */
  function Simple(c: Byte): Option<Byte> {
    if c == 110 then Some(10)
    else if c == 114 then Some(13)
    else if c == 116 then Some(9)
    else if c == 39 || c == 34 || c == BACKSLASH then Some(c)
    else None
  }

  function Unescape(s: seq<Byte>): (r: seq<Byte>)
    ensures |r| <= |s|
  {
    if s == [] then []
    else if s[0] != BACKSLASH || |s| == 1 then [s[0]] + Unescape(s[1..])
    else if Simple(s[1]).Some? then [Simple(s[1]).value] + Unescape(s[2..])
    else if s[1] == LETTER_X && |s| > 3 && HexPair(s[2], s[3]).Some? then
      [HexPair(s[2], s[3]).value] + Unescape(s[4..])
    else [BACKSLASH, s[1]] + Unescape(s[2..])
  }

  /** The ways to spell one character. */
  predicate Spells(piece: seq<Byte>, c: Byte) {
    || (|piece| == 1 && piece[0] == c && c != BACKSLASH)
    || (|piece| == 2 && piece[0] == BACKSLASH && Simple(piece[1]) == Some(c))
    || (|piece| == 4 && piece[0] == BACKSLASH && piece[1] == LETTER_X && HexPair(piece[2], piece[3]) == Some(c))
  }

  function Flat(pieces: seq<seq<Byte>>): seq<Byte> {
    if pieces == [] then [] else pieces[0] + Flat(pieces[1..])
  }

  /** Whatever spellings a text is put together from, unescaping gives the characters they spell. */
  lemma {:induction false} SpelledText(pieces: seq<seq<Byte>>, s: seq<Byte>)
    requires |pieces| == |s| && forall i | 0 <= i < |s| :: Spells(pieces[i], s[i])
    ensures Unescape(Flat(pieces)) == s
  {
    if s != [] {
      SpelledText(pieces[1..], s[1..]);
      OneSpelling(pieces[0], s[0], Flat(pieces[1..]));
    }
  }

  lemma OneSpelling(piece: seq<Byte>, c: Byte, rest: seq<Byte>)
    requires Spells(piece, c)
    ensures Unescape(piece + rest) == [c] + Unescape(rest)
  {
    hide HexPair;
    var s := piece + rest;
    assert s[|piece|..] == rest;
    assert s[0] == piece[0];
    if |piece| > 1 { assert s[1] == piece[1]; }
    if |piece| > 2 { assert s[2] == piece[2] && s[3] == piece[3]; }
  }

  /** Every character has a spelling in hexadecimal digits. */
  lemma HexSpelling(c: Byte)
    ensures Spells([BACKSLASH, LETTER_X, HexDigit(c as int / 16), HexDigit(c as int % 16)], c)
  {
    assert Simple(LETTER_X) == None;
  }

  function HexDigit(v: nat): (c: Byte)
    requires v < 16
    ensures IsHex(c) && HexValue(c) == v
  {
    if v < 10 then (48 + v) as Byte else (87 + v) as Byte
  }

  /** A text without backslashes is left as it is. */
  lemma {:induction false} PlainText(s: seq<Byte>)
    requires BACKSLASH !in s
    ensures Unescape(s) == s
  {
    if s != [] { PlainText(s[1..]); }
  }

  /** The escapes of one letter: what the letter stands for. */
  lemma LetterStandsFor(letter: char, meant: char, rest: seq<Byte>)
    requires (letter, meant) in
      {('n', '\n'), ('r', '\r'), ('t', '\t'), ('"', '"'), ('\'', '\''), ('\\', '\\')}
    ensures Unescape(Codes(['\\', letter]) + rest) == Codes([meant]) + Unescape(rest)
  {
    hide Unescape;
    var pair := Codes(['\\', letter]);
    assert Simple(pair[1]) == Some(Codes([meant])[0]);
    TwoEscaped(pair, rest);
    assert Codes([meant]) == [Codes([meant])[0]];
  }

  lemma TwoEscaped(pair: seq<Byte>, rest: seq<Byte>)
    requires |pair| == 2 && pair[0] == BACKSLASH && Simple(pair[1]).Some?
    ensures Unescape(pair + rest) == [Simple(pair[1]).value] + Unescape(rest)
  {
    var s := pair + rest;
    assert s[0] == pair[0] && s[1] == pair[1] && s[2..] == rest;
  }

  /** Before any other letter the backslash stays, and so it does at the end. */
  lemma OthersStay(c: Byte, rest: seq<Byte>)
    requires c !in Codes("nrtx\"'\\")
    ensures Unescape(Codes("\\") + [c] + rest) == Codes("\\") + [c] + Unescape(rest)
    ensures Unescape(Codes("\\")) == Codes("\\")
  {
    var letters := Codes("nrtx\"'\\");
    assert letters == [110, 114, 116, 120, 34, 39, 92];
    assert forall i | 0 <= i < |letters| :: letters[i] in letters;
    assert Codes("\\") == [BACKSLASH];
    var s := Codes("\\") + [c] + rest;
    assert s[0] == BACKSLASH && s[1] == c && s[2..] == rest;
    assert Simple(c) == None && c != LETTER_X;
    assert [BACKSLASH][1..] == [];
    assert [BACKSLASH, c] + Unescape(rest) == Codes("\\") + [c] + Unescape(rest);
  }

  /** The digits, in either case, in the order of their values; the escape starts with a backslash and an x. */
  lemma DigitsSpelled(v: nat)
    requires v < 16
    ensures IsHex(Codes("0123456789abcdef")[v]) && HexValue(Codes("0123456789abcdef")[v]) == v
    ensures IsHex(Codes("0123456789ABCDEF")[v]) && HexValue(Codes("0123456789ABCDEF")[v]) == v
    ensures Codes("\\x") == [BACKSLASH, LETTER_X]
  {
    var lower, upper := "0123456789abcdef", "0123456789ABCDEF";
    assert v < 10 ==> lower[v] as int == 48 + v && upper[v] as int == 48 + v;
    assert v >= 10 ==> lower[v] as int == 87 + v && upper[v] as int == 55 + v;
  }

  // ---------------------------------------------------------------- the loop

  lemma UnescapeFrom(s: seq<Byte>, i: nat)
    requires i < |s|
    ensures s[i] != BACKSLASH || i + 1 == |s| ==> Unescape(s[i..]) == [s[i]] + Unescape(s[i + 1..])
    ensures s[i] == BACKSLASH && i + 1 < |s| && Simple(s[i + 1]).Some? ==>
      Unescape(s[i..]) == [Simple(s[i + 1]).value] + Unescape(s[i + 2..])
    ensures s[i] == BACKSLASH && i + 1 < |s| && Simple(s[i + 1]).None? ==>
      Unescape(s[i..]) ==
      if s[i + 1] == LETTER_X && i + 3 < |s| && HexPair(s[i + 2], s[i + 3]).Some?
      then [HexPair(s[i + 2], s[i + 3]).value] + Unescape(s[i + 4..])
      else [BACKSLASH, s[i + 1]] + Unescape(s[i + 2..])
  {
    hide HexPair, Simple;
    var t := s[i..];
    assert t[1..] == s[i + 1..];
    if i + 1 < |s| { assert t[2..] == s[i + 2..]; }
    if i + 3 < |s| { assert t[4..] == s[i + 4..]; }
  }

  /** The front holds what has been written, and what is still to be read is unchanged. */
  predicate Half(a: seq<Byte>, s: seq<Byte>, n: nat, done: seq<Byte>) {
    n <= |a| == |s| && a[..n] == done && a[n..] == s[n..]
  }

  /** Puts one character at n, which is behind the characters still to be read. */
  method Put(a: array<Byte>, n: nat, c: Byte, ghost s: seq<Byte>, ghost done: seq<Byte>)
    requires n < a.Length && Half(a[..], s, n, done)
    modifies a
    ensures Half(a[..], s, n + 1, done + [c])
  {
    assert s[n + 1..] == s[n..][1..] && a[..][n + 1..] == a[..][n..][1..];
    a[n] := c;
  }

  lemma Unread(a: seq<Byte>, s: seq<Byte>, n: nat, done: seq<Byte>, i: nat)
    requires n <= i < |a| && Half(a, s, n, done)
    ensures i < |s| && a[i] == s[i]
  {
    assert a[i] == a[n..][i - n] && s[i] == s[n..][i - n];
  }

  /** The number after `\x`, if there is one. */
  method TakeNumber(a: array<Byte>, i: nat, n: nat, ghost s: seq<Byte>, ghost done: seq<Byte>)
    returns (taken: bool, ghost piece: seq<Byte>)
    requires n <= i && i + 3 < a.Length && Half(a[..], s, n, done)
    requires s[i] == BACKSLASH && s[i + 1] == LETTER_X
    modifies a
    ensures !taken ==> Half(a[..], s, n, done) && HexPair(s[i + 2], s[i + 3]).None?
    ensures taken ==> Half(a[..], s, n + 1, done + piece) && Unescape(s[i..]) == piece + Unescape(s[i + 4..])
  {
    hide Unescape, HexPair, Strtol16, Half;
    Unread(a[..], s, n, done, i + 2);
    Unread(a[..], s, n, done, i + 3);
    PairAsNumber(a[i + 2], a[i + 3]);
    var (val, end) := Strtol16([a[i + 2], a[i + 3]]);
    taken, piece := end == 2, [];
    if taken {
      UnescapeFrom(s, i);
      Put(a, n, (val % 256) as Byte, s, done);
      piece := [(val % 256) as Byte];
    }
  }

  lemma SimpleIs(c: Byte)
    ensures c == 110 ==> Simple(c) == Some(10)
    ensures c == 114 ==> Simple(c) == Some(13)
    ensures c == 116 ==> Simple(c) == Some(9)
    ensures c == 39 || c == 34 || c == BACKSLASH ==> Simple(c) == Some(c)
    ensures Simple(c).Some? ==> c in {110, 114, 116, 39, 34, BACKSLASH}
  {
  }

  /** Reads one piece of the text, which starts with a backslash and at least one more character. */
  method TakeEscape(a: array<Byte>, i: nat, n: nat, ghost s: seq<Byte>, ghost done: seq<Byte>)
    returns (next: nat, m: nat, ghost piece: seq<Byte>)
    requires n <= i && i + 1 < a.Length == |s| && Half(a[..], s, n, done) && s[i] == BACKSLASH
    modifies a
    ensures i < next <= a.Length && n < m <= next && Half(a[..], s, m, done + piece)
    ensures Unescape(s[i..]) == piece + Unescape(s[next..])
  {
    hide Unescape, HexPair, Half, Simple;
    UnescapeFrom(s, i);
    Unread(a[..], s, n, done, i + 1);
    var c := a[i + 1];
    SimpleIs(c);
    if c == 110 {
      Put(a, n, 10, s, done);
      return i + 2, n + 1, [10];
    } else if c == 114 {
      Put(a, n, 13, s, done);
      return i + 2, n + 1, [13];
    } else if c == 116 {
      Put(a, n, 9, s, done);
      return i + 2, n + 1, [9];
    } else if c == 39 || c == 34 || c == BACKSLASH {
      Put(a, n, c, s, done);
      return i + 2, n + 1, [c];
    } else if c == LETTER_X && i + 3 < a.Length {
      var taken;
      taken, piece := TakeNumber(a, i, n, s, done);
      if taken {
        return i + 4, n + 1, piece;
      }
    }
    CopyPair(a, i, n, s, done);
    return i + 2, n + 2, [BACKSLASH, c];
  }

  /** What is no escape is copied with its backslash. */
  method CopyPair(a: array<Byte>, i: nat, n: nat, ghost s: seq<Byte>, ghost done: seq<Byte>)
    requires n <= i && i + 1 < a.Length == |s| && Half(a[..], s, n, done)
    modifies a
    ensures Half(a[..], s, n + 2, done + [BACKSLASH, s[i + 1]])
  {
    hide Half;
    Put(a, n, BACKSLASH, s, done);
    Unread(a[..], s, n + 1, done + [BACKSLASH], i + 1);
    Put(a, n + 1, a[i + 1], s, done + [BACKSLASH]);
    assert done + [BACKSLASH] + [s[i + 1]] == done + [BACKSLASH, s[i + 1]];
  }

  /**
   * Undoes the escapes of the text in the array. The text without escapes takes the front of the array,
   * and the characters behind it, which the caller cuts off, are as they were.
   */
  method ProcessEscapes(a: array<Byte>) returns (n: nat)
    modifies a
    ensures n <= a.Length && a[..n] == Unescape(old(a[..]))
    ensures a[n..] == old(a[n..])
  {
    hide Unescape, Half;
    ghost var s := a[..];
    ghost var done: seq<Byte> := [];
    var i: nat := 0;
    n := 0;
    NothingDone(s);
    while i < a.Length
      invariant n <= i <= a.Length && Half(a[..], s, n, done)
      invariant done + Unescape(s[i..]) == Unescape(s)
    {
      ghost var piece: seq<Byte> := [a[i]];
      ghost var from := i;
      Unread(a[..], s, n, done, i);
      if a[i] == BACKSLASH && i + 1 < a.Length {
        i, n, piece := TakeEscape(a, i, n, s, done);
      } else {
        UnescapeFrom(s, i);
        Put(a, n, a[i], s, done);
        i, n := i + 1, n + 1;
      }
      assert Unescape(s[from..]) == piece + Unescape(s[i..]);
      assert done + (piece + Unescape(s[i..])) == (done + piece) + Unescape(s[i..]);
      done := done + piece;
    }
    AllDone(a[..], s, n, done);
    assert a[..n] == a[..][..n] && a[n..] == a[..][n..];
  }

  lemma NothingDone(s: seq<Byte>)
    ensures Half(s, s, 0, []) && s[0..] == s && [] + Unescape(s[0..]) == Unescape(s)
  {
  }

  lemma AllDone(a: seq<Byte>, s: seq<Byte>, n: nat, done: seq<Byte>)
    requires Half(a, s, n, done) && done + Unescape(s[|s|..]) == Unescape(s)
    ensures n <= |a| && a[..n] == Unescape(s) && a[n..] == s[n..]
  {
    assert s[|s|..] == [] && done + [] == done;
  }
}
