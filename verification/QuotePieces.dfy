/** What the rewriter does to every text, said of the pieces that the text is made of. */
module QuotePieces {
  import opened Quotes

  /** Inside a string: an escape of two characters, or one character that stands for itself. */
  datatype Bit = Pair(next: char) | Plain(c: char)

  /** A bare word, any other character outside strings, or a string; a string may be cut off, even inside an escape. */
  datatype Piece =
    | Word(text: string)
    | Other(c: char)
    | Text(quote: char, bits: seq<Bit>)
    | Cut(quote: char, bits: seq<Bit>, backslash: bool)

  predicate LetterDigitOrLine(c: char) {
    var code := c as int;
    97 <= code <= 122 || 65 <= code <= 90 || 48 <= code <= 57 || code == 95
  }

  predicate BitsOk(quote: char, bits: seq<Bit>) {
    forall i | 0 <= i < |bits| && bits[i].Plain? :: bits[i].c != quote && bits[i].c != '\\'
  }

  predicate PieceOk(p: Piece) {
    match p
    case Word(text) => text != "" && forall i | 0 <= i < |text| :: LetterDigitOrLine(text[i])
    case Other(c) => c != '"' && c != '\'' && !LetterDigitOrLine(c)
    case Text(quote, bits) => (quote == '"' || quote == '\'') && BitsOk(quote, bits)
    case Cut(quote, bits, _) => (quote == '"' || quote == '\'') && BitsOk(quote, bits)
  }

  /** Words are whole, and only the last string may be cut off. */
  predicate PiecesOk(ps: seq<Piece>) {
    && (forall i | 0 <= i < |ps| :: PieceOk(ps[i]))
    && (forall i | 0 <= i < |ps| - 1 :: !ps[i].Cut? && !(ps[i].Word? && ps[i + 1].Word?))
  }

  // ---------------------------------------------------------------- the text, and what it becomes

  function BitText(b: Bit): string {
    match b
    case Pair(next) => ['\\', next]
    case Plain(c) => [c]
  }

  function BitsText(bits: seq<Bit>): string {
    if bits == [] then "" else BitText(bits[0]) + BitsText(bits[1..])
  }

  function PieceText(p: Piece): string {
    match p
    case Word(text) => text
    case Other(c) => [c]
    case Text(quote, bits) => [quote] + (BitsText(bits) + [quote])
    case Cut(quote, bits, backslash) => [quote] + (BitsText(bits) + if backslash then "\\" else "")
  }

  function PiecesText(ps: seq<Piece>): string {
    if ps == [] then "" else PieceText(ps[0]) + PiecesText(ps[1..])
  }

  /** In single quotes an escaped single quote loses its escape and a double quote gets one; all else stays. */
  function BitBecomes(quote: char, b: Bit): string {
    if quote == '\'' && b == Pair('\'') then "'"
    else if quote == '\'' && b == Plain('"') then "\\\""
    else BitText(b)
  }

  function BitsBecome(quote: char, bits: seq<Bit>): string {
    if bits == [] then "" else BitBecomes(quote, bits[0]) + BitsBecome(quote, bits[1..])
  }

  /** The first letters of a Python literal become as many of the JSON literal; every other word stays. */
  function WordBecomes(w: string): string {
    if w <= "True" then "true"[..|w|]
    else if w <= "False" then "false"[..|w|]
    else if w <= "None" then "null"[..|w|]
    else w
  }

  function PieceBecomes(p: Piece): string {
    match p
    case Word(text) => WordBecomes(text)
    case Other(c) => [c]
    case Text(quote, bits) => "\"" + (BitsBecome(quote, bits) + "\"")
    case Cut(quote, bits, backslash) => "\"" + (BitsBecome(quote, bits) + if backslash then "\\" else "")
  }

  function PiecesBecome(ps: seq<Piece>): string {
    if ps == [] then "" else PieceBecomes(ps[0]) + PiecesBecome(ps[1..])
  }

  // ---------------------------------------------------------------- the rewriter does that

  lemma WordChars(c: char)
    ensures IsWordChar(c) <==> LetterDigitOrLine(c)
  {
  }

  lemma WordRewritten(w: string)
    requires w != ""
    ensures Literal(w) == WordBecomes(w)
  {
  }

  function QuoteOf(c: char): Quote {
    if c == '"' then Double else Single
  }

  lemma OneBit(quote: char, b: Bit, rest: string)
    requires quote == '"' || quote == '\''
    requires b.Plain? ==> b.c != quote && b.c != '\\'
    ensures Rewrite(QuoteOf(quote), BitText(b) + rest) == BitBecomes(quote, b) + Rewrite(QuoteOf(quote), rest)
  {
    var s := BitText(b) + rest;
    if b.Pair? {
      assert s[2..] == rest;
    } else {
      assert s[1..] == rest;
    }
  }

  lemma {:induction false} AllBits(quote: char, bits: seq<Bit>, rest: string)
    requires (quote == '"' || quote == '\'') && BitsOk(quote, bits)
    ensures Rewrite(QuoteOf(quote), BitsText(bits) + rest) == BitsBecome(quote, bits) + Rewrite(QuoteOf(quote), rest)
    decreases bits
  {
    hide Rewrite, BitText, BitBecomes;
    var out := Rewrite(QuoteOf(quote), rest);
    if bits == [] {
      assert "" + rest == rest && "" + out == out;
    } else {
      var b, more := BitText(bits[0]), BitsText(bits[1..]);
      assert (b + more) + rest == b + (more + rest);
      OneBit(quote, bits[0], more + rest);
      AllBits(quote, bits[1..], rest);
      var x, y := BitBecomes(quote, bits[0]), BitsBecome(quote, bits[1..]);
      assert x + (y + out) == (x + y) + out;
    }
  }

  lemma Opens(quote: char, rest: string)
    requires quote == '"' || quote == '\''
    ensures Rewrite(Bare, [quote] + rest) == "\"" + Rewrite(QuoteOf(quote), rest)
    ensures Rewrite(QuoteOf(quote), [quote] + rest) == "\"" + Rewrite(Bare, rest)
  {
    assert ([quote] + rest)[1..] == rest;
  }

  lemma TextRewritten(quote: char, bits: seq<Bit>, rest: string)
    requires (quote == '"' || quote == '\'') && BitsOk(quote, bits)
    ensures Rewrite(Bare, PieceText(Text(quote, bits)) + rest)
      == PieceBecomes(Text(quote, bits)) + Rewrite(Bare, rest)
  {
    hide Rewrite;
    var inner, out, after := BitsText(bits), BitsBecome(quote, bits), Rewrite(Bare, rest);
    assert ([quote] + (inner + [quote])) + rest == [quote] + (inner + ([quote] + rest));
    Opens(quote, inner + ([quote] + rest));
    AllBits(quote, bits, [quote] + rest);
    Opens(quote, rest);
    assert "\"" + (out + ("\"" + after)) == ("\"" + (out + "\"")) + after;
  }

  lemma CutRewritten(quote: char, bits: seq<Bit>, backslash: bool)
    requires (quote == '"' || quote == '\'') && BitsOk(quote, bits)
    ensures Rewrite(Bare, PieceText(Cut(quote, bits, backslash))) == PieceBecomes(Cut(quote, bits, backslash))
  {
    hide Rewrite;
    var tail := if backslash then "\\" else "";
    Opens(quote, BitsText(bits) + tail);
    AllBits(quote, bits, tail);
    TailStays(QuoteOf(quote));
  }

  lemma TailStays(q: Quote)
    ensures Rewrite(q, "") == "" && Rewrite(q, "\\") == "\\"
  {
    assert "\\"[1..] == "";
  }

  lemma {:induction false} WordRun(w: string, rest: string)
    requires forall i | 0 <= i < |w| :: IsWordChar(w[i])
    requires rest == "" || !IsWordChar(rest[0])
    ensures WordLen(w + rest) == |w|
  {
    hide IsWordChar;
    if w == "" {
      assert w + rest == rest;
    } else {
      assert (w + rest)[1..] == w[1..] + rest;
      WordRun(w[1..], rest);
    }
  }

  lemma WordFirst(w: string, rest: string)
    requires PieceOk(Word(w)) && (rest == "" || !IsWordChar(rest[0]))
    ensures Rewrite(Bare, w + rest) == WordBecomes(w) + Rewrite(Bare, rest)
  {
    hide IsWordChar, Literal, WordBecomes, LetterDigitOrLine;
    forall i | 0 <= i < |w| ensures IsWordChar(w[i]) { WordChars(w[i]); }
    WordRun(w, rest);
    WordRewritten(w);
    assert (w + rest)[..|w|] == w && (w + rest)[|w|..] == rest && (w + rest)[0] == w[0];
  }

  lemma OtherFirst(c: char, rest: string)
    requires PieceOk(Other(c))
    ensures Rewrite(Bare, [c] + rest) == [c] + Rewrite(Bare, rest)
  {
    hide LetterDigitOrLine;
    WordChars(c);
    assert ([c] + rest)[1..] == rest;
  }

  /** A text that does not start with a word does not start like one. */
  lemma StartsOtherwise(ps: seq<Piece>)
    requires PiecesOk(ps) && (ps == [] || !ps[0].Word?)
    ensures PiecesText(ps) == "" || !IsWordChar(PiecesText(ps)[0])
  {
    hide LetterDigitOrLine, IsWordChar;
    if ps != [] {
      var c := match ps[0] case Other(c) => c case Text(q, _) => q case Cut(q, _, _) => q;
      assert PiecesText(ps)[0] == c;
      WordChars(c);
      WordChars('"');
      WordChars('\'');
      assert !IsWordChar('"') && !IsWordChar('\'') by { QuotesAreNoLetters(); }
    }
  }

  lemma QuotesAreNoLetters()
    ensures !IsWordChar('"') && !IsWordChar('\'')
  {
  }

  lemma OnePiece(p: Piece, rest: seq<Piece>)
    requires PiecesOk([p] + rest) && PiecesOk(rest)
    ensures Rewrite(Bare, PieceText(p) + PiecesText(rest)) == PieceBecomes(p) + Rewrite(Bare, PiecesText(rest))
  {
    hide Rewrite, IsWordChar, LetterDigitOrLine, PieceBecomes, BitsText;
    assert ([p] + rest)[0] == p;
    match p
    case Word(w) =>
      assert rest != [] ==> ([p] + rest)[1] == rest[0];
      StartsOtherwise(rest);
      WordFirst(w, PiecesText(rest));
      BecomesIs(p);
    case Other(c) =>
      OtherFirst(c, PiecesText(rest));
      BecomesIs(p);
    case Text(quote, bits) => TextRewritten(quote, bits, PiecesText(rest));
    case Cut(quote, bits, backslash) =>
      assert rest == [];
      CutRewritten(quote, bits, backslash);
      TailStays(Bare);
      assert PieceText(p) + "" == PieceText(p) && PieceBecomes(p) + "" == PieceBecomes(p);
  }

  lemma BecomesIs(p: Piece)
    ensures p.Word? ==> PieceBecomes(p) == WordBecomes(p.text)
    ensures p.Other? ==> PieceBecomes(p) == [p.c]
  {
  }

  /** The rewriter makes of every text what its pieces become. */
  lemma {:induction false} PiecesRewritten(ps: seq<Piece>)
    requires PiecesOk(ps)
    ensures Rewrite(Bare, PiecesText(ps)) == PiecesBecome(ps)
  {
    hide Rewrite, PieceOk, PieceText, PieceBecomes;
    if ps == [] {
      TailStays(Bare);
    } else {
      assert ps == [ps[0]] + ps[1..];
      OnePiece(ps[0], ps[1..]);
      PiecesRewritten(ps[1..]);
    }
  }

  // ---------------------------------------------------------------- every text has pieces

  /** The inside of a string that has been opened, up to its closing quote or the end of the text. */
  lemma {:induction false} StringFound(quote: char, s: string) returns (bits: seq<Bit>, closed: bool, backslash: bool, rest: string)
    requires quote == '"' || quote == '\''
    ensures BitsOk(quote, bits) && |rest| <= |s|
    ensures if closed then s == BitsText(bits) + ([quote] + rest)
      else s == BitsText(bits) + if backslash then "\\" else ""
    decreases |s|
  {
    bits, closed, backslash, rest := [], false, false, "";
    if s == "\\" {
      backslash := true;
    } else if s != "" && s[0] == quote {
      closed, rest := true, s[1..];
    } else if s != "" {
      var n := if s[0] == '\\' then 2 else 1;
      var b := if n == 2 then Pair(s[1]) else Plain(s[0]);
      assert s == BitText(b) + s[n..];
      bits, closed, backslash, rest := StringFound(quote, s[n..]);
      var tail := if closed then [quote] + rest else if backslash then "\\" else "";
      assert s == BitText(b) + (BitsText(bits) + tail);
      BitsCons(b, bits, tail);
      bits := [b] + bits;
    }
  }

  lemma BitsCons(b: Bit, bits: seq<Bit>, tail: string)
    ensures BitsText([b] + bits) + tail == BitText(b) + (BitsText(bits) + tail)
  {
    assert ([b] + bits)[1..] == bits;
  }

  /** The first piece of a text. */
  lemma FirstPiece(s: string) returns (p: Piece, rest: string)
    requires s != ""
    ensures PieceOk(p) && s == PieceText(p) + rest && |rest| < |s|
    ensures p.Cut? ==> rest == ""
    ensures p.Word? ==> rest == "" || !IsWordChar(rest[0])
  {
    hide LetterDigitOrLine, IsWordChar, BitsText, BitsOk;
    WordChars(s[0]);
    if IsWordChar(s[0]) {
      var n := WordLen(s);
      forall i | 0 <= i < n ensures LetterDigitOrLine(s[i]) { WordChars(s[i]); }
      assert n > 0;
      p, rest := Word(s[..n]), s[n..];
      assert s == s[..n] + s[n..];
    } else if s[0] == '"' || s[0] == '\'' {
      var bits, closed, backslash, after := StringFound(s[0], s[1..]);
      assert s == [s[0]] + s[1..];
      if closed {
        p, rest := Text(s[0], bits), after;
        assert s == ([s[0]] + (BitsText(bits) + [s[0]])) + after;
      } else {
        p, rest := Cut(s[0], bits, backslash), "";
        assert PieceText(p) + "" == PieceText(p);
      }
    } else {
      p, rest := Other(s[0]), s[1..];
      assert s == [s[0]] + s[1..];
    }
  }

  lemma {:induction false} EveryText(s: string) returns (ps: seq<Piece>)
    ensures PiecesOk(ps) && PiecesText(ps) == s
    decreases |s|
  {
    hide PieceOk, PieceText;
    ps := [];
    if s != "" {
      var p, rest := FirstPiece(s);
      var more := EveryText(rest);
      ps := [p] + more;
      assert ps[1..] == more;
      FollowsRightly(p, more);
    }
  }

  lemma FollowsRightly(p: Piece, more: seq<Piece>)
    requires PieceOk(p) && PiecesOk(more)
    requires p.Cut? ==> PiecesText(more) == ""
    requires p.Word? ==> PiecesText(more) == "" || !IsWordChar(PiecesText(more)[0])
    ensures PiecesOk([p] + more)
  {
    hide IsWordChar, LetterDigitOrLine, BitsText;
    if more != [] {
      assert PieceOk(more[0]) && PieceText(more[0]) != "";
      if more[0].Word? { WordChars(more[0].text[0]); }
    }
    var ps := [p] + more;
    assert forall i | 0 < i < |ps| :: ps[i] == more[i - 1];
  }

  // ---------------------------------------------------------------- text that is JSON already

  /** No string in single quotes, and no word that starts like a Python literal. */
  predicate InJson(p: Piece) {
    match p
    case Word(text) => text == "" || text[0] !in {'T', 'F', 'N'}
    case Other(_) => true
    case Text(quote, _) => quote == '"'
    case Cut(quote, _, _) => quote == '"'
  }

  lemma {:induction false} BitsStay(bits: seq<Bit>)
    ensures BitsBecome('"', bits) == BitsText(bits)
  {
    if bits != [] { BitsStay(bits[1..]); }
  }

  lemma PieceStays(p: Piece)
    requires PieceOk(p) && InJson(p)
    ensures PieceBecomes(p) == PieceText(p)
  {
    hide LetterDigitOrLine, BitsText, BitsBecome;
    match p
    case Word(w) => assert w[0] != "True"[0] && w[0] != "False"[0] && w[0] != "None"[0];
    case Other(_) =>
    case Text(_, bits) => BitsStay(bits);
    case Cut(_, bits, _) => BitsStay(bits);
  }

  lemma {:induction false} PiecesStay(ps: seq<Piece>)
    requires forall i | 0 <= i < |ps| :: PieceOk(ps[i]) && InJson(ps[i])
    ensures PiecesBecome(ps) == PiecesText(ps)
  {
    hide PieceOk, InJson, PieceBecomes, PieceText;
    if ps != [] {
      PieceStays(ps[0]);
      PiecesStay(ps[1..]);
    }
  }

  /** A text that is JSON already is left as it is, whatever its strings escape. */
  lemma JsonStays(ps: seq<Piece>)
    requires PiecesOk(ps) && forall i | 0 <= i < |ps| :: InJson(ps[i])
    ensures Rewrite(Bare, PiecesText(ps)) == PiecesText(ps)
  {
    hide Rewrite, PieceOk, InJson;
    PiecesRewritten(ps);
    PiecesStay(ps);
  }
}
