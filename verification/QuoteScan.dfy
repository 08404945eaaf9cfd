/**
 A quote-aware scan of the text before rewriting, and what it says about the rewritten text:
 its nesting, and where streamed text may be cut.
 */
module QuoteScan {
  import opened JsonText
  import opened Quotes

  /** Where a reader of the original text stands; `word` is the bare word read so far. */
  datatype Reader = Reader(quote: Quote, escaped: bool, depth: int, word: string)

  const OUTSIDE := Reader(Bare, false, 0, "")

  function ReadChar(r: Reader, c: char): Reader {
    if r.escaped then r.(escaped := false)
    else if r.quote != Bare && c == '\\' then r.(escaped := true)
    else
      r.(quote := NextQuote(r.quote, c),
         depth := if r.quote != Bare then r.depth else if c == '{' then r.depth + 1 else if c == '}' then r.depth - 1 else r.depth,
         word := if r.quote == Bare && IsWordChar(c) then r.word + [c] else "")
  }

  function Read(r: Reader, s: string): Reader
    decreases s
  {
    if s == [] then r else Read(ReadChar(r, s[0]), s[1..])
  }

  lemma {:induction false} ReadConcat(r: Reader, s: string, t: string)
    ensures Read(r, s + t) == Read(Read(r, s), t)
    decreases s
  {
    if s == [] {
      assert s + t == t;
    } else {
      assert (s + t)[1..] == s[1..] + t;
      ReadConcat(ReadChar(r, s[0]), s[1..], t);
    }
  }

  /** Reading a bare word only extends the word. */
  lemma {:induction false} ReadWord(r: Reader, w: string)
    requires r.quote == Bare && !r.escaped
    requires forall i | 0 <= i < |w| :: IsWordChar(w[i])
    ensures Read(r, w) == r.(word := r.word + w)
    decreases w
  {
    if w == [] {
      assert r.word + w == r.word;
    } else {
      ReadWord(ReadChar(r, w[0]), w[1..]);
      assert r.word + [w[0]] + w[1..] == r.word + w;
    }
  }

  // ---------------------------------------------------------------- nesting

  /** The JSON scanner's view of a reader of the original text. */
  function View(r: Reader): Scan {
    Scan(r.depth, r.quote != Bare, r.escaped)
  }

  lemma LiteralPlain(w: string)
    requires w != "" && forall i | 0 <= i < |w| :: IsWordChar(w[i])
    ensures forall i | 0 <= i < |w| :: IsWordChar(Literal(w)[i])
  {
    assert forall c :: forall i | 0 <= i < |JsonLiteral(c)| :: IsWordChar(JsonLiteral(c)[i]);
  }

  lemma ScanPair(r: Reader, next: char)
    requires r.quote != Bare && !r.escaped && r.word == ""
    ensures ScanFrom(View(r), PairOut(r.quote, next)) == View(r)
    ensures Read(r, ['\\', next]) == r
  {
    var o := PairOut(r.quote, next);
    assert o[1..] == [] || o[1..] == [next];
    assert [next][1..] == [] && ['\\', next][1..] == [next];
    assert ReadChar(ReadChar(r, '\\'), next) == r;
    assert Read(ReadChar(r, '\\'), [next]) == Read(ReadChar(ReadChar(r, '\\'), next), []);
    if |o| == 2 {
      assert ScanFrom(View(r), o) == ScanFrom(ScanStep(View(r), '\\'), [next]);
      assert ScanFrom(ScanStep(View(r), '\\'), [next]) == ScanFrom(ScanStep(ScanStep(View(r), '\\'), next), []);
    } else {
      assert ScanFrom(View(r), o) == ScanFrom(ScanStep(View(r), '\''), []);
    }
  }

  lemma ScanChar(r: Reader, c: char)
    requires !r.escaped
    ensures ScanFrom(View(r), CharOut(r.quote, c)) == View(ReadChar(r, c))
  {
    var o := CharOut(r.quote, c);
    if |o| == 2 {
      assert o[1..] == ['"'] && ['"'][1..] == [];
      assert ScanFrom(View(r), o) == ScanFrom(ScanStep(View(r), '\\'), ['"']);
      assert ScanFrom(ScanStep(View(r), '\\'), ['"']) == ScanFrom(ScanStep(ScanStep(View(r), '\\'), '"'), []);
    } else {
      assert o[1..] == [];
      assert ScanFrom(View(r), o) == ScanStep(View(r), o[0]);
    }
  }

  lemma {:induction false} ScanFollowsReader(r: Reader, s: string)
    requires !r.escaped && (r.quote != Bare ==> r.word == "")
    ensures ScanFrom(View(r), Rewrite(r.quote, s)) == View(Read(r, s))
    decreases |s|
  {
    hide Literal, CharOut, PairOut, NextQuote, IsWordChar, ScanStep;
    if s == [] {
    } else if r.quote == Bare && IsWordChar(s[0]) {
      var n := WordLen(s);
      assert s == s[..n] + s[n..];
      ReadConcat(r, s[..n], s[n..]);
      ReadWord(r, s[..n]);
      LiteralPlain(s[..n]);
      WordPlain(Literal(s[..n]));
      ScanPlain(View(r), Literal(s[..n]));
      ScanConcat(View(r), Literal(s[..n]), Rewrite(Bare, s[n..]));
      ScanFollowsReader(Read(r, s[..n]), s[n..]);
    } else if r.quote != Bare && s[0] == '\\' && |s| > 1 {
      assert s == [s[0], s[1]] + s[2..];
      ReadConcat(r, [s[0], s[1]], s[2..]);
      ScanPair(r, s[1]);
      ScanConcat(View(r), PairOut(r.quote, s[1]), Rewrite(r.quote, s[2..]));
      ScanFollowsReader(r, s[2..]);
    } else {
      ScanChar(r, s[0]);
      ScanConcat(View(r), CharOut(r.quote, s[0]), Rewrite(NextQuote(r.quote, s[0]), s[1..]));
      if r.quote != Bare && s[0] == '\\' {
        LoneBackslash(r.quote);
      } else {
        ReaderMoves(r, s[0]);
        ScanFollowsReader(ReadChar(r, s[0]), s[1..]);
      }
    }
  }

  lemma WordPlain(w: string)
    requires forall i | 0 <= i < |w| :: IsWordChar(w[i])
    ensures forall i | 0 <= i < |w| :: w[i] != '\\' && w[i] != '"' && w[i] != '{' && w[i] != '}'
  {
  }

  lemma LoneBackslash(q: Quote)
    ensures Rewrite(NextQuote(q, '\\'), []) == []
  {
  }

  lemma ReaderMoves(r: Reader, c: char)
    requires !r.escaped && (r.quote != Bare ==> r.word == "" && c != '\\')
    requires r.quote == Bare ==> !IsWordChar(c)
    ensures var r' := ReadChar(r, c); !r'.escaped && r'.quote == NextQuote(r.quote, c) && r'.word == ""
  {
  }

  /**
   The brace scanner sees in the rewritten text exactly the nesting, the strings and the
   unfinished escape that a quote-aware reader sees in the original, whatever the text is.
   */
  lemma SameNesting(input: string)
    ensures ScanFrom(START, Rewrite(Bare, input)) == View(Read(OUTSIDE, input))
  {
    ScanFollowsReader(OUTSIDE, input);
  }
}
