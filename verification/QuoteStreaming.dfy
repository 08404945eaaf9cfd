/** Which cuts of a streamed text the rewriter survives: the text printed so far is never taken back. */
module QuoteStreaming {
  import opened Quotes
  import opened QuoteScan

  /**
   The two cuts that hurt: between a backslash and a single quote inside a single-quoted string, and
   inside a bare word that looks like a literal so far but is none.
   */
  predicate CutBreaksFrom(r: Reader, s: string, k: nat)
    requires k <= |s|
  {
    var at := Read(r, s[..k]);
    var word := at.word + s[k..k + WordLen(s[k..])];
    || (at.quote == Single && at.escaped && k < |s| && s[k] == '\'')
    || (at.word != "" && IsLiteralPrefix(at.word) && !IsLiteralPrefix(word))
  }

  predicate CutBreaks(s: string, k: nat)
    requires k <= |s|
  {
    CutBreaksFrom(OUTSIDE, s, k)
  }

  /** Between two tokens: not inside an escape and not inside a bare word. */
  predicate AtToken(r: Reader, s: string) {
    !r.escaped && (r.quote != Bare ==> r.word == "") && (r.word == "" || s == [] || !IsWordChar(s[0]))
  }

  lemma CutLater(r: Reader, s: string, n: nat, k: nat)
    requires n <= k <= |s|
    ensures CutBreaksFrom(r, s, k) == CutBreaksFrom(Read(r, s[..n]), s[n..], k - n)
  {
    hide Read, IsLiteralPrefix;
    assert s[..k] == s[..n] + s[n..k] && s[n..][..k - n] == s[n..k];
    ReadConcat(r, s[..n], s[n..k]);
    assert s[n..][k - n..] == s[k..];
    var m := WordLen(s[k..]);
    assert s[n..][k - n..k - n + m] == s[k..k + m];
  }

  lemma PrefixCancels(p: string, a: string, b: string)
    ensures p + a <= p + b <==> a <= b
  {
    if p + a <= p + b {
      assert forall i | 0 <= i < |a| :: a[i] == (p + a)[|p| + i] == (p + b)[|p| + i] == b[i];
    }
  }

  lemma WordLenOfPart(s: string, k: nat)
    requires k <= |s|
    ensures WordLen(s[..k]) == if k <= WordLen(s) then k else WordLen(s)
    ensures k <= WordLen(s) ==> WordLen(s[k..]) == WordLen(s) - k
  {
    hide IsWordChar;
    if k > 0 && IsWordChar(s[0]) {
      assert s[1..][..k - 1] == s[..k][1..] && s[1..][k - 1..] == s[k..];
      WordLenOfPart(s[1..], k - 1);
    }
  }

  lemma PartOfLiteral(a: string, w: string)
    requires a <= w && a != ""
    ensures IsLiteralPrefix(w) ==> IsLiteralPrefix(a)
    ensures Literal(a) <= Literal(w) <==> !(IsLiteralPrefix(a) && !IsLiteralPrefix(w))
  {
    assert a[0] == w[0];
    if IsLiteralPrefix(a) && !IsLiteralPrefix(w) {
      assert Literal(a)[0] == JsonLiteral(a[0])[0] != a[0];
    }
  }

  lemma PrefixOfMore(a: string, b: string, more: string)
    requires |a| <= |b|
    ensures a <= b <==> a <= b + more
  {
    assert (b + more)[..|a|] == b[..|a|];
  }

  /** The first word of a text, and of any part of it that holds the whole word. */
  lemma WordToken(s: string, k: nat)
    requires s != [] && IsWordChar(s[0]) && WordLen(s) <= k <= |s|
    ensures var n := WordLen(s);
            && Rewrite(Bare, s) == Literal(s[..n]) + Rewrite(Bare, s[n..])
            && Rewrite(Bare, s[..k]) == Literal(s[..n]) + Rewrite(Bare, s[..k][n..])
  {
    hide IsLiteralPrefix, JsonLiteral, IsWordChar;
    var n := WordLen(s);
    WordLenOfPart(s, k);
    assert s[..k][..n] == s[..n];
  }

  /** A text that is one word is rewritten as a word. */
  lemma WholeWord(w: string)
    requires w != "" && WordLen(w) == |w|
    ensures Rewrite(Bare, w) == Literal(w)
  {
    hide IsLiteralPrefix, JsonLiteral, IsWordChar;
    assert w[..|w|] == w && w[|w|..] == [];
    assert Rewrite(Bare, []) == [];
    assert Literal(w) + [] == Literal(w);
  }

  lemma CutWordBreaks(r: Reader, s: string, k: nat)
    requires r.quote == Bare && AtToken(r, s) && r.word == "" && 0 < k < WordLen(s)
    ensures CutBreaksFrom(r, s, k) == (IsLiteralPrefix(s[..k]) && !IsLiteralPrefix(s[..WordLen(s)]))
  {
    hide IsLiteralPrefix, Read, CutBreaksFrom, WordLen;
    var n := WordLen(s);
    WordLenOfPart(s, k);
    assert s[k..][..n - k] == s[k..n];
    assert s[..k] + s[k..n] == s[..n];
    CutWord(r, s, s[..k], s[k..n]);
  }

  lemma CutInWord(r: Reader, s: string, k: nat)
    requires r.quote == Bare && AtToken(r, s) && r.word == "" && 0 < k < WordLen(s)
    ensures Rewrite(Bare, s[..k]) <= Rewrite(Bare, s) <==> !CutBreaksFrom(r, s, k)
  {
    hide IsLiteralPrefix, Rewrite, Read, CutBreaksFrom, WordLen, AtToken, Literal, IsWordChar;
    var n := WordLen(s);
    CutWordBreaks(r, s, k);
    WordLenOfPart(s, k);
    WholeWord(s[..k]);
    FirstWordOf(s);
    assert s[..k] == s[..n][..k];
    PartOfLiteral(s[..k], s[..n]);
    PrefixOfMore(Literal(s[..k]), Literal(s[..n]), Rewrite(Bare, s[n..]));
  }

  lemma FirstWordOf(s: string)
    requires s != [] && WordLen(s) > 0
    ensures Rewrite(Bare, s) == Literal(s[..WordLen(s)]) + Rewrite(Bare, s[WordLen(s)..])
    ensures |Literal(s[..WordLen(s)])| == WordLen(s)
  {
    hide IsLiteralPrefix, JsonLiteral;
  }

  lemma CutWord(r: Reader, s: string, a: string, b: string)
    requires r.quote == Bare && !r.escaped && r.word == "" && 0 < |a| <= |s| && s[..|a|] == a
    requires forall i | 0 <= i < |a| :: IsWordChar(a[i])
    requires b == s[|a|..][..WordLen(s[|a|..])]
    ensures CutBreaksFrom(r, s, |a|) == (IsLiteralPrefix(a) && !IsLiteralPrefix(a + b))
  {
    hide IsLiteralPrefix, Read;
    ReadWord(r, a);
    assert r.word + a == a;
    assert s[|a|..|a| + |b|] == b;
  }

  lemma CutAfterBackslash(r: Reader, s: string)
    requires r.quote != Bare && AtToken(r, s) && |s| > 1 && s[0] == '\\'
    ensures Rewrite(r.quote, s[..1]) <= Rewrite(r.quote, s) <==> !CutBreaksFrom(r, s, 1)
  {
    hide IsLiteralPrefix, JsonLiteral, IsWordChar;
    assert s[..1] == ['\\'] && s[..1][1..] == [];
    assert Read(r, s[..1]) == Read(ReadChar(r, '\\'), []);
    assert Rewrite(r.quote, s[..1]) == ['\\'] + [];
    assert Rewrite(r.quote, s)[0] == PairOut(r.quote, s[1])[0];
  }

  /** One token that lies before the cut may be dropped. */
  lemma SkipToken(r: Reader, s: string, n: nat, k: nat, out: string, q: Quote)
    requires n <= k <= |s|
    requires Rewrite(r.quote, s) == out + Rewrite(q, s[n..])
    requires Rewrite(r.quote, s[..k]) == out + Rewrite(q, s[..k][n..])
    requires Rewrite(q, s[n..][..k - n]) <= Rewrite(q, s[n..]) <==> !CutBreaksFrom(Read(r, s[..n]), s[n..], k - n)
    ensures Rewrite(r.quote, s[..k]) <= Rewrite(r.quote, s) <==> !CutBreaksFrom(r, s, k)
  {
    assert s[..k][n..] == s[n..][..k - n];
    CutLater(r, s, n, k);
    PrefixCancels(out, Rewrite(q, s[..k][n..]), Rewrite(q, s[n..]));
  }

  lemma {:induction false} CutFrom(r: Reader, s: string, k: nat)
    requires k <= |s| && AtToken(r, s)
    ensures Rewrite(r.quote, s[..k]) <= Rewrite(r.quote, s) <==> !CutBreaksFrom(r, s, k)
    decreases |s|
  {
    hide IsLiteralPrefix, Literal, CharOut, PairOut, NextQuote, CutBreaksFrom, JsonLiteral, Rewrite, Read, WordLen;
    if k == 0 {
      CutAtStart(r, s);
    } else if r.quote == Bare && IsWordChar(s[0]) {
      var n := WordLen(s);
      FirstWord(s);
      if k < n {
        CutInWord(r, s, k);
      } else {
        WordToken(s, k);
        ReadWord(r, s[..n]);
        CutFrom(Read(r, s[..n]), s[n..], k - n);
        SkipToken(r, s, n, k, Literal(s[..n]), Bare);
      }
    } else if r.quote != Bare && s[0] == '\\' && |s| > 1 {
      if k == 1 {
        CutAfterBackslash(r, s);
      } else {
        PairToken(r, s, k);
        CutFrom(r, s[2..], k - 2);
        SkipToken(r, s, 2, k, PairOut(r.quote, s[1]), r.quote);
      }
    } else if r.quote != Bare && s[0] == '\\' {
      assert s[..k] == s;
      CutAtEnd(r, s);
    } else {
      CharToken(r, s, k);
      ReaderMoves(r, s[0]);
      CutFrom(ReadChar(r, s[0]), s[1..], k - 1);
      SkipToken(r, s, 1, k, CharOut(r.quote, s[0]), NextQuote(r.quote, s[0]));
    }
  }

  lemma FirstWord(s: string)
    requires s != [] && IsWordChar(s[0])
    ensures 0 < WordLen(s)
    ensures WordLen(s) < |s| ==> !IsWordChar(s[WordLen(s)])
  {
  }

  lemma PairToken(r: Reader, s: string, k: nat)
    requires r.quote != Bare && AtToken(r, s) && 1 < k <= |s| && s[0] == '\\'
    ensures Rewrite(r.quote, s) == PairOut(r.quote, s[1]) + Rewrite(r.quote, s[2..])
    ensures Rewrite(r.quote, s[..k]) == PairOut(r.quote, s[1]) + Rewrite(r.quote, s[..k][2..])
    ensures Read(r, s[..2]) == r
  {
    assert s[..2] == ['\\', s[1]];
    ScanPair(r, s[1]);
  }

  lemma CharToken(r: Reader, s: string, k: nat)
    requires !r.escaped && 0 < k <= |s|
    requires if r.quote == Bare then !IsWordChar(s[0]) else s[0] != '\\'
    ensures Rewrite(r.quote, s) == CharOut(r.quote, s[0]) + Rewrite(NextQuote(r.quote, s[0]), s[1..])
    ensures Rewrite(r.quote, s[..k]) == CharOut(r.quote, s[0]) + Rewrite(NextQuote(r.quote, s[0]), s[..k][1..])
    ensures Read(r, s[..1]) == ReadChar(r, s[0])
  {
    assert s[..1] == [s[0]] && s[..1][1..] == [];
    assert Read(r, s[..1]) == Read(ReadChar(r, s[0]), []);
  }

  lemma CutAtStart(r: Reader, s: string)
    requires AtToken(r, s)
    ensures s[..0] == [] && Rewrite(r.quote, []) == [] && !CutBreaksFrom(r, s, 0)
  {
    if r.word != "" {
      assert WordLen(s) == 0 && r.word + s[0..0] == r.word && s[0..] == s;
    }
  }

  lemma CutAtEnd(r: Reader, s: string)
    ensures !CutBreaksFrom(r, s, |s|)
  {
    var at := Read(r, s[..|s|]);
    assert at.word + s[|s|..|s|] == at.word;
  }

  /**
   Streaming: what is printed for the text so far stays a prefix of what is printed later,
   exactly unless the cut is one of the two that hurt.
   */
  lemma PrintedTextStays(s: string, k: nat)
    requires k <= |s|
    ensures Rewrite(Bare, s[..k]) <= Rewrite(Bare, s) <==> !CutBreaks(s, k)
  {
    CutFrom(OUTSIDE, s, k);
  }

  /** The two cuts are real: an escaped quote cut in half, and a word that only starts like a literal. */
  lemma CutsThatHurt()
    ensures CutBreaks("'\\'", 2)
    ensures CutBreaks("Tx", 1)
  {
    var s := "'\\'";
    assert s[..2] == "'\\" && s[..2][1..] == "\\" && s[..2][1..][1..] == [];
    assert Read(OUTSIDE, s[..2]) == Read(ReadChar(ReadChar(OUTSIDE, '\''), '\\'), []);
    ReadWord(OUTSIDE, "Tx"[..1]);
    assert "Tx"[..1] == "T" && "Tx"[1..] == "x" && WordLen("x") == 1 by { assert "x"[1..] == []; }
    assert "Tx"[1..2] == "x" && "" + "T" == "T" && "T" + "x" == "Tx";
  }

  // ---------------------------------------------------------------- lengths

  /** Whatever the cut, the text printed so far is no longer than what is printed later. */
  lemma {:induction false} PrintedTextIsNoLonger(q: Quote, s: string, k: nat)
    requires k <= |s|
    ensures |Rewrite(q, s[..k])| <= |Rewrite(q, s)|
    decreases |s|
  {
    hide IsLiteralPrefix, Literal, CharOut, PairOut, NextQuote, JsonLiteral, WordLen, IsWordChar, Rewrite;
    var r := Reader(q, false, 0, "");
    if k == 0 {
      CutAtStart(r, s);
    } else if k == |s| {
      assert s[..k] == s;
    } else if q == Bare && IsWordChar(s[0]) {
      var n := WordLen(s);
      FirstWord(s);
      FirstWordOf(s);
      if k < n {
        WordLenOfPart(s, k);
        WholeWord(s[..k]);
      } else {
        WordToken(s, k);
        assert s[..k][n..] == s[n..][..k - n];
        PrintedTextIsNoLonger(Bare, s[n..], k - n);
      }
    } else if q != Bare && s[0] == '\\' {
      if k == 1 {
        LoneBackslash(q, s);
      } else {
        PairToken(r, s, k);
        assert s[..k][2..] == s[2..][..k - 2];
        PrintedTextIsNoLonger(q, s[2..], k - 2);
      }
    } else {
      CharToken(r, s, k);
      assert s[..k][1..] == s[1..][..k - 1];
      PrintedTextIsNoLonger(NextQuote(q, s[0]), s[1..], k - 1);
    }
  }

  lemma LoneBackslash(q: Quote, s: string)
    requires q != Bare && |s| > 1 && s[0] == '\\'
    ensures |Rewrite(q, s[..1])| == 1 <= |Rewrite(q, s)|
  {
    assert s[..1][1..] == [] && CharOut(q, '\\') == ['\\'];
  }
}
