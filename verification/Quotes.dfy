/**
 Python-style text to JSON: single-quoted strings become double-quoted ones and the
 Python literals become JSON literals.
 */
module Quotes {
  import opened JsonText

  /** Where a character stands: outside strings, or inside one opened by that quote. */
  datatype Quote = Bare | Single | Double

  predicate IsWordChar(c: char) {
    'a' <= c <= 'z' || 'A' <= c <= 'Z' || '0' <= c <= '9' || c == '_'
  }

  /** Length of the run of word characters that `s` starts with. */
  function WordLen(s: string): (n: nat)
    ensures n <= |s|
    ensures forall i | 0 <= i < n :: IsWordChar(s[i])
    ensures n < |s| ==> !IsWordChar(s[n])
  {
    if s == [] || !IsWordChar(s[0]) then 0 else 1 + WordLen(s[1..])
  }

  /** A prefix of a Python literal, which streaming may have cut anywhere. */
  predicate IsLiteralPrefix(w: string) {
    w <= "True" || w <= "False" || w <= "None"
  }

  /** The JSON literal that a prefix of a Python literal is on the way to. */
  function JsonLiteral(c: char): string {
    if c == 'T' then "true" else if c == 'F' then "false" else "null"
  }

  /** The JSON spelling of a bare word: a prefix of a Python literal becomes an equally long prefix of the JSON one. */
  function Literal(w: string): (r: string)
    requires w != ""
    ensures |r| == |w|
  {
    if IsLiteralPrefix(w) then JsonLiteral(w[0])[..|w|] else w
  }

  lemma LiteralInitial(w: string)
    requires w != "" && w[0] != 'T' && w[0] != 'F' && w[0] != 'N'
    ensures !IsLiteralPrefix(w)
  {
  }

  /** What an escape of two characters inside a string becomes. */
  function PairOut(q: Quote, next: char): string
    requires q != Bare
  {
    if q == Single && next == '\'' then "'" else ['\\', next]
  }

  function CharOut(q: Quote, c: char): string {
    if c == '"' && q == Single then "\\\""
    else if c == '\'' && q != Double then "\""
    else [c]
  }

  function NextQuote(q: Quote, c: char): Quote {
    if c == '"' && q != Single then (if q == Bare then Double else Bare)
    else if c == '\'' && q != Double then (if q == Bare then Single else Bare)
    else q
  }

  /** The rewriting, one whole token at a time: a bare word, an escape inside a string, or one character. */
  function Rewrite(q: Quote, s: string): string
    decreases |s|
  {
    if s == [] then []
    else if q == Bare && IsWordChar(s[0]) then
      var n := WordLen(s);
      Literal(s[..n]) + Rewrite(Bare, s[n..])
    else if q != Bare && s[0] == '\\' && |s| > 1 then
      PairOut(q, s[1]) + Rewrite(q, s[2..])
    else
      CharOut(q, s[0]) + Rewrite(NextQuote(q, s[0]), s[1..])
  }

  /** What is left to print when the loop stands at `i`; inside a bare word it copies the rest of the word. */
  ghost function Pending(q: Quote, input: string, i: nat): string
    requires i <= |input|
  {
    if q == Bare && 0 < i && IsWordChar(input[i - 1]) then
      var n := WordLen(input[i..]);
      input[i..i + n] + Rewrite(Bare, input[i + n..])
    else
      Rewrite(q, input[i..])
  }

  /** Before anything but a word character, the rest is printed as if the text started there. */
  lemma PendingAtToken(q: Quote, input: string, i: nat)
    requires i <= |input|
    requires q != Bare || i == 0 || i == |input| || !IsWordChar(input[i]) || !IsWordChar(input[i - 1])
    ensures Pending(q, input, i) == Rewrite(q, input[i..])
  {
    if q == Bare && 0 < i && IsWordChar(input[i - 1]) {
      assert WordLen(input[i..]) == 0;
      assert input[i..i] == [];
    }
  }

  lemma PendingPair(q: Quote, input: string, i: nat)
    requires q != Bare && i + 1 < |input| && input[i] == '\\'
    ensures Pending(q, input, i) == PairOut(q, input[i + 1]) + Pending(q, input, i + 2)
  {
    assert input[i..][2..] == input[i + 2..];
  }

  lemma PendingChar(q: Quote, input: string, i: nat)
    requires i < |input|
    requires q == Bare ==> !IsWordChar(input[i])
    requires q != Bare && input[i] == '\\' ==> i + 1 == |input|
    ensures Pending(q, input, i) == CharOut(q, input[i]) + Pending(NextQuote(q, input[i]), input, i + 1)
  {
    PendingAtToken(q, input, i);
    PendingAtToken(NextQuote(q, input[i]), input, i + 1);
    assert input[i..][1..] == input[i + 1..];
  }

  lemma WordAt(input: string, i: nat, n: nat)
    requires i < |input| && n == WordLen(input[i..])
    ensures i + n <= |input|
    ensures input[i..][..n] == input[i..i + n] && input[i..][n..] == input[i + n..]
    ensures IsWordChar(input[i]) ==> n == 1 + WordLen(input[i + 1..])
  {
    assert input[i..][1..] == input[i + 1..];
  }

  /** A word that is no literal is copied whole. */
  lemma CopiedWord(input: string, i: nat)
    requires i < |input| && IsWordChar(input[i])
    requires !IsLiteralPrefix(input[i..i + WordLen(input[i..])])
    ensures var n := WordLen(input[i..]);
      Rewrite(Bare, input[i..]) == input[i..i + n] + Rewrite(Bare, input[i + n..])
  {
    hide IsLiteralPrefix, JsonLiteral;
    WordAt(input, i, WordLen(input[i..]));
  }

  /** One more character of a word that is copied: inside the word, or at its start if it is no literal. */
  lemma PendingCopied(input: string, i: nat)
    requires i < |input| && IsWordChar(input[i])
    requires (0 < i && IsWordChar(input[i - 1])) || !IsLiteralPrefix(input[i..i + WordLen(input[i..])])
    ensures Pending(Bare, input, i) == [input[i]] + Pending(Bare, input, i + 1)
  {
    hide IsLiteralPrefix, Rewrite;
    var n := WordLen(input[i..]);
    WordAt(input, i, n);
    if i == 0 || !IsWordChar(input[i - 1]) {
      CopiedWord(input, i);
    }
    hide IsWordChar, WordLen;
    assert input[i..i + n] == [input[i]] + input[i + 1..i + n];
  }

  lemma PendingLiteral(input: string, i: nat, n: nat)
    requires i < |input| && IsWordChar(input[i]) && (i == 0 || !IsWordChar(input[i - 1]))
    requires n == WordLen(input[i..]) && IsLiteralPrefix(input[i..i + n])
    ensures Pending(Bare, input, i) == JsonLiteral(input[i])[..n] + Pending(Bare, input, i + n)
  {
    WordAt(input, i, n);
    PendingAtToken(Bare, input, i + n);
  }

  /** Every character that is no quote, no escape and starts no literal is copied. */
  lemma PendingOther(q: Quote, input: string, i: nat)
    requires i < |input| && input[i] != '"' && input[i] != '\''
    requires input[i] == '\\' ==> i + 1 == |input|
    requires q == Bare && input[i] in "TFN" ==> 0 < i && IsWordChar(input[i - 1])
    ensures Pending(q, input, i) == [input[i]] + Pending(q, input, i + 1)
  {
    if q == Bare && IsWordChar(input[i]) {
      if i == 0 || !IsWordChar(input[i - 1]) {
        LiteralInitial(input[i..i + WordLen(input[i..])]);
      }
      PendingCopied(input, i);
    } else {
      PendingChar(q, input, i);
    }
  }

  lemma PendingEnds(input: string)
    ensures Pending(Bare, input, 0) == Rewrite(Bare, input)
    ensures forall q :: Pending(q, input, |input|) == []
  {
    assert input[0..] == input;
  }

  /** Length of the bare word that starts at `i`. */
  method WordFrom(input: string, i: nat) returns (n: nat)
    requires i < |input| && IsWordChar(input[i])
    ensures n == WordLen(input[i..]) && 0 < n <= |input| - i
  {
    n := 0;
    while i + n < |input| && IsWordChar(input[i + n])
      invariant n <= |input| - i
      invariant WordLen(input[i..]) == n + WordLen(input[i + n..])
    {
      WordAt(input, i + n, WordLen(input[i + n..]));
      n := n + 1;
    }
  }

  /** Looks a token up among the Python literals. */
  method MatchLiteral(token: string) returns (matched: bool, js: string)
    requires token != ""
    ensures matched == IsLiteralPrefix(token)
    ensures matched ==> js == JsonLiteral(token[0])[..|token|]
  {
    var literals := [("True", "true"), ("False", "false"), ("None", "null")];
    for k := 0 to |literals|
      invariant forall j | 0 <= j < k :: !(token <= literals[j].0)
    {
      if token <= literals[k].0 {
        return true, literals[k].1[..|token|];
      }
    }
    assert !(token <= literals[0].0) && !(token <= literals[1].0) && !(token <= literals[2].0);
    return false, "";
  }

  lemma Printed(before: string, out: string, rest: string)
    ensures before + (out + rest) == (before + out) + rest
  {
  }

  /** The rewriter's loop: one character at a time, looking back at the previous one. */
  method NormalizeQuotesToJson(input: string) returns (result: string)
    ensures result == Rewrite(Bare, input)
  {
    hide Rewrite, Pending, WordLen, IsLiteralPrefix;
    result := "";
    var inSingle, inDouble := false, false;
    var i := 0;
    ghost var q := Bare;
    PendingEnds(input);
    while i < |input|
      invariant 0 <= i <= |input|
      invariant inSingle == (q == Single) && inDouble == (q == Double)
      invariant result + Pending(q, input, i) == Rewrite(Bare, input)
    {
      var c := input[i];
      ghost var before, out, k := result, [c], 1;
      if c == '\\' && i + 1 < |input| && (inSingle || inDouble) {
        PendingPair(q, input, i);
        var next := input[i + 1];
        out, k := PairOut(q, next), 2;
        if inSingle && next == '\'' {
          result := result + "'";
        } else {
          result := result + [c, next];
        }
        i := i + 1;
      } else if c == '\\' && i + 1 < |input| {
        PendingChar(q, input, i);
        result := result + [c];
      } else if c == '"' {
        PendingChar(q, input, i);
        out, q := CharOut(q, c), NextQuote(q, c);
        if inSingle {
          result := result + "\\\"";
        } else {
          inDouble := !inDouble;
          result := result + [c];
        }
      } else if c == '\'' {
        PendingChar(q, input, i);
        out, q := CharOut(q, c), NextQuote(q, c);
        if inDouble {
          result := result + [c];
        } else {
          inSingle := !inSingle;
          result := result + "\"";
        }
      } else if !inSingle && !inDouble && (c == 'T' || c == 'F' || c == 'N') && (i == 0 || !IsWordChar(input[i - 1])) {
        var n := WordFrom(input, i);
        var matched, js := MatchLiteral(input[i..i + n]);
        if matched {
          PendingLiteral(input, i, n);
          out, k := js, n;
          result := result + js;
          i := i + n - 1;
        } else {
          PendingCopied(input, i);
          result := result + [c];
        }
      } else {
        PendingOther(q, input, i);
        result := result + [c];
      }
      i := i + 1;
      assert result == before + out;
      Printed(before, out, Pending(q, input, i));
    }
  }
}
