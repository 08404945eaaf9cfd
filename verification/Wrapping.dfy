/** Breaking help text into lines of limited width: the greedy choice uses the fewest lines. */
module Wrapping {

  // ---------------------------------------------------------------- lines and words of a text

  predicate IsSpace(c: char) {
    c in {' ', '\t', '\n', '\r', 11 as char, 12 as char}
  }

  /** The length of the text before the first character with a property. */
  function Until(s: string, stop: char -> bool): (n: nat)
    ensures n <= |s|
    ensures forall i | 0 <= i < n :: !stop(s[i])
    ensures n < |s| ==> stop(s[n])
  {
    if s == "" || stop(s[0]) then 0 else 1 + Until(s[1..], stop)
  }

  /** The lines of a text; a newline at its end starts no further line. */
  function Lines(s: string): (r: seq<string>)
    decreases |s|
  {
    if s == "" then []
    else
      var n := Until(s, c => c == '\n');
      [s[..n]] + if n < |s| then Lines(s[n + 1..]) else []
  }

  /** The words of a line. */
  function Words(s: string): (r: seq<string>)
    ensures forall i | 0 <= i < |r| :: IsWord(r[i])
    decreases |s|
  {
    if s == "" then []
    else if IsSpace(s[0]) then Words(s[1..])
    else
      var n := Until(s, IsSpace);
      [s[..n]] + Words(s[n..])
  }

  predicate IsWord(w: string) {
    w != "" && forall i | 0 <= i < |w| :: !IsSpace(w[i])
  }

  /** White space as the C locale knows it: the space, and the codes 9 to 13. */
  predicate Blank(c: char) {
    c == ' ' || 9 <= c as int <= 13
  }

  /** Words with gaps before, between and behind them. */
  function Spread(gaps: seq<string>, words: seq<string>): string
    requires |gaps| == |words| + 1
  {
    if words == [] then gaps[0] else gaps[0] + (words[0] + Spread(gaps[1..], words[1..]))
  }

  /** Gaps are white space, and there is some between two words; words have none. */
  predicate SpreadOk(gaps: seq<string>, words: seq<string>) {
    && |gaps| == |words| + 1
    && (forall i, c | 0 <= i < |gaps| && c in gaps[i] :: Blank(c))
    && (forall i | 0 < i < |words| :: gaps[i] != "")
    && (forall i | 0 <= i < |words| :: words[i] != "")
    && (forall i, c | 0 <= i < |words| && c in words[i] :: !Blank(c))
  }

  lemma {:induction false} SkipGap(gap: string, rest: string)
    requires forall c | c in gap :: Blank(c)
    ensures Words(gap + rest) == Words(rest)
  {
    if gap == "" {
      assert gap + rest == rest;
    } else {
      assert gap[0] in gap && (gap + rest)[0] == gap[0] && (gap + rest)[1..] == gap[1..] + rest;
      SkipGap(gap[1..], rest);
    }
  }

  lemma {:induction false} UntilEnd(w: string, rest: string)
    requires (forall i | 0 <= i < |w| :: !IsSpace(w[i])) && (rest != "" ==> IsSpace(rest[0]))
    ensures Until(w + rest, IsSpace) == |w|
  {
    if w != "" {
      assert (w + rest)[0] == w[0] && (w + rest)[1..] == w[1..] + rest;
      UntilEnd(w[1..], rest);
    } else {
      assert w + rest == rest;
    }
  }

  lemma TakeWord(w: string, rest: string)
    requires w != "" && (forall c | c in w :: !Blank(c)) && (rest != "" ==> Blank(rest[0]))
    ensures Words(w + rest) == [w] + Words(rest)
  {
    forall i | 0 <= i < |w| ensures !IsSpace(w[i]) { assert w[i] in w; }
    UntilEnd(w, rest);
    assert (w + rest)[..|w|] == w && (w + rest)[|w|..] == rest && (w + rest)[0] == w[0];
  }

  /** However words are spread over a line, they are its words. */
  lemma {:induction false} WordsReadBack(gaps: seq<string>, words: seq<string>)
    requires SpreadOk(gaps, words)
    ensures Words(Spread(gaps, words)) == words
  {
    hide Words;
    if words == [] {
      assert gaps[0] + "" == gaps[0];
      SkipGap(gaps[0], "");
      NoWords();
    } else {
      var rest := Spread(gaps[1..], words[1..]);
      SpreadRest(gaps, words);
      SkipGap(gaps[0], words[0] + rest);
      TakeWord(words[0], rest);
      WordsReadBack(gaps[1..], words[1..]);
    }
  }

  lemma NoWords()
    ensures Words("") == []
  {
  }

  lemma SpreadRest(gaps: seq<string>, words: seq<string>)
    requires words != [] && SpreadOk(gaps, words)
    ensures SpreadOk(gaps[1..], words[1..])
    ensures var rest := Spread(gaps[1..], words[1..]); rest != "" ==> Blank(rest[0])
  {
    hide Blank;
    var g, ws := gaps[1..], words[1..];
    assert forall i | 0 <= i < |g| :: g[i] == gaps[i + 1];
    assert forall i | 0 <= i < |ws| :: ws[i] == words[i + 1];
    if g[0] != "" { assert g[0][0] in gaps[1]; }
  }

  /** Texts with a newline behind each but the last. */
  function Joined(lines: seq<string>): string
    requires lines != []
  {
    if |lines| == 1 then lines[0] else lines[0] + "\n" + Joined(lines[1..])
  }

  lemma {:induction false} UntilNewline(line: string, rest: string)
    requires '\n' !in line && (rest != "" ==> rest[0] == '\n')
    ensures Until(line + rest, c => c == '\n') == |line|
  {
    if line != "" {
      assert (line + rest)[0] == line[0] && (line + rest)[1..] == line[1..] + rest;
      UntilNewline(line[1..], rest);
    } else {
      assert line + rest == rest;
    }
  }

  /** Lines joined by newlines read back; a newline at the end adds none. */
  lemma {:induction false} LinesReadBack(lines: seq<string>)
    requires lines != [] && (forall i | 0 <= i < |lines| :: '\n' !in lines[i]) && lines[|lines| - 1] != ""
    ensures Lines(Joined(lines)) == lines && Lines(Joined(lines) + "\n") == lines
  {
    hide Lines;
    var first := lines[0];
    if |lines| == 1 {
      OneLine(first);
      assert lines == [first];
    } else {
      LinesReadBack(lines[1..]);
      FirstLine(first, Joined(lines[1..]));
      FirstLine(first, Joined(lines[1..]) + "\n");
      assert Joined(lines) + "\n" == first + "\n" + (Joined(lines[1..]) + "\n");
      assert lines == [first] + lines[1..];
    }
  }

  lemma OneLine(line: string)
    requires '\n' !in line && line != ""
    ensures Lines(line) == [line] && Lines(line + "\n") == [line]
  {
    UntilNewline(line, "");
    assert line + "" == line && line[..|line|] == line;
    FirstLine(line, "");
    assert line + "\n" + "" == line + "\n" && Lines("") == [];
  }

  lemma FirstLine(first: string, rest: string)
    requires '\n' !in first
    ensures Lines(first + "\n" + rest) == [first] + Lines(rest)
  {
    var s := first + "\n" + rest;
    assert s == first + ("\n" + rest);
    UntilNewline(first, "\n" + rest);
    assert s[..|first|] == first && s[|first| + 1..] == rest;
  }

  // ---------------------------------------------------------------- arrangements

  function Flat<T>(groups: seq<seq<T>>): seq<T> {
    if groups == [] then [] else groups[0] + Flat(groups[1..])
  }

  lemma {:induction false} FlatMore<T>(groups: seq<seq<T>>, g: seq<T>)
    ensures Flat(groups + [g]) == Flat(groups) + g
  {
    if groups == [] {
      assert groups + [g] == [g];
      assert Flat([g]) == g + Flat([]);
    } else {
      FlatMore(groups[1..], g);
      assert (groups + [g])[1..] == groups[1..] + [g];
      assert groups[0] + (Flat(groups[1..]) + g) == (groups[0] + Flat(groups[1..])) + g;
    }
  }

  /** Words with one space between. */
  function Spaced(ws: seq<string>): string {
    if ws == [] then "" else if |ws| == 1 then ws[0] else ws[0] + " " + Spaced(ws[1..])
  }

  lemma {:induction false} SpacedMore(ws: seq<string>, w: string)
    requires ws != []
    ensures Spaced(ws + [w]) == Spaced(ws) + " " + w
  {
    if |ws| == 1 {
      assert (ws + [w])[1..] == [w];
    } else {
      SpacedMore(ws[1..], w);
      assert (ws + [w])[1..] == ws[1..] + [w];
      assert ws[0] + " " + (Spaced(ws[1..]) + " " + w) == (ws[0] + " " + Spaced(ws[1..])) + " " + w;
    }
  }

  /** A line may be too long only if it is a single word. */
  predicate Allowed(ws: seq<string>, max: nat) {
    ws != [] && (|ws| == 1 || |Spaced(ws)| <= max)
  }

  /** Lines that hold the words in order. */
  predicate Arranges(groups: seq<seq<string>>, words: seq<string>, max: nat) {
    Flat(groups) == words && forall i | 0 <= i < |groups| :: Allowed(groups[i], max)
  }

  /** No line has room for the first word of the next. */
  predicate Tight(groups: seq<seq<string>>, max: nat) {
    forall i, j | 0 <= i < |groups| - 1 && j == i + 1 && groups[j] != [] :: |Spaced(groups[i] + [groups[j][0]])| > max
  }

  function Texts(groups: seq<seq<string>>): (r: seq<string>)
    ensures |r| == |groups|
    ensures forall i | 0 <= i < |r| :: r[i] == Spaced(groups[i])
  {
    seq(|groups|, i requires 0 <= i < |groups| => Spaced(groups[i]))
  }

  /** What one line of the input becomes. */
  ghost predicate Wrapped(line: string, max: nat, out: seq<string>) {
    if |line| <= max then out == [line] else Packed(Words(line), max, out)
  }

  /** Lines that hold the words in order, none with room for the first word of the next. */
  ghost predicate Packed(words: seq<string>, max: nat, out: seq<string>) {
    exists groups :: Arranges(groups, words, max) && Tight(groups, max) && out == Texts(groups)
  }

  /** What a text of several lines becomes. */
  ghost predicate Broken(lines: seq<string>, max: nat, out: seq<string>) {
    exists parts: seq<seq<string>> :: EachWrapped(lines, max, parts) && out == Flat(parts)
  }

  ghost predicate EachWrapped(lines: seq<string>, max: nat, parts: seq<seq<string>>) {
    |parts| == |lines| && forall i | 0 <= i < |parts| :: Wrapped(lines[i], max, parts[i])
  }

  // ---------------------------------------------------------------- a tight arrangement is the shortest

  lemma SpacedLength(ws: seq<string>, lo: nat, hi: nat)
    requires lo < hi <= |ws|
    ensures |Spaced(ws[lo..hi])| <= |Spaced(ws)|
  {
    hide Spaced;
    SpacedDrop(ws, lo);
    SpacedTake(ws[lo..], hi - lo);
    assert ws[lo..][..hi - lo] == ws[lo..hi];
  }

  lemma {:induction false} SpacedDrop(ws: seq<string>, n: nat)
    requires n < |ws|
    ensures |Spaced(ws[n..])| <= |Spaced(ws)|
    decreases n
  {
    if n > 0 {
      SpacedDrop(ws[1..], n - 1);
      assert ws[1..][n - 1..] == ws[n..];
    } else {
      assert ws[0..] == ws;
    }
  }

  lemma {:induction false} SpacedTake(ws: seq<string>, n: nat)
    requires 0 < n <= |ws|
    ensures |Spaced(ws[..n])| <= |Spaced(ws)|
    decreases n
  {
    if n > 1 {
      assert ws[..n][1..] == ws[1..][..n - 1];
      SpacedTake(ws[1..], n - 1);
    }
  }

  lemma FlatHead<T>(groups: seq<seq<T>>)
    requires groups != []
    ensures Flat(groups) == groups[0] + Flat(groups[1..])
    ensures |groups[0]| <= |Flat(groups)| && Flat(groups)[..|groups[0]|] == groups[0]
    ensures Flat(groups)[|groups[0]|..] == Flat(groups[1..])
  {
  }

  lemma ArrangesRest(groups: seq<seq<string>>, words: seq<string>, max: nat)
    requires groups != [] && Arranges(groups, words, max)
    ensures groups[0] != [] && |groups[0]| <= |words| && words[..|groups[0]|] == groups[0]
    ensures Arranges(groups[1..], words[|groups[0]|..], max)
  {
    hide Spaced;
    FlatHead(groups);
  }

  lemma CutBefore<T>(before: seq<T>, words: seq<T>, n: nat)
    requires n <= |before|
    ensures (before + words)[n..] == before[n..] + words
  {
  }

  lemma CutBehind<T>(before: seq<T>, words: seq<T>, n: nat)
    requires |before| <= n <= |before| + |words|
    ensures (before + words)[n..] == words[n - |before|..] && (before + words)[..n] == before + words[..n - |before|]
  {
  }

  lemma CutTwice<T>(words: seq<T>, k: nat, n: nat)
    requires k <= n <= |words|
    ensures words[k..] == words[..n][k..] + words[n..]
  {
  }

  /** The greedy lines stay ahead: they cannot be more than the lines of words that end with the same words. */
  lemma {:induction false} StaysAhead(
    g: seq<seq<string>>, h: seq<seq<string>>, before: seq<string>, words: seq<string>, max: nat)
    requires Arranges(g, words, max) && Tight(g, max) && Arranges(h, before + words, max)
    ensures |g| <= |h|
    decreases |h|
  {
    hide Spaced, Arranges, Tight, Flat, Allowed;
    if g != [] {
      var all := before + words;
      ArrangesRest(g, words, max);
      HasLines(h, all, max);
      ArrangesRest(h, all, max);
      var first := h[0];
      var n := |first|;
      if n <= |before| {
        CutBefore(before, words, n);
        StaysAhead(g, h[1..], before[n..], words, max);
      } else {
        var k := n - |before|;
        CutBehind(before, words, n);
        if k > |g[0]| {
          LineOverflows(g, words, first, before, k, max);
          FirstAllowed(h, all, max);
        } else {
          CutTwice(words, k, |g[0]|);
          TightRest(g, max);
          StaysAhead(g[1..], h[1..], g[0][k..], words[|g[0]|..], max);
        }
      }
    }
  }

  lemma HasLines(h: seq<seq<string>>, all: seq<string>, max: nat)
    requires Arranges(h, all, max) && all != []
    ensures h != []
  {
  }

  lemma FirstAllowed(h: seq<seq<string>>, all: seq<string>, max: nat)
    requires Arranges(h, all, max) && h != []
    ensures Allowed(h[0], max)
  {
  }

  lemma TightRest(g: seq<seq<string>>, max: nat)
    requires g != [] && Tight(g, max)
    ensures Tight(g[1..], max)
  {
    hide Spaced;
    var rest := g[1..];
    forall i, j | 0 <= i < |rest| - 1 && j == i + 1 && rest[j] != []
      ensures |Spaced(rest[i] + [rest[j][0]])| > max
    {
      assert rest[i] == g[i + 1] && rest[j] == g[j + 1];
    }
  }

  lemma LineOverflows(
    g: seq<seq<string>>, words: seq<string>, first: seq<string>, before: seq<string>, k: nat, max: nat)
    requires g != [] && Arranges(g, words, max) && Tight(g, max)
    requires |g[0]| < k <= |words| && first == before + words[..k]
    ensures !Allowed(first, max)
  {
    hide Spaced;
    assert words == g[0] + Flat(g[1..]);
    assert |g| > 1;
    assert Flat(g[1..]) == g[1] + Flat(g[2..]) by { assert g[1..][1..] == g[2..]; }
    var part := g[0] + [g[1][0]];
    assert part == first[|before|..|before| + |part|];
    SpacedLength(first, |before|, |before| + |part|);
  }

  /** Among all ways to put the words of a line, in order, on lines that fit, the one chosen has the fewest lines. */
  lemma FewestLines(line: string, max: nat, out: seq<string>, other: seq<seq<string>>)
    requires |line| > max && Wrapped(line, max, out) && Arranges(other, Words(line), max)
    ensures |out| <= |other|
  {
    var groups :| Arranges(groups, Words(line), max) && Tight(groups, max) && out == Texts(groups);
    assert [] + Words(line) == Words(line);
    StaysAhead(groups, other, [], Words(line), max);
  }

  // ---------------------------------------------------------------- the words can be read back

  lemma {:induction false} WordsOfSpaced(ws: seq<string>)
    requires forall i | 0 <= i < |ws| :: IsWord(ws[i])
    ensures Words(Spaced(ws)) == ws
  {
    if ws != [] {
      var rest := if |ws| == 1 then "" else " " + Spaced(ws[1..]);
      assert Spaced(ws) == ws[0] + rest by { assert ws[0] + "" == ws[0]; assert ws[0] + (" " + Spaced(ws[1..])) == ws[0] + " " + Spaced(ws[1..]); }
      WordThen(ws[0], rest);
      if |ws| > 1 {
        WordsOfSpaced(ws[1..]);
        assert rest[1..] == Spaced(ws[1..]);
      }
    }
  }

  lemma WordThen(w: string, rest: string)
    requires IsWord(w) && (rest == "" || IsSpace(rest[0]))
    ensures Words(w + rest) == [w] + Words(rest)
  {
    var s := w + rest;
    assert s[0] == w[0];
    var n := Until(s, IsSpace);
    assert forall i | 0 <= i < |w| :: s[i] == w[i];
    assert rest != "" ==> s[|w|] == rest[0];
    assert n == |w|;
    assert s[..n] == w && s[n..] == rest;
  }

  /** The words of the lines of a broken line are, in order, the words of that line. */
  lemma WordsKept(line: string, max: nat, out: seq<string>) returns (perLine: seq<seq<string>>)
    requires Wrapped(line, max, out)
    ensures |perLine| == |out| && Flat(perLine) == Words(line)
    ensures forall i | 0 <= i < |out| :: perLine[i] == Words(out[i])
  {
    if |line| <= max {
      perLine := [Words(line)];
      assert Flat(perLine) == perLine[0] + Flat([]);
    } else {
      var groups :| Arranges(groups, Words(line), max) && Tight(groups, max) && out == Texts(groups);
      perLine := groups;
      forall i | 0 <= i < |out| ensures groups[i] == Words(out[i]) {
        GroupOfWords(groups, i);
        WordsOfSpaced(groups[i]);
      }
    }
  }

  lemma {:induction false} GroupOfWords(groups: seq<seq<string>>, i: nat)
    requires i < |groups| && forall j | 0 <= j < |Flat(groups)| :: IsWord(Flat(groups)[j])
    ensures forall j | 0 <= j < |groups[i]| :: IsWord(groups[i][j])
  {
    var all := Flat(groups);
    if i == 0 {
      forall j | 0 <= j < |groups[0]| ensures IsWord(groups[0][j]) { assert all[j] == groups[0][j]; }
    } else {
      var n := |groups[0]|;
      forall j | 0 <= j < |all| - n ensures IsWord(Flat(groups[1..])[j]) { assert all[n + j] == Flat(groups[1..])[j]; }
      GroupOfWords(groups[1..], i - 1);
    }
  }

  // ---------------------------------------------------------------- the loops

  /** The words so far: whole lines, and an open line that is empty only at the start. */
  ghost predicate Filling(groups: seq<seq<string>>, open: seq<string>, line: string, words: seq<string>, max: nat) {
    && Flat(groups) + open == words
    && (forall i | 0 <= i < |groups| :: Allowed(groups[i], max))
    && (if open == [] then groups == [] else Allowed(open, max) && Tight(groups + [open], max))
    && line == Spaced(open) && (open == [] <==> line == "")
  }

  lemma FillStart(max: nat)
    ensures Filling([], [], "", [], max)
  {
  }

  lemma FillBreak(groups: seq<seq<string>>, open: seq<string>, line: string, words: seq<string>, word: string, max: nat)
    requires Filling(groups, open, line, words, max) && word != "" && line != "" && |line| + 1 + |word| > max
    ensures Filling(groups + [open], [word], word, words + [word], max)
  {
    CloseLine(groups, open, word, max);
    FlatMore(groups, open);
  }

  lemma FillWord(groups: seq<seq<string>>, open: seq<string>, line: string, words: seq<string>, word: string, max: nat)
    requires Filling(groups, open, line, words, max) && word != ""
    requires line == "" || |line| + 1 + |word| <= max
    ensures Filling(groups, open + [word], line + (if line != "" then " " else "") + word, words + [word], max)
  {
    assert (Flat(groups) + open) + [word] == Flat(groups) + (open + [word]);
    if line != "" {
      SpacedMore(open, word);
      TightLonger(groups, open, word, max);
    } else {
      assert open + [word] == [word] && "" + "" + word == word;
    }
  }

  lemma FillEnd(groups: seq<seq<string>>, open: seq<string>, line: string, words: seq<string>, max: nat)
    requires Filling(groups, open, line, words, max)
    ensures line == "" ==> Arranges(groups, words, max) && Tight(groups, max)
    ensures line != "" ==> Arranges(groups + [open], words, max) && Tight(groups + [open], max)
  {
    FlatMore(groups, open);
  }

  lemma TextsMore(groups: seq<seq<string>>, open: seq<string>)
    ensures Texts(groups + [open]) == Texts(groups) + [Spaced(open)]
  {
    hide Spaced;
  }

  /** Breaks one line that is too long. */
  method WrapWords(words: seq<string>, max: nat) returns (result: seq<string>)
    requires forall i | 0 <= i < |words| :: words[i] != ""
    ensures Packed(words, max, result)
  {
    var currentLine := "";
    result := [];
    ghost var groups: seq<seq<string>> := [];
    ghost var open: seq<string> := [];
    FillStart(max);
    for k := 0 to |words|
      invariant Filling(groups, open, currentLine, words[..k], max) && currentLine == Spaced(open)
      invariant result == Texts(groups)
    {
      hide Filling, Spaced, Texts;
      var word := words[k];
      assert words[..k + 1] == words[..k] + [word];
      if |currentLine| + (if currentLine != "" then 1 else 0) + |word| > max {
        if currentLine != "" {
          result := result + [currentLine];
          TextsMore(groups, open);
          FillBreak(groups, open, currentLine, words[..k], word, max);
          groups, open := groups + [open], [word];
        } else {
          FillWord(groups, open, currentLine, words[..k], word, max);
          assert "" + "" + word == word;
          open := open + [word];
        }
        currentLine := word;
      } else {
        FillWord(groups, open, currentLine, words[..k], word, max);
        currentLine := currentLine + (if currentLine != "" then " " else "") + word;
        open := open + [word];
      }
      FillLine(groups, open, currentLine, words[..k + 1], max);
    }
    assert words[..|words|] == words;
    FillEnd(groups, open, currentLine, words, max);
    if currentLine != "" {
      result := result + [currentLine];
      TextsMore(groups, open);
      groups := groups + [open];
    }
    assert Arranges(groups, words, max) && Tight(groups, max) && result == Texts(groups);
  }

  lemma FillLine(groups: seq<seq<string>>, open: seq<string>, line: string, words: seq<string>, max: nat)
    requires Filling(groups, open, line, words, max)
    ensures line == Spaced(open)
  {
  }

  lemma CloseLine(groups: seq<seq<string>>, open: seq<string>, word: string, max: nat)
    requires open != [] && Tight(groups + [open], max) && |Spaced(open)| + 1 + |word| > max
    ensures Tight(groups + [open] + [[word]], max)
  {
    SpacedMore(open, word);
    var was, now := groups + [open], groups + [open] + [[word]];
    forall i, j | 0 <= i < |now| - 1 && j == i + 1 && now[j] != []
      ensures |Spaced(now[i] + [now[j][0]])| > max
    {
      if j < |was| {
        assert now[i] == was[i] && now[j] == was[j];
      }
    }
  }

  lemma TightLonger(groups: seq<seq<string>>, open: seq<string>, word: string, max: nat)
    requires open != [] && Tight(groups + [open], max)
    ensures Tight(groups + [open + [word]], max)
  {
    var was, now := groups + [open], groups + [open + [word]];
    forall i, j | 0 <= i < |now| - 1 && j == i + 1 && now[j] != []
      ensures |Spaced(now[i] + [now[j][0]])| > max
    {
      assert now[i] == was[i] && now[j][0] == was[j][0];
    }
  }

  lemma WrappedMore(lines: seq<string>, max: nat, parts: seq<seq<string>>, k: nat, out: seq<string>)
    requires k < |lines| && EachWrapped(lines[..k], max, parts) && Wrapped(lines[k], max, out)
    ensures EachWrapped(lines[..k + 1], max, parts + [out]) && Flat(parts + [out]) == Flat(parts) + out
  {
    hide Wrapped;
    FlatMore(parts, out);
  }

  /** Breaks a text: each of its lines is kept if it fits, and is wrapped otherwise. */
  method BreakIntoLines(input: string, max: nat) returns (result: seq<string>)
    ensures Broken(Lines(input), max, result)
  {
    hide Packed, Lines, Words, EachWrapped, Flat;
    result := [];
    ghost var parts: seq<seq<string>> := [];
    var lines := Lines(input);
    NoLines(lines, max);
    for k := 0 to |lines|
      invariant EachWrapped(lines[..k], max, parts) && result == Flat(parts)
    {
      var out := [lines[k]];
      if |lines[k]| > max {
        out := WrapWords(Words(lines[k]), max);
      }
      WrappedMore(lines, max, parts, k, out);
      result, parts := result + out, parts + [out];
    }
    assert lines[..|lines|] == lines;
  }

  lemma NoLines(lines: seq<string>, max: nat)
    ensures EachWrapped(lines[..0], max, []) && Flat<string>([]) == []
  {
  }

  /** The words of a broken text are, in order, the words of its lines. */
  lemma AllWordsKept(lines: seq<string>, max: nat, out: seq<string>)
    requires Broken(lines, max, out)
    ensures WordsOf(out) == WordsOf(lines)
  {
    var parts :| EachWrapped(lines, max, parts) && out == Flat(parts);
    PartsKeepWords(lines, max, parts);
  }

  function WordsOf(lines: seq<string>): seq<string> {
    if lines == [] then [] else Words(lines[0]) + WordsOf(lines[1..])
  }

  lemma {:induction false} WordsOfConcat(a: seq<string>, b: seq<string>)
    ensures WordsOf(a + b) == WordsOf(a) + WordsOf(b)
  {
    hide Words;
    if a == [] {
      assert a + b == b;
    } else {
      WordsOfConcat(a[1..], b);
      assert (a + b)[0] == a[0];
      assert (a + b)[1..] == a[1..] + b;
      Regrouped(Words(a[0]), WordsOf(a[1..]), WordsOf(b));
    }
  }

  lemma Regrouped<T>(x: seq<T>, y: seq<T>, z: seq<T>)
    ensures x + (y + z) == (x + y) + z
  {
  }

  lemma {:induction false} FlatWords(out: seq<string>, perLine: seq<seq<string>>)
    requires |perLine| == |out| && forall i | 0 <= i < |out| :: perLine[i] == Words(out[i])
    ensures Flat(perLine) == WordsOf(out)
  {
    hide Words;
    if out != [] { FlatWords(out[1..], perLine[1..]); }
  }

  lemma {:induction false} PartsKeepWords(lines: seq<string>, max: nat, parts: seq<seq<string>>)
    requires EachWrapped(lines, max, parts)
    ensures WordsOf(Flat(parts)) == WordsOf(lines)
  {
    hide Words, Wrapped;
    if lines != [] {
      var perLine := WordsKept(lines[0], max, parts[0]);
      FlatWords(parts[0], perLine);
      PartsKeepWords(lines[1..], max, parts[1..]);
      WordsOfConcat(parts[0], Flat(parts[1..]));
    }
  }
}
