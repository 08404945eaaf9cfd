/** The glob matcher: what a pattern means, and the backtracking search with its bound on wildcards. */
module Glob {

  /** A range of characters in a class; a single character is a range of one. */
  datatype Item = Item(lo: char, hi: char)

  datatype Token =
    | AnyPath
    | AnyName
    | AnyChar
    | Class(negated: bool, items: seq<Item>)
    | Literal(c: char)

  // ---------------------------------------------------------------- meaning

  /** Whether plain characters are signed, which the platform decides. */
  const CHARS_SIGNED: bool

  /** The place of a character in the order of the platform: with the sign, the upper half comes first. */
  function Rank(c: char): (r: int)
    ensures r < 0 <==> CHARS_SIGNED && c >= '\U{80}'
  {
    if CHARS_SIGNED && c >= '\U{80}' then c as int - 0x110000 else c as int
  }

  predicate Between(lo: char, c: char, hi: char) {
    Rank(lo) <= Rank(c) <= Rank(hi)
  }

  predicate Listed(c: char, items: seq<Item>) {
    exists i | 0 <= i < |items| :: Between(items[i].lo, c, items[i].hi)
  }

  predicate InClass(c: char, negated: bool, items: seq<Item>) {
    negated != Listed(c, items)
  }

  /** The pieces of text that a token stands for. */
  predicate Fits(t: Token, piece: string) {
    match t
    case AnyPath => true
    case AnyName => forall i | 0 <= i < |piece| :: piece[i] != '/'
    case AnyChar => |piece| == 1 && piece[0] != '/'
    case Class(negated, items) => |piece| == 1 && InClass(piece[0], negated, items)
    case Literal(c) => piece == [c]
  }

  function Glue(pieces: seq<string>): string {
    if pieces == [] then "" else pieces[0] + Glue(pieces[1..])
  }

  ghost predicate IsCut(tokens: seq<Token>, s: string, pieces: seq<string>) {
    && |pieces| == |tokens| && Glue(pieces) == s
    && forall i | 0 <= i < |tokens| :: Fits(tokens[i], pieces[i])
  }

  /** The text can be cut into one fitting piece per token. */
  ghost predicate Matches(tokens: seq<Token>, s: string) {
    exists pieces :: IsCut(tokens, s, pieces)
  }

  function Wildcards(tokens: seq<Token>): nat {
    if tokens == [] then 0
    else (if tokens[0] == AnyPath || tokens[0] == AnyName then 1 else 0) + Wildcards(tokens[1..])
  }

  // ---------------------------------------------------------------- parsing

  /** Where the class opened at `p[0]` closes, or the length; a `]` or `-` right after the bracket is literal. */
  function ClassEnd(p: string): (n: nat)
    requires p != "" && p[0] == '['
    ensures 0 < n <= |p| && (n < |p| ==> n > 1 && p[n] == ']')
  {
    var start := if |p| > 1 && (p[1] == ']' || p[1] == '-') then 2 else 1;
    start + CloseAt(p[start..])
  }

  function CloseAt(p: string): (n: nat)
    ensures n <= |p| && (n < |p| ==> p[n] == ']')
    ensures forall i | 0 <= i < n :: p[i] != ']'
  {
    if p == "" || p[0] == ']' then 0 else 1 + CloseAt(p[1..])
  }

  function Negated(content: string): bool {
    content != "" && content[0] == '!'
  }

  /** Ranges and single characters; no range may end in `]`. */
  function Ranges(w: string): seq<Item>
    decreases |w|
  {
    if w == "" then []
    else if |w| > 2 && w[1] == '-' && w[2] != ']' then [Item(w[0], w[2])] + Ranges(w[3..])
    else [Item(w[0], w[0])] + Ranges(w[1..])
  }

  /** After the negation a first `]` or `-` is literal. */
  function Items(content: string): seq<Item> {
    var w := if Negated(content) then content[1..] else content;
    if w != "" && (w[0] == ']' || w[0] == '-') then [Item(w[0], w[0])] + Ranges(w[1..]) else Ranges(w)
  }

  function FirstToken(p: string): Token
    requires p != ""
  {
    if p[0] == '*' then (if |p| > 1 && p[1] == '*' then AnyPath else AnyName)
    else if p[0] == '?' then AnyChar
    else if p[0] == '[' && ClassEnd(p) < |p| then
      var content := p[1..ClassEnd(p)];
      Class(Negated(content), Items(content))
    else Literal(p[0])
  }

  function FirstLength(p: string): (n: nat)
    requires p != ""
    ensures 0 < n <= |p|
  {
    if p[0] == '*' then (if |p| > 1 && p[1] == '*' then 2 else 1)
    else if p[0] == '[' && ClassEnd(p) < |p| then ClassEnd(p) + 1
    else 1
  }

  function Tokens(p: string): seq<Token>
    decreases |p|
  {
    if p == "" then [] else [FirstToken(p)] + Tokens(p[FirstLength(p)..])
  }

  // ---------------------------------------------------------------- matching token by token

  lemma MatchesNothing(s: string)
    ensures Matches([], s) <==> s == ""
  {
    if s == "" {
      assert IsCut([], s, []);
    }
  }

  lemma MatchesCons(t: Token, ts: seq<Token>, s: string, k: nat)
    requires k <= |s| && Fits(t, s[..k]) && Matches(ts, s[k..])
    ensures Matches([t] + ts, s)
  {
    var pieces :| IsCut(ts, s[k..], pieces);
    assert ([s[..k]] + pieces)[1..] == pieces;
    assert IsCut([t] + ts, s, [s[..k]] + pieces);
  }

  /** If a text matches, its first piece is some prefix, and the rest matches the other tokens. */
  lemma MatchesUncons(t: Token, ts: seq<Token>, s: string) returns (k: nat)
    requires Matches([t] + ts, s)
    ensures k <= |s| && Fits(t, s[..k]) && Matches(ts, s[k..])
  {
    var pieces :| IsCut([t] + ts, s, pieces);
    k := |pieces[0]|;
    assert s == pieces[0] + Glue(pieces[1..]);
    assert ([t] + ts)[0] == t;
    assert s[..k] == pieces[0] && s[k..] == Glue(pieces[1..]);
    assert IsCut(ts, s[k..], pieces[1..]) by {
      forall i | 0 <= i < |ts| ensures Fits(ts[i], pieces[1..][i]) {
        assert ([t] + ts)[i + 1] == ts[i];
      }
    }
  }

  /** Tokens that stand for one character. */
  lemma MatchesOne(t: Token, ts: seq<Token>, s: string)
    requires t != AnyPath && t != AnyName
    ensures Matches([t] + ts, s) <==> s != "" && Fits(t, s[..1]) && Matches(ts, s[1..])
  {
    if Matches([t] + ts, s) {
      var k := MatchesUncons(t, ts, s);
    }
    if s != "" && Fits(t, s[..1]) && Matches(ts, s[1..]) {
      MatchesCons(t, ts, s, 1);
    }
  }

  /** The answer that the search owes from a place in the pattern and a place in the text. */
  ghost predicate Owed(p: string, s: string, depth: nat, limit: nat) {
    depth + Wildcards(Tokens(p)) < limit && Matches(Tokens(p), s)
  }

  lemma OwedOne(p: string, s: string, depth: nat, limit: nat)
    requires p != "" && p[0] != '*'
    ensures Owed(p, s, depth, limit) <==>
            s != "" && Fits(FirstToken(p), s[..1]) && Owed(p[FirstLength(p)..], s[1..], depth, limit)
  {
    hide Matches, FirstToken, FirstLength;
    assert FirstToken(p) != AnyPath && FirstToken(p) != AnyName by { NoWildcard(p); }
    MatchesOne(FirstToken(p), Tokens(p[FirstLength(p)..]), s);
    assert Tokens(p)[1..] == Tokens(p[FirstLength(p)..]);
  }

  lemma NoWildcard(p: string)
    requires p != "" && p[0] != '*'
    ensures FirstToken(p) != AnyPath && FirstToken(p) != AnyName
  {
  }

  lemma OwedWildcard(p: string, s: string, depth: nat, limit: nat)
    requires p != "" && p[0] == '*'
    ensures Owed(p, s, depth, limit) <==>
            exists k :: 0 <= k <= |s| && Fits(FirstToken(p), s[..k]) && Owed(p[FirstLength(p)..], s[k..], depth + 1, limit)
  {
    hide Matches;
    var t, ts := FirstToken(p), Tokens(p[FirstLength(p)..]);
    assert Tokens(p) == [t] + ts && Tokens(p)[1..] == ts;
    if Owed(p, s, depth, limit) {
      var k := MatchesUncons(t, ts, s);
      assert Owed(p[FirstLength(p)..], s[k..], depth + 1, limit);
    }
    if k :| 0 <= k <= |s| && Fits(t, s[..k]) && Owed(p[FirstLength(p)..], s[k..], depth + 1, limit) {
      MatchesCons(t, ts, s, k);
    }
  }

  // ---------------------------------------------------------------- the search

  lemma ListedCons(c: char, item: Item, items: seq<Item>)
    ensures Listed(c, [item] + items) <==> Between(item.lo, c, item.hi) || Listed(c, items)
  {
    var all := [item] + items;
    if Between(item.lo, c, item.hi) {
      assert all[0] == item;
    }
    if i :| 0 <= i < |items| && Between(items[i].lo, c, items[i].hi) {
      assert all[i + 1] == items[i];
    }
  }

  /** Whether a character may still be found in the class, reading on from a place in its content. */
  ghost predicate StillListed(c: char, content: string, k: nat) {
    k <= |content| && Listed(c, Ranges(content[k..]))
  }

  lemma ListedNext(c: char, content: string, k: nat)
    requires k < |content|
    ensures var range := k + 2 < |content| && content[k + 1] == '-' && content[k + 2] != ']';
            StillListed(c, content, k) <==>
            if range then Between(content[k], c, content[k + 2]) || StillListed(c, content, k + 3)
            else content[k] == c || StillListed(c, content, k + 1)
  {
    var w := content[k..];
    if |w| > 2 && w[1] == '-' && w[2] != ']' {
      assert w[3..] == content[k + 3..];
      ListedCons(c, Item(w[0], w[2]), Ranges(w[3..]));
    } else {
      assert w[1..] == content[k + 1..];
      ListedCons(c, Item(w[0], w[0]), Ranges(w[1..]));
    }
  }

  lemma ListedFirst(c: char, content: string, k: nat)
    requires k == if Negated(content) then 1 else 0
    ensures Listed(c, Items(content)) <==>
            if k < |content| && (content[k] == ']' || content[k] == '-')
            then content[k] == c || StillListed(c, content, k + 1)
            else StillListed(c, content, k)
  {
    assert content[0..] == content;
    if k < |content| {
      assert content[k..][1..] == content[k + 1..];
      ListedCons(c, Item(content[k], content[k]), Ranges(content[k + 1..]));
    }
  }

  /** Whether a character is in the class with this content; past its end stands the closing bracket. */
  method GlobClassMatch(c: char, content: string) returns (r: bool)
    ensures r == InClass(c, Negated(content), Items(content))
  {
    hide Listed, Items, StillListed;
    var k := 0;
    var negated := false;
    if content != "" && content[0] == '!' {
      negated := true;
      k := 1;
    }
    ListedFirst(c, content, k);
    if k == |content| || content[k] == ']' || content[k] == '-' {
      if k < |content| && content[k] == c {
        return !negated;
      }
      if k == |content| { NothingListed(c, content); }
      k := k + 1;
    }
    var matched := false;
    while k < |content|
      invariant Listed(c, Items(content)) == (matched || StillListed(c, content, k))
      decreases |content| - k
    {
      ListedNext(c, content, k);
      if k + 2 < |content| && content[k + 1] == '-' && content[k + 2] != ']' {
        if Rank(c) >= Rank(content[k]) && Rank(c) <= Rank(content[k + 2]) {
          matched := true;
          break;
        }
        k := k + 3;
      } else {
        if content[k] == c {
          matched := true;
          break;
        }
        k := k + 1;
      }
    }
    NothingListed(c, content);
    return if negated then !matched else matched;
  }

  lemma NothingListed(c: char, content: string)
    ensures forall k | k >= |content| :: !StillListed(c, content, k)
  {
    assert content[|content|..] == "";
  }

  /** The answer owed from place `p` of the pattern and place `s` of the text. */
  ghost predicate Goal(pattern: string, p: nat, str: string, s: nat, depth: nat, limit: nat) {
    p <= |pattern| && s <= |str| && Owed(pattern[p..], str[s..], depth, limit)
  }

  /** A wildcard may stop at any place that it can reach. */
  lemma OwedStar(pattern: string, p: nat, after: nat, str: string, s: nat, depth: nat, deeper: nat, limit: nat)
    requires p < |pattern| && pattern[p] == '*' && s <= |str| && deeper == depth + 1
    requires after == if p + 1 < |pattern| && pattern[p + 1] == '*' then p + 2 else p + 1
    ensures Goal(pattern, p, str, s, depth, limit) <==>
            exists k | s <= k <= |str| :: (after == p + 2 || NoSlash(str, s, k)) && Goal(pattern, after, str, k, deeper, limit)
  {
    hide Owed;
    var rest, text := pattern[p..], str[s..];
    OwedWildcard(rest, text, depth, limit);
    assert rest[FirstLength(rest)..] == pattern[after..];
    forall j | 0 <= j <= |text|
      ensures Fits(FirstToken(rest), text[..j]) <==> (after == p + 2 || NoSlash(str, s, s + j))
      ensures text[j..] == str[s + j..]
    {
      assert forall i | 0 <= i < j :: text[..j][i] == str[s + i];
    }
    if j :| 0 <= j <= |text| && Fits(FirstToken(rest), text[..j]) && Owed(rest[FirstLength(rest)..], text[j..], deeper, limit) {
      assert (after == p + 2 || NoSlash(str, s, s + j)) && Goal(pattern, after, str, s + j, deeper, limit);
    }
    if k :| s <= k <= |str| && (after == p + 2 || NoSlash(str, s, k)) && Goal(pattern, after, str, k, deeper, limit) {
      assert Fits(FirstToken(rest), text[..k - s]) && Owed(rest[FirstLength(rest)..], text[k - s..], deeper, limit);
    }
  }

  predicate NoSlash(str: string, from: nat, to: nat)
    requires from <= to <= |str|
  {
    forall i | from <= i < to :: str[i] != '/'
  }

  /** A token that is no wildcard takes one character, if it fits. */
  lemma OwedChar(pattern: string, p: nat, str: string, s: nat, depth: nat, limit: nat)
    requires p < |pattern| && pattern[p] != '*' && s <= |str|
    ensures var t, n := FirstToken(pattern[p..]), FirstLength(pattern[p..]);
            Goal(pattern, p, str, s, depth, limit) <==>
            s < |str| && Fits(t, [str[s]]) && Goal(pattern, p + n, str, s + 1, depth, limit)
  {
    hide Owed;
    var rest, text := pattern[p..], str[s..];
    OwedOne(rest, text, depth, limit);
    assert rest[FirstLength(rest)..] == pattern[p + FirstLength(rest)..];
    if s < |str| {
      assert text[..1] == [str[s]] && text[1..] == str[s + 1..];
    }
  }

  lemma TooDeep(pattern: string, p: nat, str: string, s: nat, depth: nat, limit: nat)
    requires depth >= limit
    ensures !Goal(pattern, p, str, s, depth, limit)
  {
  }

  lemma OwedEnd(pattern: string, str: string, s: nat, depth: nat, limit: nat)
    requires s <= |str|
    ensures Goal(pattern, |pattern|, str, s, depth, limit) <==> depth < limit && s == |str|
  {
    assert pattern[|pattern|..] == "";
    MatchesNothing(str[s..]);
  }

  /** Where the class opened at `p` closes, or the length of the pattern. */
  method FindClassEnd(pattern: string, p: nat) returns (end: nat)
    requires p < |pattern| && pattern[p] == '['
    ensures end == p + ClassEnd(pattern[p..])
  {
    end := p + 1;
    if end < |pattern| && (pattern[end] == ']' || pattern[end] == '-') {
      end := end + 1;
    }
    assert pattern[p..][end - p..] == pattern[end..];
    while end < |pattern| && pattern[end] != ']'
      invariant p < end <= |pattern|
      invariant end + CloseAt(pattern[end..]) == p + ClassEnd(pattern[p..])
    {
      assert pattern[end..][1..] == pattern[end + 1..];
      end := end + 1;
    }
  }

  lemma OwedClass(pattern: string, p: nat, end: nat, str: string, s: nat, depth: nat, limit: nat)
    requires p < end < |pattern| && pattern[p] == '[' && s <= |str|
    requires end == p + ClassEnd(pattern[p..])
    ensures var content := pattern[p + 1..end];
            Goal(pattern, p, str, s, depth, limit) <==>
            s < |str| && InClass(str[s], Negated(content), Items(content)) && Goal(pattern, end + 1, str, s + 1, depth, limit)
  {
    hide Owed, Items, Negated, Listed, Tokens;
    OwedChar(pattern, p, str, s, depth, limit);
    assert pattern[p..][1..end - p] == pattern[p + 1..end];
  }

  lemma OwedLiteral(pattern: string, p: nat, str: string, s: nat, depth: nat, limit: nat)
    requires p < |pattern| && pattern[p] != '*' && s <= |str|
    requires pattern[p] == '[' ==> ClassEnd(pattern[p..]) == |pattern| - p
    ensures Goal(pattern, p, str, s, depth, limit) <==>
            s < |str| && (if pattern[p] == '?' then str[s] != '/' else str[s] == pattern[p])
            && Goal(pattern, p + 1, str, s + 1, depth, limit)
  {
    hide Owed;
    OwedChar(pattern, p, str, s, depth, limit);
  }

  /**
   The backtracking search from one place in the pattern and one in the text. Only wildcards recurse,
   each one level deeper; at the limit the answer is no.
   */
  method GlobMatchFrom(pattern: string, p0: nat, str: string, s0: nat, depth: nat, limit: nat) returns (r: bool)
    requires p0 <= |pattern| && s0 <= |str|
    ensures r == Goal(pattern, p0, str, s0, depth, limit)
    decreases |pattern| - p0, 1
  {
    hide Goal, ClassEnd, InClass, Items, Negated;
    if depth >= limit {
      TooDeep(pattern, p0, str, s0, depth, limit);
      return false;
    }
    var p, s := p0, s0;
    while p < |pattern|
      invariant p0 <= p <= |pattern| && s0 <= s <= |str|
      invariant Goal(pattern, p, str, s, depth, limit) == Goal(pattern, p0, str, s0, depth, limit)
      decreases |pattern| - p
    {
      if pattern[p] == '*' {
        r := GlobMatchStar(pattern, p, str, s, depth, limit);
        return;
      }
      if pattern[p] == '?' && s < |str| && str[s] != '/' {
        OwedLiteral(pattern, p, str, s, depth, limit);
        p, s := p + 1, s + 1;
        continue;
      }
      if pattern[p] == '[' {
        var end := FindClassEnd(pattern, p);
        if end < |pattern| {
          OwedClass(pattern, p, end, str, s, depth, limit);
          if s == |str| { return false; }
          var inClass := GlobClassMatch(str[s], pattern[p + 1..end]);
          if !inClass { return false; }
          p, s := end + 1, s + 1;
          continue;
        }
        OwedLiteral(pattern, p, str, s, depth, limit);
        if s == |str| || str[s] != '[' { return false; }
        p, s := p + 1, s + 1;
        continue;
      }
      OwedLiteral(pattern, p, str, s, depth, limit);
      if s == |str| || pattern[p] != str[s] { return false; }
      p, s := p + 1, s + 1;
    }
    OwedEnd(pattern, str, s, depth, limit);
    return s == |str|;
  }

  /** A wildcard: every place where it may stop is tried, one level deeper. */
  method GlobMatchStar(pattern: string, p: nat, str: string, s: nat, depth: nat, limit: nat) returns (r: bool)
    requires p < |pattern| && pattern[p] == '*' && s <= |str|
    ensures r == Goal(pattern, p, str, s, depth, limit)
    decreases |pattern| - p, 0
  {
    hide Goal;
    var cur, deeper := s, depth + 1;
    var after := if p + 1 < |pattern| && pattern[p + 1] == '*' then p + 2 else p + 1;
    OwedStar(pattern, p, after, str, s, depth, deeper, limit);
    if after == p + 2 {
      while true
        invariant s <= cur <= |str|
        invariant forall k | s <= k < cur :: !Goal(pattern, after, str, k, deeper, limit)
        decreases |str| - cur
      {
        r := GlobMatchFrom(pattern, after, str, cur, deeper, limit);
        if r { return true; }
        if cur == |str| { return false; }
        cur := cur + 1;
      }
    }
    while cur < |str| && str[cur] != '/'
      invariant s <= cur <= |str| && NoSlash(str, s, cur)
      invariant forall k | s <= k < cur :: !Goal(pattern, after, str, k, deeper, limit)
      decreases |str| - cur
    {
      r := GlobMatchFrom(pattern, after, str, cur, deeper, limit);
      if r { return true; }
      cur := cur + 1;
    }
    r := GlobMatchFrom(pattern, after, str, cur, deeper, limit);
  }

  // ---------------------------------------------------------------- whole strings

  /** A string as C reads it: up to the first NUL character. */
  function CString(s: string): (r: string)
    ensures r <= s && forall i | 0 <= i < |r| :: r[i] != '\0'
    ensures |r| < |s| ==> s[|r|] == '\0'
  {
    if s == "" || s[0] == '\0' then "" else [s[0]] + CString(s[1..])
  }

  /**
   The matcher says yes exactly when the pattern has fewer wildcards than the limit and the text can be
   cut into pieces that fit the pattern's tokens.
   */
  method GlobMatch(pattern: string, str: string, limit: nat) returns (r: bool)
    ensures r <==> Wildcards(Tokens(CString(pattern))) < limit && Matches(Tokens(CString(pattern)), CString(str))
  {
    var p, s := CString(pattern), CString(str);
    r := GlobMatchFrom(p, 0, s, 0, 0, limit);
    assert p[0..] == p && s[0..] == s;
  }
}
