/** Patterns written out: the tokens of a spelled pattern are the ones it was spelled from. */
module GlobSpelling {
  import opened Glob

  // ---------------------------------------------------------------- spelling

  /** A single character stands for itself, a range is its ends around a `-`. */
  function SpelledItem(item: Item): string {
    if item.lo == item.hi then [item.lo] else [item.lo, '-', item.hi]
  }

  function SpelledItems(items: seq<Item>): string {
    if items == [] then "" else SpelledItem(items[0]) + SpelledItems(items[1..])
  }

  function Spelled(t: Token): string {
    match t
    case AnyPath => "**"
    case AnyName => "*"
    case AnyChar => "?"
    case Class(negated, items) => "[" + (if negated then "!" else "") + SpelledItems(items) + "]"
    case Literal(c) => [c]
  }

  function Spelling(ts: seq<Token>): string {
    if ts == [] then "" else Spelled(ts[0]) + Spelling(ts[1..])
  }

  /** No item starts or ends with `]`, and none starts with `-` but a single one at the end. */
  predicate ItemsOk(items: seq<Item>) {
    forall i | 0 <= i < |items| ::
      && items[i].lo != ']' && items[i].hi != ']'
      && (items[i].lo == '-' ==> items[i].hi == '-' && i == |items| - 1)
  }

  /**
   A class without `!` has items, the first of which does not start with `!` and may be a single `]`. With or without `!`,
   the first item may be a single `-`.
   */
  predicate ClassOk(negated: bool, items: seq<Item>) {
    || (ItemsOk(items) && (negated || (items != [] && items[0].lo != '!')))
    || (items != [] && items[0] == Item('-', '-') && ItemsOk(items[1..]))
    || (items != [] && items[0] == Item(']', ']') && ItemsOk(items[1..]) && !negated)
  }

  predicate TokenOk(t: Token) {
    match t
    case Class(negated, items) => ClassOk(negated, items)
    case Literal(c) => c != '*' && c != '?' && c != '['
    case _ => true
  }

  /** Behind a single `*` no other wildcard can be spelled. */
  predicate Spellable(ts: seq<Token>) {
    && (forall i | 0 <= i < |ts| :: TokenOk(ts[i]))
    && forall i | 0 < i < |ts| :: ts[i - 1] == AnyName ==> ts[i] != AnyName && ts[i] != AnyPath
  }

  // ---------------------------------------------------------------- reading back

  lemma {:induction false} NoClose(items: seq<Item>)
    requires ItemsOk(items)
    ensures forall i | 0 <= i < |SpelledItems(items)| :: SpelledItems(items)[i] != ']'
  {
    if items != [] { NoClose(items[1..]); }
  }

  lemma StartsSo(items: seq<Item>)
    requires items != []
    ensures SpelledItems(items) != "" && SpelledItems(items)[0] == items[0].lo
  {
  }

  /** Ranges and single characters are read back. */
  lemma {:induction false} ItemsBack(items: seq<Item>)
    requires ItemsOk(items)
    ensures Ranges(SpelledItems(items)) == items
  {
    if items != [] {
      var w, rest := SpelledItems(items), SpelledItems(items[1..]);
      ItemsBack(items[1..]);
      assert w[|SpelledItem(items[0])|..] == rest;
      if items[0].lo == items[0].hi {
        if |items| > 1 { StartsSo(items[1..]); }
        OnlyDash(items[1..]);
        assert w[1..] == rest;
      } else {
        assert w[3..] == rest;
      }
    }
  }

  lemma OnlyDash(items: seq<Item>)
    requires ItemsOk(items)
    ensures items != [] && items[0].lo == '-' ==> SpelledItems(items) == "-"
  {
    if items != [] && items[0].lo == '-' { assert items[1..] == []; }
  }

  lemma Closes(p: string, n: nat)
    requires n < |p| && p[n] == ']' && forall i | 0 <= i < n :: p[i] != ']'
    ensures CloseAt(p) == n
  {
  }

  /** The content of a class, and what is read from it. */
  lemma ContentBack(negated: bool, items: seq<Item>)
    requires ClassOk(negated, items)
    ensures var content := (if negated then "!" else "") + SpelledItems(items);
      Negated(content) == negated && Items(content) == items
  {
    var w := SpelledItems(items);
    var content := (if negated then "!" else "") + w;
    if items != [] { StartsSo(items); }
    assert negated ==> content[1..] == w;
    assert !negated ==> content == w;
    if items != [] && (w[0] == ']' || w[0] == '-') {
      assert items[0].lo == items[0].hi;
      assert w[1..] == SpelledItems(items[1..]);
      if ItemsOk(items) { assert items[1..] == []; }
      ItemsBack(items[1..]);
    } else {
      ItemsBack(items);
    }
  }

  lemma ClassRead(p: string, content: string)
    requires |content| + 1 < |p| && p[0] == '[' && ClassEnd(p) == |content| + 1 && p[1..|content| + 1] == content
    ensures FirstToken(p) == Class(Negated(content), Items(content)) && FirstLength(p) == |content| + 2
  {
    hide ClassEnd, Items, Negated;
  }

  lemma ClassBack(negated: bool, items: seq<Item>, rest: string)
    requires ClassOk(negated, items)
    ensures var p, t := Spelled(Class(negated, items)) + rest, Class(negated, items);
      FirstToken(p) == t && FirstLength(p) == |Spelled(t)|
  {
    hide ClassOk, FirstToken, FirstLength, ClassEnd, Items, Negated, SpelledItems;
    var content := (if negated then "!" else "") + SpelledItems(items);
    var p := Spelled(Class(negated, items)) + rest;
    ClassParts(negated, items, rest);
    ClassEnds(negated, items, content, rest);
    ContentBack(negated, items);
    ClassRead(p, content);
  }

  lemma ClassParts(negated: bool, items: seq<Item>, rest: string)
    ensures var content, t := (if negated then "!" else "") + SpelledItems(items), Spelled(Class(negated, items));
      && t + rest == "[" + content + "]" + rest && |t| == |content| + 2
      && (t + rest)[0] == '[' && (t + rest)[1..|content| + 1] == content
  {
    hide SpelledItems;
    var content, t := (if negated then "!" else "") + SpelledItems(items), Spelled(Class(negated, items));
    assert t == "[" + content + "]";
  }

  lemma ClassEnds(negated: bool, items: seq<Item>, content: string, rest: string)
    requires ClassOk(negated, items) && content == (if negated then "!" else "") + SpelledItems(items)
    ensures ClassEnd("[" + content + "]" + rest) == |content| + 1
  {
    var p := "[" + content + "]" + rest;
    var n := |content| + 1;
    assert p[n] == ']' && forall i | 0 < i < n :: p[i] == content[i - 1];
    if items != [] { StartsSo(items); }
    NoCloseBehind(negated, items);
    var start := if p[1] == ']' || p[1] == '-' then 2 else 1;
    Closes(p[start..], n - start);
  }

  /** Behind the first character of a class's content no `]` stands, and the first is one only in front of others. */
  lemma NoCloseBehind(negated: bool, items: seq<Item>)
    requires ClassOk(negated, items)
    ensures var content := (if negated then "!" else "") + SpelledItems(items);
      && content != ""
      && (forall i | 1 <= i < |content| :: content[i] != ']')
      && (content[0] == ']' || content[0] == '-' ==> !negated)
  {
    if ItemsOk(items) {
      NoClose(items);
    } else {
      NoClose(items[1..]);
      assert SpelledItems(items) == [items[0].lo] + SpelledItems(items[1..]);
    }
  }

  lemma FirstBack(t: Token, rest: string)
    requires TokenOk(t) && (t == AnyName && rest != "" ==> rest[0] != '*')
    ensures var p := Spelled(t) + rest; FirstToken(p) == t && FirstLength(p) == |Spelled(t)|
  {
    if t.Class? { ClassBack(t.negated, t.items, rest); }
  }

  lemma SpellingStart(ts: seq<Token>)
    requires ts != [] && TokenOk(ts[0])
    ensures Spelling(ts) != "" && (Spelling(ts)[0] == '*' <==> ts[0] == AnyName || ts[0] == AnyPath)
  {
  }

  /** Any list of tokens that can be spelled is read back from its spelling. */
  lemma {:induction false} ReadBack(ts: seq<Token>)
    requires Spellable(ts)
    ensures Tokens(Spelling(ts)) == ts
  {
    hide FirstToken, FirstLength, TokenOk;
    if ts != [] {
      var t, rest := ts[0], Spelling(ts[1..]);
      ReadBack(ts[1..]);
      if |ts| > 1 { SpellingStart(ts[1..]); }
      FirstBack(t, rest);
      var p := Spelled(t) + rest;
      assert p[|Spelled(t)|..] == rest;
    }
  }

  lemma NeverEnds(p: string)
    requires p != "" && p[0] == '[' && (forall i | 2 <= i < |p| :: p[i] != ']') && (|p| > 1 && p[1] == ']' ==> |p| == 2)
    ensures ClassEnd(p) == |p|
  {
    var start := if |p| > 1 && (p[1] == ']' || p[1] == '-') then 2 else 1;
    NeverCloses(p[start..]);
  }

  /** A bracket that nothing closes stands for itself. */
  lemma BracketAlone(p: string)
    requires p != "" && p[0] == '[' && (forall i | 2 <= i < |p| :: p[i] != ']') && (|p| > 1 && p[1] == ']' ==> |p| == 2)
    ensures Tokens(p) == [Literal('[')] + Tokens(p[1..])
  {
    hide ClassEnd;
    NeverEnds(p);
  }

  lemma NeverCloses(p: string)
    requires forall i | 0 <= i < |p| :: p[i] != ']'
    ensures CloseAt(p) == |p|
  {
  }

  // ---------------------------------------------------------------- classes written out

  lemma OneToken(t: Token, s: string)
    requires t.Class?
    ensures Matches([t], s) <==> |s| == 1 && InClass(s[0], t.negated, t.items)
  {
    assert [t] + [] == [t];
    MatchesOne(t, [], s);
    if s != "" { MatchesNothing(s[1..]); }
  }

  lemma ClassAlone(negated: bool, items: seq<Item>, s: string)
    requires ClassOk(negated, items)
    ensures Matches(Tokens(Spelled(Class(negated, items))), s) <==> |s| == 1 && InClass(s[0], negated, items)
  {
    hide *;
    var t := Class(negated, items);
    OneSpellable(t);
    ReadBack([t]);
    OneToken(t, s);
  }

  lemma OneSpellable(t: Token)
    requires t.Class? && ClassOk(t.negated, t.items)
    ensures Spellable([t]) && Spelling([t]) == Spelled(t)
  {
    hide ClassOk, Spelled;
    assert [t][1..] == [];
    assert Spelled(t) + "" == Spelled(t);
  }

  lemma InOneRange(c: char, item: Item)
    ensures Listed(c, [item]) <==> Between(item.lo, c, item.hi)
  {
    hide Between;
    assert [item][0] == item;
  }

  /** A range matches the single characters in it, and with `!` the single characters outside it. */
  lemma RangeMatches(a: char, b: char, s: string)
    requires a != b && a != ']' && a != '-' && a != '!' && b != ']'
    ensures Matches(Tokens(['[', a, '-', b, ']']), s) <==> |s| == 1 && Between(a, s[0], b)
    ensures Matches(Tokens(['[', '!', a, '-', b, ']']), s) <==> |s| == 1 && !Between(a, s[0], b)
  {
    hide Tokens, Matches, Listed, Between;
    var items := [Item(a, b)];
    RangeSpelled(a, b);
    ClassAlone(false, items, s);
    ClassAlone(true, items, s);
    if |s| == 1 { InOneRange(s[0], items[0]); }
  }

  lemma RangeSpelled(a: char, b: char)
    requires a != b
    ensures Spelled(Class(false, [Item(a, b)])) == ['[', a, '-', b, ']']
    ensures Spelled(Class(true, [Item(a, b)])) == ['[', '!', a, '-', b, ']']
  {
    assert SpelledItems([Item(a, b)]) == [a, '-', b] + SpelledItems([]);
  }

  /** A bracket right behind the opening one is a character of the class, and `!` alone excludes nothing. */
  lemma OddClasses(s: string)
    ensures Matches(Tokens("[]]"), s) <==> s == "]"
    ensures Matches(Tokens("[!-]"), s) <==> |s| == 1 && s[0] != '-'
    ensures Matches(Tokens("[!]"), s) <==> |s| == 1
  {
    hide Tokens, Matches, Listed;
    assert SpelledItems([Item(']', ']')]) == "]" && SpelledItems([Item('-', '-')]) == "-";
    assert Spelled(Class(false, [Item(']', ']')])) == "[]]" && Spelled(Class(true, [Item('-', '-')])) == "[!-]";
    assert Spelled(Class(true, [])) == "[!]";
    ClassAlone(false, [Item(']', ']')], s);
    ClassAlone(true, [Item('-', '-')], s);
    ClassAlone(true, [], s);
    if |s| == 1 {
      InOneRange(s[0], Item(']', ']'));
      InOneRange(s[0], Item('-', '-'));
      NotListed(s[0]);
    }
  }

  lemma NotListed(c: char)
    ensures !Listed(c, [])
  {
  }

  // ---------------------------------------------------------------- wildcards written out

  lemma TokensRead()
    ensures Tokens("**") == [AnyPath] && Tokens("*") == [AnyName] && Tokens("?") == [AnyChar]
  {
    hide Tokens;
    forall t | t in [AnyPath, AnyName, AnyChar] ensures Tokens(Spelled(t)) == [t] {
      ReadBack([t]);
      assert Spelling([t]) == Spelled(t) + "" == Spelled(t);
    }
    assert Spelled(AnyPath) == "**" && Spelled(AnyName) == "*" && Spelled(AnyChar) == "?";
  }

  lemma OneWildcard(t: Token, s: string)
    ensures Matches([t], s) <==> Fits(t, s)
  {
    hide Fits;
    assert [t] + [] == [t] && s[..|s|] == s && s[|s|..] == "";
    MatchesNothing("");
    if Matches([t], s) {
      var k := MatchesUncons(t, [], s);
      MatchesNothing(s[k..]);
    }
    if Fits(t, s) { MatchesCons(t, [], s, |s|); }
  }

  /** Two stars match every text, one star the texts without a slash, and a question mark one character but a slash. */
  lemma WildcardsMatch(s: string)
    ensures Matches(Tokens("**"), s)
    ensures Matches(Tokens("*"), s) <==> '/' !in s
    ensures Matches(Tokens("?"), s) <==> |s| == 1 && s != "/"
  {
    hide Tokens, Matches;
    TokensRead();
    OneWildcard(AnyPath, s);
    OneWildcard(AnyName, s);
    OneWildcard(AnyChar, s);
  }
}
