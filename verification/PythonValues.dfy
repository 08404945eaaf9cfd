/** Nested values as Python and as JSON print them, and the rewriter taking one rendering to the other. */
module PythonValues {
  import opened JsonText
  import opened Quotes

  /** Which text is wanted: Python's, or JSON's with Python's spacing. */
  datatype Language = Python | Json

  /** A string, with the quote that Python prints around it. */
  datatype Text = Text(chars: string, quote: Quote)

  datatype Value =
    | Null
    | Bool(b: bool)
    | Number(digits: string)
    | Str(text: Text)
    | List(items: seq<Value>)
    | Dict(entries: seq<Entry>)

  datatype Entry = Entry(key: Text, value: Value)

  // ---------------------------------------------------------------- which values

  /** Characters that Python and JSON escape alike, or not at all; other control characters differ. */
  predicate PlainChar(c: char) {
    c == '\n' || c == '\r' || c == '\t' || (' ' <= c && c != '\U{7F}')
  }

  predicate ValidText(t: Text) {
    t.quote != Bare && forall i | 0 <= i < |t.chars| :: PlainChar(t.chars[i])
  }

  predicate NumberChar(c: char) {
    '0' <= c <= '9' || c == '+' || c == '-' || c == '.' || c == 'e' || c == 'E'
  }

  predicate Valid(v: Value) {
    match v
    case Null => true
    case Bool(_) => true
    case Number(digits) => digits != "" && forall i | 0 <= i < |digits| :: NumberChar(digits[i])
    case Str(text) => ValidText(text)
    case List(items) => forall i | 0 <= i < |items| :: Valid(items[i])
    case Dict(entries) => forall i | 0 <= i < |entries| :: ValidText(entries[i].key) && Valid(entries[i].value)
  }

  // ---------------------------------------------------------------- rendering

  function PythonChar(q: Quote, c: char): string {
    if c == '\\' then "\\\\"
    else if (q == Single && c == '\'') || (q == Double && c == '"') then ['\\', c]
    else if c == '\n' then "\\n"
    else if c == '\r' then "\\r"
    else if c == '\t' then "\\t"
    else [c]
  }

  function PythonInner(q: Quote, s: string): string {
    if s == [] then [] else PythonChar(q, s[0]) + PythonInner(q, s[1..])
  }

  function QuoteMark(q: Quote): string {
    if q == Single then "'" else "\""
  }

  function RenderText(lang: Language, t: Text): string {
    if lang == Json then Dump(t.chars)
    else QuoteMark(t.quote) + PythonInner(t.quote, t.chars) + QuoteMark(t.quote)
  }

  function Render(lang: Language, v: Value): string
    decreases v, 0
  {
    match v
    case Null => if lang == Json then "null" else "None"
    case Bool(b) => if lang == Json then (if b then "true" else "false") else (if b then "True" else "False")
    case Number(digits) => digits
    case Str(text) => RenderText(lang, text)
    case List(items) => "[" + RenderItems(lang, items) + "]"
    case Dict(entries) => "{" + RenderEntries(lang, entries) + "}"
  }

  function RenderItems(lang: Language, items: seq<Value>): string
    decreases items, 1
  {
    if |items| == 0 then ""
    else Render(lang, items[0]) + (if |items| == 1 then "" else ", " + RenderItems(lang, items[1..]))
  }

  function RenderEntries(lang: Language, entries: seq<Entry>): string
    decreases entries, 1
  {
    if |entries| == 0 then ""
    else
      RenderEntry(lang, entries[0])
      + (if |entries| == 1 then "" else ", " + RenderEntries(lang, entries[1..]))
  }

  function RenderEntry(lang: Language, e: Entry): string
    decreases e, 0
  {
    RenderText(lang, e.key) + ": " + Render(lang, e.value)
  }

  // ---------------------------------------------------------------- the rewriter on renderings

  /** `a`, whatever comes after it, is rewritten to `b`, starting and ending outside strings. */
  ghost predicate Becomes(a: string, b: string) {
    forall rest: string | Delimited(rest) :: Rewrite(Bare, a + rest) == b + Rewrite(Bare, rest)
  }

  /** Text that does not continue a bare word. */
  predicate Delimited(rest: string) {
    rest == [] || !IsWordChar(rest[0])
  }

  predicate Punctuation(c: char) {
    c == '[' || c == ']' || c == '{' || c == '}' || c == ',' || c == ':' || c == ' '
  }

  lemma {:induction false} RewritePunctuation(p: string, rest: string)
    requires forall i | 0 <= i < |p| :: Punctuation(p[i])
    ensures Rewrite(Bare, p + rest) == p + Rewrite(Bare, rest)
  {
    hide Rewrite;
    if p == [] {
      assert p + rest == rest;
    } else {
      RewritePunctuation(p[1..], rest);
      RewriteMark(p[0], p[1..] + rest);
      assert p + rest == [p[0]] + (p[1..] + rest);
      assert [p[0]] + (p[1..] + Rewrite(Bare, rest)) == p + Rewrite(Bare, rest);
    }
  }

  lemma RewriteMark(c: char, rest: string)
    requires !IsWordChar(c) && c != '"' && c != '\''
    ensures Rewrite(Bare, [c] + rest) == [c] + Rewrite(Bare, rest)
  {
    assert ([c] + rest)[1..] == rest;
  }

  /** Punctuation may come first, before anything. */
  lemma BecomesAfter(p: string, c: string, d: string)
    requires forall i | 0 <= i < |p| :: Punctuation(p[i])
    requires Becomes(c, d)
    ensures Becomes(p + c, p + d)
  {
    hide Rewrite;
    forall rest: string | Delimited(rest) ensures Rewrite(Bare, p + c + rest) == p + d + Rewrite(Bare, rest) {
      assert p + c + rest == p + (c + rest);
      RewritePunctuation(p, c + rest);
      assert p + d + Rewrite(Bare, rest) == p + (d + Rewrite(Bare, rest));
    }
  }

  /** Renderings may be put one after the other where the second does not continue a bare word. */
  lemma BecomesConcat(a: string, b: string, c: string, d: string)
    requires Becomes(a, b) && Becomes(c, d)
    requires c != [] && !IsWordChar(c[0])
    ensures Becomes(a + c, b + d)
  {
    hide Rewrite, IsWordChar;
    forall rest: string | Delimited(rest) ensures Rewrite(Bare, a + c + rest) == b + d + Rewrite(Bare, rest) {
      assert a + c + rest == a + (c + rest);
      assert b + d + Rewrite(Bare, rest) == b + (d + Rewrite(Bare, rest));
    }
  }

  lemma BecomesMarks(p: string)
    requires forall i | 0 <= i < |p| :: Punctuation(p[i])
    ensures Becomes(p, p)
  {
    forall rest: string | Delimited(rest) ensures Rewrite(Bare, p + rest) == p + Rewrite(Bare, rest) {
      RewritePunctuation(p, rest);
    }
  }

  // ---------------------------------------------------------------- words and numbers

  lemma WordLenOfConcat(w: string, rest: string)
    requires Delimited(rest)
    ensures WordLen(w + rest) == WordLen(w)
  {
    if w == [] {
      assert w + rest == rest;
    } else if IsWordChar(w[0]) {
      assert (w + rest)[1..] == w[1..] + rest;
      WordLenOfConcat(w[1..], rest);
    }
  }

  lemma {:induction false} WordLenOfWord(w: string)
    requires forall i | 0 <= i < |w| :: IsWordChar(w[i])
    ensures WordLen(w) == |w|
  {
    if w != [] { WordLenOfWord(w[1..]); }
  }

  lemma BecomesWord(w: string)
    requires w != [] && forall i | 0 <= i < |w| :: IsWordChar(w[i])
    ensures Becomes(w, Literal(w))
  {
    hide Literal;
    forall rest: string | Delimited(rest) ensures Rewrite(Bare, w + rest) == Literal(w) + Rewrite(Bare, rest) {
      WordLenOfWord(w);
      WordLenOfConcat(w, rest);
      assert (w + rest)[..|w|] == w && (w + rest)[|w|..] == rest;
    }
  }

  lemma {:induction false} RewriteNumber(t: string, rest: string)
    requires Delimited(rest)
    requires forall i | 0 <= i < |t| :: NumberChar(t[i])
    ensures Rewrite(Bare, t + rest) == t + Rewrite(Bare, rest)
    decreases |t|
  {
    hide Rewrite, IsLiteralPrefix;
    if t == [] {
      assert t + rest == rest;
    } else {
      var n := if IsWordChar(t[0]) then WordLen(t) else 1;
      var w, u := t[..n], t[n..];
      assert t + rest == w + (u + rest);
      RewriteNumber(u, rest);
      if IsWordChar(t[0]) {
        LiteralInitial(w);
        NumberWord(w, u + rest);
      } else {
        assert w == [t[0]];
        RewriteMark(t[0], u + rest);
      }
      assert w + (u + Rewrite(Bare, rest)) == t + Rewrite(Bare, rest);
    }
  }

  lemma BecomesNumber(t: string)
    requires forall i | 0 <= i < |t| :: NumberChar(t[i])
    ensures Becomes(t, t)
  {
    forall rest: string | Delimited(rest) ensures Rewrite(Bare, t + rest) == t + Rewrite(Bare, rest) {
      RewriteNumber(t, rest);
    }
  }

  lemma NumberWord(w: string, rest: string)
    requires w != [] && Delimited(rest) && !IsLiteralPrefix(w)
    requires forall i | 0 <= i < |w| :: IsWordChar(w[i])
    ensures Rewrite(Bare, w + rest) == w + Rewrite(Bare, rest)
  {
    BecomesWord(w);
  }

  // ---------------------------------------------------------------- strings

  /** One printed character inside a string. */
  lemma RewriteChar(q: Quote, c: char, rest: string)
    requires q != Bare && PlainChar(c)
    ensures Rewrite(q, PythonChar(q, c) + rest) == EscapeChar(c) + Rewrite(q, rest)
  {
    var p := PythonChar(q, c);
    if |p| == 2 {
      assert (p + rest)[2..] == rest;
      assert PairOut(q, p[1]) == EscapeChar(c);
    } else {
      assert (p + rest)[1..] == rest;
      assert CharOut(q, c) == EscapeChar(c) && NextQuote(q, c) == q;
    }
  }

  lemma {:induction false} RewriteInner(q: Quote, s: string, rest: string)
    requires q != Bare && forall i | 0 <= i < |s| :: PlainChar(s[i])
    ensures Rewrite(q, PythonInner(q, s) + rest) == EscapeInner(s) + Rewrite(q, rest)
  {
    hide Rewrite, PythonChar, EscapeChar, PlainChar;
    if s == [] {
      assert PythonInner(q, s) + rest == rest;
      assert EscapeInner(s) + Rewrite(q, rest) == Rewrite(q, rest);
    } else {
      var a, b := PythonChar(q, s[0]), PythonInner(q, s[1..]);
      assert PythonInner(q, s) + rest == a + (b + rest);
      RewriteChar(q, s[0], b + rest);
      RewriteInner(q, s[1..], rest);
      var x, y, z := EscapeChar(s[0]), EscapeInner(s[1..]), Rewrite(q, rest);
      assert x + (y + z) == (x + y) + z;
    }
  }

  lemma BecomesText(t: Text)
    requires ValidText(t)
    ensures Becomes(RenderText(Python, t), RenderText(Json, t))
  {
    hide Rewrite, RenderText, ValidText;
    forall rest: string | Delimited(rest)
      ensures Rewrite(Bare, RenderText(Python, t) + rest) == RenderText(Json, t) + Rewrite(Bare, rest)
    {
      TextRewritten(t, rest);
    }
  }

  lemma TextRewritten(t: Text, rest: string)
    requires ValidText(t)
    ensures Rewrite(Bare, RenderText(Python, t) + rest) == RenderText(Json, t) + Rewrite(Bare, rest)
  {
    hide PythonChar, EscapeChar, PlainChar, Rewrite, PythonInner, EscapeInner, QuoteMark;
    var q, m, inner := t.quote, QuoteMark(t.quote), PythonInner(t.quote, t.chars);
    Enclosed(m, inner, rest);
    RewriteQuoteMark(q, inner + (m + rest), rest);
    RewriteInner(q, t.chars, m + rest);
    Enclosed("\"", EscapeInner(t.chars), Rewrite(Bare, rest));
  }

  lemma Enclosed(m: string, inner: string, rest: string)
    ensures m + inner + m + rest == m + (inner + (m + rest))
  {
  }

  lemma RewriteQuoteMark(q: Quote, inside: string, after: string)
    requires q != Bare
    ensures Rewrite(Bare, QuoteMark(q) + inside) == "\"" + Rewrite(q, inside)
    ensures Rewrite(q, QuoteMark(q) + after) == "\"" + Rewrite(Bare, after)
  {
    assert (QuoteMark(q) + inside)[1..] == inside && (QuoteMark(q) + after)[1..] == after;
  }

  // ---------------------------------------------------------------- values

  lemma {:induction false} BecomesValue(v: Value)
    requires Valid(v)
    ensures Becomes(Render(Python, v), Render(Json, v))
    decreases v, 0
  {
    hide Becomes;
    match v
    case Null =>
      BecomesWord("None");
      assert Literal("None") == "null";
    case Bool(b) =>
      BecomesWord(Render(Python, v));
      assert Literal("True") == "true" && Literal("False") == "false";
    case Number(digits) =>
      BecomesNumber(digits);
    case Str(text) =>
      BecomesText(text);
    case List(items) =>
      BecomesItems(items);
      Bracketed("[", RenderItems(Python, items), RenderItems(Json, items), "]");
    case Dict(entries) =>
      BecomesEntries(entries);
      Bracketed("{", RenderEntries(Python, entries), RenderEntries(Json, entries), "}");
  }

  lemma Bracketed(open: string, a: string, b: string, close: string)
    requires |open| == 1 && |close| == 1 && Punctuation(open[0]) && Punctuation(close[0])
    requires Becomes(a, b)
    ensures Becomes(open + a + close, open + b + close)
  {
    hide Becomes;
    BecomesMarks(close);
    BecomesConcat(a, b, close, close);
    BecomesAfter(open, a + close, b + close);
    assert open + a + close == open + (a + close) && open + b + close == open + (b + close);
  }

  lemma Separated(a: string, b: string, sep: string, c: string, d: string)
    requires Becomes(a, b) && Becomes(c, d)
    requires sep != [] && forall i | 0 <= i < |sep| :: Punctuation(sep[i])
    ensures Becomes(a + (sep + c), b + (sep + d))
  {
    hide Becomes;
    BecomesAfter(sep, c, d);
    BecomesConcat(a, b, sep + c, sep + d);
  }

  lemma {:induction false} BecomesItems(items: seq<Value>)
    requires forall i | 0 <= i < |items| :: Valid(items[i])
    ensures Becomes(RenderItems(Python, items), RenderItems(Json, items))
    decreases items, 1
  {
    hide Becomes, Render;
    if |items| == 0 {
      BecomesMarks("");
    } else {
      BecomesValue(items[0]);
      var a, b := Render(Python, items[0]), Render(Json, items[0]);
      if |items| == 1 {
        assert a + "" == a && b + "" == b;
      } else {
        BecomesItems(items[1..]);
        Separated(a, b, ", ", RenderItems(Python, items[1..]), RenderItems(Json, items[1..]));
      }
    }
  }

  lemma {:induction false} BecomesEntries(entries: seq<Entry>)
    requires forall i | 0 <= i < |entries| :: ValidText(entries[i].key) && Valid(entries[i].value)
    ensures Becomes(RenderEntries(Python, entries), RenderEntries(Json, entries))
    decreases entries, 1
  {
    hide Becomes, RenderEntry;
    if |entries| == 0 {
      BecomesMarks("");
    } else {
      BecomesEntry(entries[0]);
      var a, b := RenderEntry(Python, entries[0]), RenderEntry(Json, entries[0]);
      if |entries| == 1 {
        assert a + "" == a && b + "" == b;
      } else {
        BecomesEntries(entries[1..]);
        Separated(a, b, ", ", RenderEntries(Python, entries[1..]), RenderEntries(Json, entries[1..]));
      }
    }
  }

  lemma {:induction false} BecomesEntry(e: Entry)
    requires ValidText(e.key) && Valid(e.value)
    ensures Becomes(RenderEntry(Python, e), RenderEntry(Json, e))
    decreases e, 0
  {
    hide Becomes, Render, RenderText;
    BecomesText(e.key);
    BecomesValue(e.value);
    Separated(RenderText(Python, e.key), RenderText(Json, e.key), ": ", Render(Python, e.value), Render(Json, e.value));
    assert RenderEntry(Python, e) == RenderText(Python, e.key) + (": " + Render(Python, e.value));
    assert RenderEntry(Json, e) == RenderText(Json, e.key) + (": " + Render(Json, e.value));
  }

  /** Rewriting Python's rendering of any nested value gives JSON's rendering of the same value. */
  lemma PythonBecomesJson(v: Value)
    requires Valid(v)
    ensures Rewrite(Bare, Render(Python, v)) == Render(Json, v)
  {
    BecomesValue(v);
    assert Render(Python, v) + [] == Render(Python, v);
    assert Render(Json, v) + Rewrite(Bare, []) == Render(Json, v);
  }

  // ---------------------------------------------------------------- nesting of the rendering

  /** JSON's rendering of a value closes its strings and balances its braces. */
  lemma {:induction false} RenderedBalanced(v: Value)
    requires Valid(v)
    ensures Balanced(Render(Json, v))
    decreases v, 0
  {
    match v
    case Null => ScanPlain(START, "null");
    case Bool(b) => ScanPlain(START, Render(Json, v));
    case Number(digits) => ScanPlain(START, digits);
    case Str(text) => DumpBalanced(text.chars);
    case List(items) =>
      ItemsBalanced(items);
      ScanPlain(START, "[");
      ScanPlain(START, "]");
      BalancedConcat("[", RenderItems(Json, items));
      BalancedConcat("[" + RenderItems(Json, items), "]");
    case Dict(entries) =>
      EntriesBalanced(entries);
      Braced(RenderEntries(Json, entries));
  }

  lemma Braced(s: string)
    requires Balanced(s)
    ensures ScanFrom(START, "{" + s) == Scan(1, false, false)
    ensures Balanced("{" + s + "}")
  {
    ScanConcat(START, "{", s);
    assert "{"[1..] == [] && "}"[1..] == [];
    assert ScanFrom(START, "{") == ScanStep(START, '{');
    BalancedAnywhere(1, s);
    ScanConcat(START, "{" + s, "}");
    assert ScanFrom(Scan(1, false, false), "}") == ScanStep(Scan(1, false, false), '}');
  }

  lemma {:induction false} ItemsBalanced(items: seq<Value>)
    requires forall i | 0 <= i < |items| :: Valid(items[i])
    ensures Balanced(RenderItems(Json, items))
    decreases items, 1
  {
    hide Balanced, Render;
    if |items| == 0 {
      EmptyBalanced();
    } else {
      RenderedBalanced(items[0]);
      if |items| == 1 {
        assert Render(Json, items[0]) + "" == Render(Json, items[0]);
      } else {
        ItemsBalanced(items[1..]);
        JoinedBalanced(Render(Json, items[0]), ", ", RenderItems(Json, items[1..]));
      }
    }
  }

  lemma EmptyBalanced()
    ensures Balanced("")
  {
  }

  lemma JoinedBalanced(a: string, sep: string, b: string)
    requires Balanced(a) && Balanced(b)
    requires forall i | 0 <= i < |sep| :: sep[i] == ',' || sep[i] == ':' || sep[i] == ' '
    ensures Balanced(a + (sep + b))
  {
    ScanPlain(START, sep);
    BalancedConcat(sep, b);
    BalancedConcat(a, sep + b);
  }

  lemma {:induction false} EntriesBalanced(entries: seq<Entry>)
    requires forall i | 0 <= i < |entries| :: ValidText(entries[i].key) && Valid(entries[i].value)
    ensures Balanced(RenderEntries(Json, entries))
    decreases entries, 1
  {
    hide Balanced, RenderEntry;
    if |entries| == 0 {
      EmptyBalanced();
    } else {
      EntryBalanced(entries[0]);
      if |entries| == 1 {
        assert RenderEntry(Json, entries[0]) + "" == RenderEntry(Json, entries[0]);
      } else {
        EntriesBalanced(entries[1..]);
        JoinedBalanced(RenderEntry(Json, entries[0]), ", ", RenderEntries(Json, entries[1..]));
      }
    }
  }

  lemma {:induction false} EntryBalanced(e: Entry)
    requires ValidText(e.key) && Valid(e.value)
    ensures Balanced(RenderEntry(Json, e))
    decreases e, 0
  {
    hide Balanced, Render;
    DumpBalanced(e.key.chars);
    RenderedBalanced(e.value);
    JoinedBalanced(Dump(e.key.chars), ": ", Render(Json, e.value));
    assert RenderEntry(Json, e) == Dump(e.key.chars) + (": " + Render(Json, e.value));
  }
}
