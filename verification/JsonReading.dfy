/** What any reader of JSON makes of printed strings, and what the brace scanner counts. */
module JsonReading {
  import opened JsonText

  // ---------------------------------------------------------------- reading a string (section 7 of RFC 8259)

  datatype ReadResult = Malformed | Read(text: string, rest: string)

  /** The value of a hexadecimal digit in either case; 16 for any other character. */
  function HexValue(c: char): nat {
    if '0' <= c <= '9' then c as int - '0' as int
    else if 'a' <= c <= 'f' then 10 + (c as int - 'a' as int)
    else if 'A' <= c <= 'F' then 10 + (c as int - 'A' as int)
    else 16
  }

  /** The character that a backslash and one letter stand for. */
  function Unescaped(c: char): string {
    match c
    case '"' => "\""
    case '\\' => "\\"
    case '/' => "/"
    case 'b' => [8 as char]
    case 'f' => [12 as char]
    case 'n' => [10 as char]
    case 'r' => [13 as char]
    case 't' => [9 as char]
    case _ => ""
  }

  function Before(text: string, r: ReadResult): ReadResult {
    if r.Malformed? then r else Read(text + r.text, r.rest)
  }

  /** Any reader of JSON, behind the opening quote: what the string holds up to its closing quote. */
  function ReadInner(s: string): ReadResult
    decreases |s|
  {
    if s == "" || s[0] < ' ' then Malformed
    else if s[0] == '"' then Read("", s[1..])
    else if s[0] != '\\' then Before([s[0]], ReadInner(s[1..]))
    else if |s| > 1 && Unescaped(s[1]) != "" then Before(Unescaped(s[1]), ReadInner(s[2..]))
    else if |s| > 5 && s[1] == 'u' && HexValue(s[2]) + HexValue(s[3]) == 0 && HexValue(s[4]) < 16 && HexValue(s[5]) < 16 then
      Before([(HexValue(s[4]) * 16 + HexValue(s[5])) as char], ReadInner(s[6..]))
    else Malformed
  }

  lemma HexRead(n: nat)
    requires n < 16
    ensures HexValue(HexDigit(n)) == n
  {
  }

  lemma PlainReads(c: char, rest: string)
    requires c != '"' && c != '\\' && c >= ' '
    ensures ReadInner([c] + rest) == Before([c], ReadInner(rest))
  {
    assert ([c] + rest)[1..] == rest;
  }

  lemma LetterReads(c: char, rest: string)
    requires Unescaped(c) != ""
    ensures ReadInner(['\\', c] + rest) == Before(Unescaped(c), ReadInner(rest))
  {
    hide Unescaped;
    assert (['\\', c] + rest)[2..] == rest;
  }

  lemma CodeReads(x: char, y: char, rest: string)
    requires HexValue(x) < 16 && HexValue(y) < 16
    ensures ReadInner(['\\', 'u', '0', '0', x, y] + rest) == Before([(HexValue(x) * 16 + HexValue(y)) as char], ReadInner(rest))
  {
    var s := ['\\', 'u', '0', '0', x, y] + rest;
    assert s[6..] == rest;
    assert Unescaped('u') == "" && HexValue('0') == 0;
    hide HexValue, Unescaped;
  }

  lemma CharReadBack(c: char, rest: string)
    ensures ReadInner(EscapeChar(c) + rest) == Before([c], ReadInner(rest))
  {
    hide ReadInner, HexValue, HexDigit;
    var e := EscapeChar(c);
    if |e| == 1 {
      PlainReads(c, rest);
    } else if |e| == 2 {
      LetterReads(e[1], rest);
      assert e == ['\\', e[1]] && Unescaped(e[1]) == [c];
    } else {
      HexRead(c as int / 16);
      HexRead(c as int % 16);
      CodeReads(e[4], e[5], rest);
      assert e == ['\\', 'u', '0', '0', e[4], e[5]];
      assert [(c as int / 16 * 16 + c as int % 16) as char] == [c];
    }
  }

  /** Any text reads back from its escaped form, and reading stops behind the closing quote. */
  lemma {:induction false} EscapedReadsBack(text: string, rest: string)
    ensures ReadInner(EscapeInner(text) + "\"" + rest) == Read(text, rest)
  {
    hide EscapeChar, ReadInner;
    if text == "" {
      assert EscapeInner(text) + "\"" + rest == "\"" + rest;
      QuoteEnds(rest);
    } else {
      var more := EscapeInner(text[1..]) + "\"" + rest;
      assert EscapeInner(text) + "\"" + rest == EscapeChar(text[0]) + more;
      CharReadBack(text[0], more);
      EscapedReadsBack(text[1..], rest);
      assert [text[0]] + text[1..] == text;
    }
  }

  lemma QuoteEnds(rest: string)
    ensures ReadInner("\"" + rest) == Read("", rest)
  {
    assert ("\"" + rest)[1..] == rest;
  }

  /** A printed string is a JSON string that reads back as the text. */
  lemma DumpReadsBack(text: string, rest: string)
    ensures (Dump(text) + rest)[0] == '"' && ReadInner((Dump(text) + rest)[1..]) == Read(text, rest)
  {
    hide EscapeInner, ReadInner;
    assert (Dump(text) + rest)[1..] == EscapeInner(text) + "\"" + rest;
    EscapedReadsBack(text, rest);
  }

  // ---------------------------------------------------------------- counting braces

  /** How many more braces a text opens than it closes. */
  function Surplus(s: string): int {
    multiset(s)['{'] as int - multiset(s)['}'] as int
  }

  /** Outside strings the depth is the number of `{` less the number of `}`. */
  lemma {:induction false} PlainDepth(d: int, s: string)
    requires '"' !in s
    ensures ScanFrom(Scan(d, false, false), s) == Scan(d + Surplus(s), false, false)
    decreases s
  {
    if s != "" {
      assert s == [s[0]] + s[1..];
      PlainDepth(ScanStep(Scan(d, false, false), s[0]).depth, s[1..]);
    }
  }

  /** And the braces in a printed string do not count. */
  lemma DepthAroundString(a: string, text: string, b: string)
    requires '"' !in a && '"' !in b
    ensures ScanFrom(START, a + Dump(text) + b).depth == Surplus(a) + Surplus(b)
  {
    hide ScanFrom, Dump;
    ScanConcat(START, a + Dump(text), b);
    ScanConcat(START, a, Dump(text));
    PlainDepth(0, a);
    DumpBalanced(text);
    BalancedAnywhere(Surplus(a), Dump(text));
    PlainDepth(Surplus(a), b);
  }
}
