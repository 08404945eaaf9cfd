/** JSON string escaping (section 7 of RFC 8259) and the brace scanner of the tool-call parser. */
module JsonText {

  // ---------------------------------------------------------------- string escaping

  function HexDigit(n: nat): char
    requires n < 16
  {
    "0123456789abcdef"[n]
  }

  /** How the JSON library prints one character inside a string. */
  function EscapeChar(c: char): string {
    if c == '"' then "\\\""
    else if c == '\\' then "\\\\"
    else if c == '\U{08}' then "\\b"
    else if c == '\U{0C}' then "\\f"
    else if c == '\n' then "\\n"
    else if c == '\r' then "\\r"
    else if c == '\t' then "\\t"
    else if c < ' ' then "\\u00" + [HexDigit(c as int / 16), HexDigit(c as int % 16)]
    else [c]
  }

  /** The text of a JSON string without its two quotes. */
  function EscapeInner(s: string): string {
    if s == [] then [] else EscapeChar(s[0]) + EscapeInner(s[1..])
  }

  /** A string as the JSON library prints it. */
  function Dump(s: string): string {
    "\"" + EscapeInner(s) + "\""
  }

  /** Escaping works character by character, so chunks of a string may be escaped one at a time. */
  lemma {:induction false} EscapeInnerConcat(s: string, t: string)
    ensures EscapeInner(s + t) == EscapeInner(s) + EscapeInner(t)
  {
    hide EscapeChar;
    if s == [] {
      assert s + t == t;
    } else {
      EscapeInnerConcat(s[1..], t);
      assert (s + t)[0] == s[0] && (s + t)[1..] == s[1..] + t;
      var x, y, z := EscapeChar(s[0]), EscapeInner(s[1..]), EscapeInner(t);
      assert x + (y + z) == (x + y) + z;
    }
  }

  // ---------------------------------------------------------------- brace scanner

  /** What the scanner remembers between two characters. */
  datatype Scan = Scan(depth: int, inString: bool, escaped: bool)

  const START := Scan(0, false, false)

  function ScanStep(st: Scan, c: char): Scan {
    if st.escaped then st.(escaped := false)
    else if c == '\\' && st.inString then st.(escaped := true)
    else if c == '"' then st.(inString := !st.inString)
    else if !st.inString && c == '{' then st.(depth := st.depth + 1)
    else if !st.inString && c == '}' then st.(depth := st.depth - 1)
    else st
  }

  function ScanFrom(st: Scan, s: string): Scan
    decreases s
  {
    if s == [] then st else ScanFrom(ScanStep(st, s[0]), s[1..])
  }

  lemma {:induction false} ScanConcat(st: Scan, s: string, t: string)
    ensures ScanFrom(st, s + t) == ScanFrom(ScanFrom(st, s), t)
    decreases s
  {
    if s == [] {
      assert s + t == t;
    } else {
      assert (s + t)[1..] == s[1..] + t;
      ScanConcat(ScanStep(st, s[0]), s[1..], t);
    }
  }

  /** The depth is a count: starting higher ends equally much higher. */
  lemma {:induction false} ScanShift(st: Scan, d: int, s: string)
    ensures ScanFrom(st.(depth := st.depth + d), s) == ScanFrom(st, s).(depth := ScanFrom(st, s).depth + d)
    decreases s
  {
    if s != [] {
      assert ScanStep(st.(depth := st.depth + d), s[0]) == ScanStep(st, s[0]).(depth := ScanStep(st, s[0]).depth + d);
      ScanShift(ScanStep(st, s[0]), d, s[1..]);
    }
  }

  /** Text that leaves a scan outside strings where it was: quotes closed and braces balanced. */
  predicate Balanced(s: string) {
    ScanFrom(START, s) == START
  }

  lemma BalancedAnywhere(d: int, s: string)
    requires Balanced(s)
    ensures ScanFrom(Scan(d, false, false), s) == Scan(d, false, false)
  {
    ScanShift(START, d, s);
  }

  lemma BalancedConcat(s: string, t: string)
    requires Balanced(s) && Balanced(t)
    ensures Balanced(s + t)
  {
    ScanConcat(START, s, t);
  }

  lemma {:induction false} ScanEscaped(d: int, s: string)
    ensures ScanFrom(Scan(d, true, false), EscapeInner(s)) == Scan(d, true, false)
  {
    if s != [] {
      var st := Scan(d, true, false);
      var e := EscapeChar(s[0]);
      ScanConcat(st, e, EscapeInner(s[1..]));
      assert ScanFrom(st, e) == st by { ScanEscapedChar(st, s[0]); }
      ScanEscaped(d, s[1..]);
    }
  }

  lemma ScanEscapedChar(st: Scan, c: char)
    requires st.inString && !st.escaped
    ensures ScanFrom(st, EscapeChar(c)) == st
  {
    var e := EscapeChar(c);
    if |e| == 1 {
      assert ScanFrom(ScanStep(st, e[0]), e[1..]) == st;
    } else if |e| == 2 {
      assert e[1..][1..] == [];
      assert ScanFrom(ScanStep(ScanStep(st, e[0]), e[1]), e[1..][1..]) == st;
    } else {
      assert |e| == 6;
      var s2 := ScanStep(ScanStep(st, e[0]), e[1]);
      assert s2 == st;
      var h := e[1..][1..];
      assert h == [e[2], e[3], e[4], e[5]];
      ScanPlain(st, h);
    }
  }

  /** Characters that mean nothing to the scanner inside a string. */
  lemma {:induction false} ScanPlain(st: Scan, s: string)
    requires !st.escaped
    requires forall i | 0 <= i < |s| :: s[i] != '\\' && s[i] != '"' && s[i] != '{' && s[i] != '}'
    ensures ScanFrom(st, s) == st
  {
    if s != [] {
      ScanPlain(st, s[1..]);
    }
  }

  /** A printed string is balanced, whatever the string holds. */
  lemma DumpBalanced(s: string)
    ensures Balanced(Dump(s))
  {
    var open := Scan(0, true, false);
    ScanConcat(START, "\"" + EscapeInner(s), "\"");
    ScanConcat(START, "\"", EscapeInner(s));
    assert ScanFrom(START, "\"") == open by { assert "\""[1..] == []; }
    ScanEscaped(0, s);
    assert ScanFrom(open, "\"") == START by { assert "\""[1..] == []; }
  }

  /** Counts the braces left open outside strings. */
  method BraceDepth(s: string) returns (depth: int)
    ensures depth == ScanFrom(START, s).depth
  {
    depth := 0;
    var inString, escaped := false, false;
    for i := 0 to |s|
      invariant ScanFrom(START, s) == ScanFrom(Scan(depth, inString, escaped), s[i..])
    {
      var c := s[i];
      assert s[i..][1..] == s[i + 1..];
      if escaped {
        escaped := false;
        continue;
      }
      if c == '\\' && inString {
        escaped := true;
        continue;
      }
      if c == '"' {
        inString := !inString;
        continue;
      }
      if !inString {
        if c == '{' {
          depth := depth + 1;
        } else if c == '}' {
          depth := depth - 1;
        }
      }
    }
  }
}
