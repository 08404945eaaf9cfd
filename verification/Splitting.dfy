/** Splitting a text at a delimiter, joining parts, and replacing one text by another. */
module Splitting {
  import opened Wrappers

  predicate StandsAt(d: string, s: string, p: nat) {
    p + |d| <= |s| && s[p..p + |d|] == d
  }

  /** The first place at or after an index. */
  predicate FirstPlace(s: string, d: string, from: nat, p: nat) {
    from <= p && StandsAt(d, s, p) && forall q: nat | from <= q < p :: !StandsAt(d, s, q)
  }

  ghost predicate Contains(s: string, d: string) {
    exists p: nat :: StandsAt(d, s, p)
  }

  /** The search of the standard library, from an index on. */
  function Find(s: string, d: string, from: nat): (r: Option<nat>)
    ensures r.Some? ==> FirstPlace(s, d, from, r.value)
    ensures r.None? ==> forall q: nat | from <= q :: !StandsAt(d, s, q)
    decreases |s| - from
  {
    if |s| < from + |d| then None
    else if StandsAt(d, s, from) then Some(from)
    else Find(s, d, from + 1)
  }

  lemma FindIs(s: string, d: string, from: nat, p: nat)
    requires FirstPlace(s, d, from, p)
    ensures Find(s, d, from) == Some(p)
  {
    var r := Find(s, d, from);
    assert r.Some? && r.value <= p && p <= r.value;
  }

  lemma StandsShifted(s: string, d: string, from: nat, q: nat)
    requires from <= q && from <= |s|
    ensures StandsAt(d, s, q) <==> StandsAt(d, s[from..], q - from)
  {
    if q + |d| <= |s| { assert s[from..][q - from..q - from + |d|] == s[q..q + |d|]; }
  }

  lemma FindShifted(s: string, d: string, from: nat)
    requires from <= |s|
    ensures Find(s, d, from) ==
      match Find(s[from..], d, 0)
      case Some(p) => Some(from + p)
      case None => None
  {
    hide Find, StandsAt;
    var r := Find(s[from..], d, 0);
    var end := if r.Some? then from + r.value else |s| + 1;
    forall q: nat | from <= q && (r.Some? ==> q < end) ensures !StandsAt(d, s, q) {
      StandsShifted(s, d, from, q);
    }
    if r.Some? {
      StandsShifted(s, d, from, end);
      FindIs(s, d, from, end);
    }
  }

  // ---------------------------------------------------------------- split and join

  function Split(s: string, d: string): (r: seq<string>)
    requires d != ""
    ensures r != []
    decreases |s|
  {
    match Find(s, d, 0)
    case None => [s]
    case Some(p) => [s[..p]] + Split(s[p + |d|..], d)
  }

  function Join(parts: seq<string>, sep: string): string {
    if parts == [] then "" else if |parts| == 1 then parts[0] else parts[0] + sep + Join(parts[1..], sep)
  }

  /** Joining the parts of a text with the delimiter gives back the text. */
  lemma {:induction false} JoinSplit(s: string, d: string)
    requires d != ""
    ensures Join(Split(s, d), d) == s
    decreases |s|
  {
    hide Find;
    var r := Find(s, d, 0);
    if r.Some? {
      var p := r.value;
      JoinSplit(s[p + |d|..], d);
      assert Split(s, d)[1..] == Split(s[p + |d|..], d);
      InThree(s, p, |d|);
    }
  }

  lemma InThree(s: string, p: nat, n: nat)
    requires p + n <= |s|
    ensures s == s[..p] + s[p..p + n] + s[p + n..]
  {
  }

  lemma StandsInside(s: string, d: string, p: nat)
    requires StandsAt(d, s, p)
    ensures p + |d| <= |s|
  {
  }

  lemma StandsInFront(s: string, d: string, p: nat, q: nat)
    requires p <= |s|
    ensures StandsAt(d, s[..p], q) <==> q + |d| <= p && StandsAt(d, s, q)
  {
    if q + |d| <= p { assert s[..p][q..q + |d|] == s[q..q + |d|]; }
  }

  /** No part contains the delimiter. */
  lemma {:induction false} PartsAreClean(s: string, d: string, i: nat)
    requires d != "" && i < |Split(s, d)|
    ensures !Contains(Split(s, d)[i], d)
    decreases |s|
  {
    hide Find, StandsAt;
    var r := Find(s, d, 0);
    if r.Some? {
      var p := r.value;
      StandsInside(s, d, p);
      if i == 0 {
        forall q: nat ensures !StandsAt(d, s[..p], q) {
          StandsInFront(s, d, p, q);
        }
      } else {
        PartsAreClean(s[p + |d|..], d, i - 1);
      }
    }
  }

  /** Parts that a delimiter can keep apart: none ends so that the delimiter is found too early, and the last has none. */
  predicate Separable(parts: seq<string>, d: string) {
    && parts != []
    && (forall i | 0 <= i < |parts| - 1 :: Find(parts[i] + d, d, 0) == Some(|parts[i]|))
    && Find(parts[|parts| - 1], d, 0) == None
  }

  /** Splitting a joined text gives the parts back exactly when they are separable. */
  lemma {:induction false} SplitJoin(parts: seq<string>, d: string)
    requires d != "" && parts != []
    ensures Split(Join(parts, d), d) == parts <==> Separable(parts, d)
    decreases |parts|
  {
    hide Find;
    var s := Join(parts, d);
    if |parts| == 1 {
      var r := Find(s, d, 0);
      if r.Some? {
        assert Split(s, d)[0] == s[..r.value] && |s[..r.value]| < |s|;
      }
    } else {
      var first, rest := parts[0], parts[1..];
      assert s == first + d + Join(rest, d);
      FoundEarly(first, d, Join(rest, d));
      SplitJoin(rest, d);
      assert s[|first| + |d|..] == Join(rest, d) && s[..|first|] == first;
      SeparableTail(parts, d);
      if Find(s, d, 0) == Some(|first|) {
        assert Split(s, d) == [first] + Split(Join(rest, d), d);
        assert parts == [first] + rest;
        assert Split(s, d)[1..] == Split(Join(rest, d), d);
      } else {
        assert Split(s, d)[0] != first by {
          var r := Find(s, d, 0);
          if r.Some? { assert |s[..r.value]| == r.value; }
        }
      }
    }
  }

  lemma SeparableTail(parts: seq<string>, d: string)
    requires |parts| > 1
    ensures Separable(parts, d) <==> Find(parts[0] + d, d, 0) == Some(|parts[0]|) && Separable(parts[1..], d)
  {
    hide Find;
    var rest := parts[1..];
    assert forall i | 0 <= i < |rest| :: rest[i] == parts[i + 1];
    if Find(parts[0] + d, d, 0) == Some(|parts[0]|) && Separable(rest, d) {
      forall i | 0 <= i < |parts| - 1 ensures Find(parts[i] + d, d, 0) == Some(|parts[i]|) {
        if i > 0 { assert parts[i] == rest[i - 1]; }
      }
    }
  }

  /** Whether a delimiter is found too early depends only on the part before it. */
  lemma FoundEarly(first: string, d: string, rest: string)
    requires d != ""
    ensures Find(first + d + rest, d, 0) == Some(|first|) <==> Find(first + d, d, 0) == Some(|first|)
  {
    hide Find;
    var s, t := first + d + rest, first + d;
    forall q: nat | q <= |first| ensures StandsAt(d, s, q) <==> StandsAt(d, t, q) {
      assert s[q..q + |d|] == t[q..q + |d|];
    }
    assert t[|first|..|first| + |d|] == d;
    assert StandsAt(d, t, |first|);
    if Find(s, d, 0) == Some(|first|) { FindIs(t, d, 0, |first|); }
    if Find(t, d, 0) == Some(|first|) { FindIs(s, d, 0, |first|); }
  }

  /** Parts without the delimiter can still be lost: "aa" between "a" and "" is found one place too early. */
  lemma CleanIsNotEnough()
    ensures Find("a", "aa", 0) == None && Find("", "aa", 0) == None
    ensures Split(Join(["a", ""], "aa"), "aa") != ["a", ""]
  {
    assert Find("a" + "aa", "aa", 0) == Some(0) by {
      assert "a" + "aa" == "aaa" && "aaa"[0..2] == "aa";
      assert StandsAt("aa", "aaa", 0);
    }
    SplitJoin(["a", ""], "aa");
  }

  // ---------------------------------------------------------------- the loops

  method StringSplit(s: string, d: string) returns (parts: seq<string>)
    requires d != ""
    ensures parts == Split(s, d)
  {
    hide Find;
    parts := [];
    var start := 0;
    var end := Find(s, d, 0);
    assert s[0..] == s;
    while end.Some?
      invariant start <= |s| && end == Find(s, d, start)
      invariant parts + Split(s[start..], d) == Split(s, d)
      decreases |s| - start
    {
      FindShifted(s, d, start);
      ghost var p := end.value - start;
      assert s[start..][..p] == s[start..end.value] && s[start..][p + |d|..] == s[end.value + |d|..];
      assert (parts + [s[start..end.value]]) + Split(s[end.value + |d|..], d) == Split(s, d);
      parts := parts + [s[start..end.value]];
      start := end.value + |d|;
      end := Find(s, d, start);
    }
    FindShifted(s, d, start);
    parts := parts + [s[start..]];
  }

  method StringJoin(values: seq<string>, separator: string) returns (result: string)
    ensures result == Join(values, separator)
  {
    result := "";
    for i := 0 to |values|
      invariant result == Join(values[..i], separator)
    {
      JoinMore(values[..i], values[i], separator);
      assert values[..i + 1] == values[..i] + [values[i]];
      if i > 0 {
        result := result + separator;
      }
      result := result + values[i];
    }
    assert values[..|values|] == values;
  }

  lemma {:induction false} JoinMore(parts: seq<string>, last: string, sep: string)
    ensures Join(parts + [last], sep) == if parts == [] then last else Join(parts, sep) + sep + last
  {
    var all := parts + [last];
    if parts == [] {
      assert all == [last];
    } else {
      assert all[0] == parts[0] && all[1..] == parts[1..] + [last];
      JoinMore(parts[1..], last, sep);
      if |parts| > 1 {
        var a, b, c := parts[0] + sep, Join(parts[1..], sep), sep + last;
        assert a + (b + sep + last) == (a + b) + sep + last;
      }
    }
  }

  /** What becomes of the text from an index on. */
  ghost function Replaced(s: string, search: string, replacement: string, from: nat): string
    requires search != "" && from <= |s|
  {
    Join(Split(s[from..], search), replacement)
  }

  lemma ReplaceStep(s: string, search: string, replacement: string, from: nat, at: nat)
    requires search != "" && from <= |s| && Find(s, search, from) == Some(at)
    ensures from <= at && at + |search| <= |s|
    ensures Replaced(s, search, replacement, from)
      == s[from..at] + replacement + Replaced(s, search, replacement, at + |search|)
  {
    hide Find;
    FindShifted(s, search, from);
    var p := at - from;
    var rest := Split(s[at + |search|..], search);
    assert s[from..][..p] == s[from..at] && s[from..][p + |search|..] == s[at + |search|..];
    assert Split(s[from..], search) == [s[from..at]] + rest;
    assert ([s[from..at]] + rest)[1..] == rest;
  }

  lemma NothingLeft(s: string, search: string, replacement: string, from: nat)
    requires search != "" && from <= |s| && Find(s, search, from) == None
    ensures Replaced(s, search, replacement, from) == s[from..]
  {
    hide Find;
    FindShifted(s, search, from);
  }

  lemma FromTheStart(s: string, search: string, replacement: string)
    requires search != ""
    ensures "" + Replaced(s, search, replacement, 0) == Join(Split(s, search), replacement)
  {
    hide Join, Split;
    assert s[0..] == s;
  }

  lemma Appended(r: string, piece: string, replacement: string, rest: string)
    ensures r + (piece + replacement + rest) == r + piece + replacement + rest
  {
    assert r + ((piece + replacement) + rest) == (r + (piece + replacement)) + rest;
    assert r + (piece + replacement) == (r + piece) + replacement;
  }

  /** Replacing is splitting at the search text and joining with the replacement. */
  method StringReplaceAll(s: string, search: string, replacement: string) returns (r: string)
    ensures r == if search == "" then s else Join(Split(s, search), replacement)
  {
    hide *;
    if search == "" {
      return s;
    }
    FromTheStart(s, search, replacement);
    r := "";
    var lastPos := 0;
    var pos := Find(s, search, 0);
    while pos.Some?
      invariant lastPos <= |s| && pos == Find(s, search, lastPos)
      invariant r + Replaced(s, search, replacement, lastPos) == Join(Split(s, search), replacement)
      decreases |s| - lastPos
    {
      ReplaceStep(s, search, replacement, lastPos, pos.value);
      var piece := s[lastPos..pos.value];
      lastPos := pos.value + |search|;
      Appended(r, piece, replacement, Replaced(s, search, replacement, lastPos));
      r := r + piece + replacement;
      pos := Find(s, search, lastPos);
    }
    NothingLeft(s, search, replacement, lastPos);
    r := r + s[lastPos..];
  }

  /** Replacing by a text changes nothing outside: the pieces between the places stay, in order. */
  lemma ReplaceAndBack(s: string, search: string, replacement: string)
    requires search != "" && replacement != "" && Separable(Split(s, search), replacement)
    ensures var r := Join(Split(s, search), replacement);
      Split(r, replacement) == Split(s, search) && Join(Split(r, replacement), search) == s
  {
    SplitJoin(Split(s, search), replacement);
    JoinSplit(s, search);
  }

  /** An empty delimiter is found where the search starts, so a loop that splits at it would never move on. */
  lemma EmptyDelimiterStalls(s: string, start: nat)
    requires start <= |s|
    ensures Find(s, "", start) == Some(start)
  {
    assert s[start..start] == "";
  }
}
