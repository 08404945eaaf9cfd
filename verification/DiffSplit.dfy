/** The marker-aligned diff of two texts: segments, the two-ended alignment, and the split. */
module DiffSplit {

  datatype SegmentType = TEXT | MARKER

  datatype Segment = Segment(kind: SegmentType, value: string)

  datatype Split = Split(prefix: string, suffix: string, left: string, right: string)

  /** The text of consecutive segments. */
  function Glue(segs: seq<Segment>): string {
    if segs == [] then "" else segs[0].value + Glue(segs[1..])
  }

  lemma {:induction false} GlueConcat(a: seq<Segment>, b: seq<Segment>)
    ensures Glue(a + b) == Glue(a) + Glue(b)
  {
    if a == [] {
      assert a + b == b;
    } else {
      GlueConcat(a[1..], b);
      assert (a + b)[0] == a[0];
      assert (a + b)[1..] == a[1..] + b;
      Regrouped(a[0].value, Glue(a[1..]), Glue(b));
    }
  }

  lemma Regrouped(x: string, y: string, z: string)
    ensures x + (y + z) == (x + y) + z
  {
  }

  lemma GlueSnoc(segs: seq<Segment>, seg: Segment)
    ensures Glue(segs + [seg]) == Glue(segs) + seg.value
  {
    GlueConcat(segs, [seg]);
    assert [seg][1..] == [] && Glue([seg]) == seg.value + "" == seg.value;
  }

  // ---------------------------------------------------------------- segments

  predicate IsOpener(c: char) {
    c == '<' || c == '['
  }

  predicate IsCloser(opener: char, c: char) {
    (opener == '<' && c == '>') || (opener == '[' && c == ']')
  }

  /** Where the first opening character stands, or the length. */
  function OpenerAt(s: string): (n: nat)
    ensures n <= |s| && (n < |s| ==> IsOpener(s[n]))
    ensures forall i | 0 <= i < n :: !IsOpener(s[i])
  {
    if s == "" || IsOpener(s[0]) then 0 else 1 + OpenerAt(s[1..])
  }

  /** Where the first matching closing character stands, or the length. */
  function CloserAt(opener: char, s: string): (n: nat)
    ensures n <= |s| && (n < |s| ==> IsCloser(opener, s[n]))
    ensures forall i | 0 <= i < n :: !IsCloser(opener, s[i])
  {
    if s == "" || IsCloser(opener, s[0]) then 0 else 1 + CloserAt(opener, s[1..])
  }

  /** The first segment: text up to an opening character, a marker up to its close, or an unclosed rest. */
  function First(text: string): (seg: Segment)
    requires text != ""
    ensures seg.value != "" && seg.value <= text
  {
    if !IsOpener(text[0]) then Segment(TEXT, text[..OpenerAt(text)])
    else
      var n := CloserAt(text[0], text);
      if n == |text| then Segment(TEXT, text) else Segment(MARKER, text[..n + 1])
  }

  function Segments(text: string): seq<Segment>
    decreases |text|
  {
    if text == "" then [] else [First(text)] + Segments(text[|First(text).value|..])
  }

  /** The segments put together give the text back, and none is empty. */
  lemma {:induction false} SegmentsGlue(text: string)
    ensures Glue(Segments(text)) == text
    ensures forall i | 0 <= i < |Segments(text)| :: Segments(text)[i].value != ""
    decreases |text|
  {
    hide First;
    if text != "" {
      var seg := First(text);
      var n := |seg.value|;
      var rest := Segments(text[n..]);
      SegmentsGlue(text[n..]);
      GlueOne(seg, rest);
      assert text == text[..n] + text[n..] && seg.value == text[..n];
      hide Segments;
      forall i | 0 <= i < |[seg] + rest| ensures ([seg] + rest)[i].value != "" {
        if i > 0 { assert ([seg] + rest)[i] == rest[i - 1]; }
      }
    }
  }

  lemma GlueOne(seg: Segment, rest: seq<Segment>)
    ensures Glue([seg] + rest) == seg.value + Glue(rest)
  {
    assert ([seg] + rest)[1..] == rest;
  }

  lemma FirstOpener(s: string, n: nat)
    requires n < |s| && IsOpener(s[n]) && forall i | 0 <= i < n :: !IsOpener(s[i])
    ensures OpenerAt(s) == n
  {
  }

  lemma FirstCloser(opener: char, s: string, n: nat)
    requires n < |s| && IsCloser(opener, s[n]) && forall i | 0 <= i < n :: !IsCloser(opener, s[i])
    ensures CloserAt(opener, s) == n
  {
  }

  lemma Found(segs: seq<Segment>, seg: Segment, rest: seq<Segment>)
    ensures segs + ([seg] + rest) == (segs + [seg]) + rest
  {
  }

  method SegmentizeMarkers(text: string) returns (segs: seq<Segment>)
    ensures segs == Segments(text)
  {
    hide Segments, IsOpener, IsCloser;
    segs := [];
    var inMarker, opener, lastBorder := false, '\0', 0;
    assert text[0..] == text;
    for pos := 0 to |text|
      invariant 0 <= lastBorder <= pos
      invariant segs + Segments(text[lastBorder..]) == Segments(text)
      invariant inMarker ==> lastBorder < pos && opener == text[lastBorder] && IsOpener(opener)
      invariant inMarker ==> forall i | lastBorder <= i < pos :: !IsCloser(opener, text[i])
      invariant !inMarker ==> forall i | lastBorder <= i < pos :: !IsOpener(text[i])
    {
      var rest := text[lastBorder..];
      if !inMarker && IsOpener(text[pos]) {
        if lastBorder < pos {
          var seg := Segment(TEXT, text[lastBorder..pos]);
          TextThenMarker(rest, pos - lastBorder);
          assert rest[..pos - lastBorder] == seg.value && rest[pos - lastBorder..] == text[pos..];
          Found(segs, seg, Segments(text[pos..]));
          segs := segs + [seg];
        }
        lastBorder := pos;
        inMarker := true;
        opener := text[pos];
        OpenerIsNoCloser(opener);
      } else if inMarker && IsCloser(opener, text[pos]) {
        var seg := Segment(MARKER, text[lastBorder..pos + 1]);
        MarkerThenRest(rest, pos - lastBorder);
        assert rest[..pos + 1 - lastBorder] == seg.value && rest[pos + 1 - lastBorder..] == text[pos + 1..];
        Found(segs, seg, Segments(text[pos + 1..]));
        segs := segs + [seg];
        lastBorder := pos + 1;
        inMarker := false;
        opener := '\0';
      }
    }
    if lastBorder < |text| {
      OnlyText(text[lastBorder..]);
      segs := segs + [Segment(TEXT, text[lastBorder..])];
    } else {
      NoText();
    }
  }

  lemma TextThenMarker(s: string, n: nat)
    requires 0 < n < |s| && IsOpener(s[n]) && forall i | 0 <= i < n :: !IsOpener(s[i])
    ensures Segments(s) == [Segment(TEXT, s[..n])] + Segments(s[n..])
  {
    FirstOpener(s, n);
    assert First(s) == Segment(TEXT, s[..n]);
    hide First, Segments;
    SegmentsStart(s);
  }

  lemma FirstMarker(s: string, n: nat)
    requires n < |s| && IsOpener(s[0]) && IsCloser(s[0], s[n]) && forall i | 0 <= i < n :: !IsCloser(s[0], s[i])
    ensures First(s) == Segment(MARKER, s[..n + 1])
  {
    FirstCloser(s[0], s, n);
    hide CloserAt, OpenerAt, IsOpener, IsCloser;
  }

  lemma MarkerThenRest(s: string, n: nat)
    requires n < |s| && IsOpener(s[0]) && IsCloser(s[0], s[n]) && forall i | 0 <= i < n :: !IsCloser(s[0], s[i])
    ensures Segments(s) == [Segment(MARKER, s[..n + 1])] + Segments(s[n + 1..])
  {
    hide *;
    FirstMarker(s, n);
    SegmentsStart(s);
    var seg := Segment(MARKER, s[..n + 1]);
    assert First(s) == seg && |seg.value| == n + 1;
  }

  lemma SegmentsStart(s: string)
    requires s != ""
    ensures Segments(s) == [First(s)] + Segments(s[|First(s).value|..])
  {
    hide First;
  }

  lemma OnlyText(s: string)
    requires s != ""
    requires (forall i | 0 <= i < |s| :: !IsOpener(s[i])) || (IsOpener(s[0]) && forall i | 0 <= i < |s| :: !IsCloser(s[0], s[i]))
    ensures Segments(s) == [Segment(TEXT, s)]
  {
    assert s[..|s|] == s && s[|s|..] == "";
    assert First(s) == Segment(TEXT, s);
  }

  lemma NoText()
    ensures Segments("") == []
  {
  }

  lemma OpenerIsNoCloser(c: char)
    requires IsOpener(c)
    ensures !IsCloser(c, c)
  {
  }

  // ---------------------------------------------------------------- alignment

  /**
   The iterators: the first and the last segment that are left of each side. A side is done once its
   last segment has gone into the suffix; its iterators then still stand on that segment.
   */
  datatype Ends = Ends(ls: nat, le: nat, rs: nat, re: nat, lDone: bool, rDone: bool)

  predicate InRange(e: Ends, l: seq<Segment>, r: seq<Segment>) {
    e.ls <= e.le < |l| && e.rs <= e.re < |r| && (e.lDone ==> e.ls == e.le) && (e.rDone ==> e.rs == e.re)
  }

  function LeftStop(e: Ends): nat {
    if e.lDone then e.le else e.le + 1
  }

  function RightStop(e: Ends): nat {
    if e.rDone then e.re else e.re + 1
  }

  /** The segments that are left of each side. */
  function LeftRest(e: Ends, l: seq<Segment>): seq<Segment>
    requires e.ls <= LeftStop(e) <= |l|
  {
    l[e.ls..LeftStop(e)]
  }

  function RightRest(e: Ends, r: seq<Segment>): seq<Segment>
    requires e.rs <= RightStop(e) <= |r|
  {
    r[e.rs..RightStop(e)]
  }

  function TakeFront(e: Ends, l: seq<Segment>, r: seq<Segment>): (e': Ends)
    requires InRange(e, l, r) && e.ls < e.le && e.rs < e.re
    ensures InRange(e', l, r)
  {
    if l[e.ls] == r[e.rs] then e.(ls := e.ls + 1, rs := e.rs + 1) else e
  }

  function TakeBack(e: Ends, l: seq<Segment>, r: seq<Segment>): (e': Ends)
    requires InRange(e, l, r) && !e.lDone && !e.rDone
    ensures InRange(e', l, r)
  {
    if l[e.le] != r[e.re] then e
    else e.(le := if e.ls != e.le then e.le - 1 else e.le, lDone := e.ls == e.le,
            re := if e.rs != e.re then e.re - 1 else e.re, rDone := e.rs == e.re)
  }

  /** Where the alignment of both ends stops. */
  function Align(e: Ends, l: seq<Segment>, r: seq<Segment>): (e': Ends)
    requires InRange(e, l, r) && (e.ls != e.le && e.rs != e.re ==> !e.lDone && !e.rDone)
    ensures InRange(e', l, r)
    decreases e.le - e.ls + e.re - e.rs
  {
    if e.ls == e.le || e.rs == e.re then e
    else
      var e' := TakeBack(TakeFront(e, l, r), l, r);
      if e' == e then e else Align(e', l, r)
  }

  function Aligned(l: seq<Segment>, r: seq<Segment>): (e: Ends)
    requires l != [] && r != []
    ensures InRange(e, l, r)
  {
    Align(Ends(0, |l| - 1, 0, |r| - 1, false, false), l, r)
  }

  /**
   After the loop the segments under the iterators are compared once more. When one side is done
   and the other is not, that comparison uses a segment of the done side for a second time.
   */
  predicate MatchesTwice(e: Ends, l: seq<Segment>, r: seq<Segment>)
    requires InRange(e, l, r)
  {
    && e.lDone != e.rDone
    && if e.lDone then
         if e.rs != e.re then l[e.ls] == r[e.re] || l[e.ls] == r[e.rs] else l[e.ls] == r[e.rs] && l[e.ls].kind == MARKER
       else
         if e.ls != e.le then l[e.le] == r[e.rs] || l[e.ls] == r[e.rs] else l[e.ls] == r[e.rs] && l[e.ls].kind == MARKER
  }

  /** What the loop has gathered so far. */
  predicate Gathered(e: Ends, l: seq<Segment>, r: seq<Segment>, prefix: string, suffix: string)
    requires InRange(e, l, r)
  {
    && prefix == Glue(l[..e.ls]) == Glue(r[..e.rs])
    && suffix == Glue(l[LeftStop(e)..]) == Glue(r[RightStop(e)..])
  }

  lemma FrontGathered(e: Ends, l: seq<Segment>, r: seq<Segment>, prefix: string, suffix: string)
    requires InRange(e, l, r) && e.ls < e.le && e.rs < e.re && Gathered(e, l, r, prefix, suffix) && l[e.ls] == r[e.rs]
    ensures Gathered(TakeFront(e, l, r), l, r, prefix + l[e.ls].value, suffix)
  {
    assert l[..e.ls + 1] == l[..e.ls] + [l[e.ls]] && r[..e.rs + 1] == r[..e.rs] + [r[e.rs]];
    GlueSnoc(l[..e.ls], l[e.ls]);
    GlueSnoc(r[..e.rs], r[e.rs]);
  }

  lemma GlueCons(segs: seq<Segment>, i: nat)
    requires i < |segs|
    ensures Glue(segs[i..]) == segs[i].value + Glue(segs[i + 1..])
  {
    assert segs[i..][1..] == segs[i + 1..];
  }

  lemma BackGathered(e: Ends, l: seq<Segment>, r: seq<Segment>, prefix: string, suffix: string)
    requires InRange(e, l, r) && !e.lDone && !e.rDone && Gathered(e, l, r, prefix, suffix) && l[e.le] == r[e.re]
    ensures Gathered(TakeBack(e, l, r), l, r, prefix, l[e.le].value + suffix)
  {
    hide Glue;
    GlueCons(l, e.le);
    GlueCons(r, e.re);
  }

  /** The loop. */
  method AlignEnds(l: seq<Segment>, r: seq<Segment>) returns (prefix: string, suffix: string, e: Ends)
    requires l != [] && r != []
    ensures e == Aligned(l, r)
    ensures Gathered(e, l, r, prefix, suffix)
  {
    hide Glue, Align, Aligned, Gathered;
    prefix, suffix := "", "";
    AlignedIs(l, r);
    var ls: nat, le: nat, rs: nat, re: nat := 0, |l| - 1, 0, |r| - 1;
    var lDone, rDone := false, false;
    NothingGathered(l, r);
    while ls != le && rs != re
      invariant InRange(Ends(ls, le, rs, re, lDone, rDone), l, r)
      invariant ls != le && rs != re ==> !lDone && !rDone
      invariant Gathered(Ends(ls, le, rs, re, lDone, rDone), l, r, prefix, suffix)
      invariant Align(Ends(ls, le, rs, re, lDone, rDone), l, r) == Aligned(l, r)
      decreases le - ls + re - rs
    {
      ghost var before := Ends(ls, le, rs, re, lDone, rDone);
      AlignStep(before, l, r);
      var advanced := false;
      if l[ls] == r[rs] {
        FrontGathered(before, l, r, prefix, suffix);
        prefix := prefix + l[ls].value;
        ls, rs, advanced := ls + 1, rs + 1, true;
      }
      ghost var middle := Ends(ls, le, rs, re, lDone, rDone);
      assert middle == TakeFront(before, l, r);
      if l[le] == r[re] {
        BackGathered(middle, l, r, prefix, suffix);
        suffix := l[le].value + suffix;
        if ls != le { le := le - 1; } else { lDone := true; }
        if rs != re { re := re - 1; } else { rDone := true; }
        advanced := true;
      }
      assert Ends(ls, le, rs, re, lDone, rDone) == TakeBack(middle, l, r);
      if !advanced {
        break;
      }
    }
    e := Ends(ls, le, rs, re, lDone, rDone);
    AlignStops(e, l, r);
  }

  lemma AlignedIs(l: seq<Segment>, r: seq<Segment>)
    requires l != [] && r != []
    ensures Aligned(l, r) == Align(Ends(0, |l| - 1, 0, |r| - 1, false, false), l, r)
  {
    hide Align;
  }

  lemma AlignStep(e: Ends, l: seq<Segment>, r: seq<Segment>)
    requires InRange(e, l, r) && e.ls != e.le && e.rs != e.re && !e.lDone && !e.rDone
    ensures var next := TakeBack(TakeFront(e, l, r), l, r);
      Align(e, l, r) == if next == e then e else Align(next, l, r)
  {
  }

  lemma AlignStops(e: Ends, l: seq<Segment>, r: seq<Segment>)
    requires InRange(e, l, r) && (e.ls != e.le && e.rs != e.re ==> !e.lDone && !e.rDone)
    requires e.ls == e.le || e.rs == e.re || TakeBack(TakeFront(e, l, r), l, r) == e
    ensures Align(e, l, r) == e
  {
  }

  lemma NothingGathered(l: seq<Segment>, r: seq<Segment>)
    requires l != [] && r != []
    ensures Gathered(Ends(0, |l| - 1, 0, |r| - 1, false, false), l, r, "", "")
  {
  }

  // ---------------------------------------------------------------- the comparison after the loop

  /** The text gathered at both ends, with the segments that are left in between, is the whole text. */
  predicate Kept(prefix: string, rest: seq<Segment>, suffix: string, text: string) {
    prefix + (Glue(rest) + suffix) == text
  }

  lemma FrontKept(prefix: string, rest: seq<Segment>, suffix: string, text: string)
    requires rest != [] && Kept(prefix, rest, suffix, text)
    ensures Kept(prefix + rest[0].value, rest[1..], suffix, text)
  {
    var v, g := rest[0].value, Glue(rest[1..]);
    assert prefix + ((v + g) + suffix) == (prefix + v) + (g + suffix);
  }

  lemma BackKept(prefix: string, rest: seq<Segment>, suffix: string, text: string)
    requires rest != [] && Kept(prefix, rest, suffix, text)
    ensures Kept(prefix, rest[..|rest| - 1], rest[|rest| - 1].value + suffix, text)
  {
    var front, last := rest[..|rest| - 1], rest[|rest| - 1];
    assert rest == front + [last];
    GlueSnoc(front, last);
    assert (Glue(front) + last.value) + suffix == Glue(front) + (last.value + suffix);
  }

  lemma GatheredKept(e: Ends, l: seq<Segment>, r: seq<Segment>, prefix: string, suffix: string)
    requires InRange(e, l, r) && Gathered(e, l, r, prefix, suffix)
    ensures Kept(prefix, LeftRest(e, l), suffix, Glue(l)) && Kept(prefix, RightRest(e, r), suffix, Glue(r))
  {
    Parts(l, e.ls, LeftStop(e));
    Parts(r, e.rs, RightStop(e));
  }

  lemma Parts(segs: seq<Segment>, i: nat, j: nat)
    requires i <= j <= |segs|
    ensures Glue(segs) == Glue(segs[..i]) + (Glue(segs[i..j]) + Glue(segs[j..]))
  {
    hide Glue;
    CutInThree(segs, i, j);
    GlueConcat(segs[..i], segs[i..j] + segs[j..]);
    GlueConcat(segs[i..j], segs[j..]);
  }

  lemma CutInThree(segs: seq<Segment>, i: nat, j: nat)
    requires i <= j <= |segs|
    ensures segs == segs[..i] + (segs[i..j] + segs[j..])
  {
  }

  predicate NoneEmpty(segs: seq<Segment>) {
    forall i | 0 <= i < |segs| :: segs[i].value != ""
  }

  lemma GlueNonEmpty(segs: seq<Segment>)
    requires NoneEmpty(segs)
    ensures Glue(segs) == "" <==> segs == []
  {
  }

  /**
   What one more comparison does to the iterators and to the gathered text: nothing is lost unless a
   segment is matched twice; then one side comes out too long, and the other as it should.
   */
  predicate LastMatched(
    l: seq<Segment>, r: seq<Segment>, e: Ends, prefix: string, suffix: string, e': Ends)
    requires InRange(e, l, r) && InRange(e', l, r)
  {
    && ((!e.lDone && !e.rDone) || (e.lDone != e.rDone && !MatchesTwice(e, l, r)) ==>
      Kept(prefix, LeftRest(e', l), suffix, Glue(l)) && Kept(prefix, RightRest(e', r), suffix, Glue(r)))
    && (e.lDone && e.rDone ==> LeftRest(e', l) == [] && RightRest(e', r) == [])
    && (MatchesTwice(e, l, r) && e.lDone ==>
      && LeftRest(e', l) == [] && |prefix| + |suffix| > |Glue(l)|
      && Kept(prefix, RightRest(e', r), suffix, Glue(r)) && (RightRest(e', r) == [] <==> e.rs == e.re))
    && (MatchesTwice(e, l, r) && e.rDone ==>
      && RightRest(e', r) == [] && |prefix| + |suffix| > |Glue(r)|
      && Kept(prefix, LeftRest(e', l), suffix, Glue(l)) && (LeftRest(e', l) == [] <==> e.ls == e.le))
  }

  lemma LeftAgainstBack(l: seq<Segment>, r: seq<Segment>, e: Ends, prefix: string, suffix: string)
    requires InRange(e, l, r) && NoneEmpty(l) && Gathered(e, l, r, prefix, suffix)
    requires e.ls == e.le && e.rs != e.re && l[e.ls] == r[e.re]
    ensures LastMatched(l, r, e, prefix, r[e.re].value + suffix, e.(re := e.re - 1, lDone := true))
  {
    hide Glue, Gathered, Kept, NoneEmpty;
    GatheredKept(e, l, r, prefix, suffix);
    BackKept(prefix, RightRest(e, r), suffix, Glue(r));
    Shrink(r, e.rs, e.re + 1);
    if e.lDone {
      DoneLength(prefix, LeftRest(e, l), suffix, Glue(l));
      SegmentText(l, e.le);
    } else {
      BackKept(prefix, LeftRest(e, l), suffix, Glue(l));
      Shrink(l, e.ls, e.le + 1);
    }
  }

  lemma LeftAgainstFront(l: seq<Segment>, r: seq<Segment>, e: Ends, prefix: string, suffix: string)
    requires InRange(e, l, r) && NoneEmpty(l) && Gathered(e, l, r, prefix, suffix)
    requires e.ls == e.le && e.rs != e.re && l[e.ls] == r[e.rs]
    ensures LastMatched(l, r, e, prefix + r[e.rs].value, suffix, e.(rs := e.rs + 1, lDone := true))
  {
    hide Glue, Gathered, Kept, NoneEmpty;
    GatheredKept(e, l, r, prefix, suffix);
    FrontKept(prefix, RightRest(e, r), suffix, Glue(r));
    Shrink(r, e.rs, e.re + 1);
    if e.lDone {
      DoneLength(prefix, LeftRest(e, l), suffix, Glue(l));
      SegmentText(l, e.le);
    } else {
      FrontKept(prefix, LeftRest(e, l), suffix, Glue(l));
      Shrink(l, e.ls, e.le + 1);
    }
  }

  lemma RightAgainstBack(l: seq<Segment>, r: seq<Segment>, e: Ends, prefix: string, suffix: string)
    requires InRange(e, l, r) && NoneEmpty(r) && Gathered(e, l, r, prefix, suffix)
    requires e.rs == e.re && e.ls != e.le && l[e.le] == r[e.rs]
    ensures LastMatched(l, r, e, prefix, l[e.le].value + suffix, e.(le := e.le - 1, rDone := true))
  {
    hide Glue, Gathered, Kept, NoneEmpty;
    GatheredKept(e, l, r, prefix, suffix);
    BackKept(prefix, LeftRest(e, l), suffix, Glue(l));
    Shrink(l, e.ls, e.le + 1);
    if e.rDone {
      DoneLength(prefix, RightRest(e, r), suffix, Glue(r));
      SegmentText(r, e.re);
    } else {
      BackKept(prefix, RightRest(e, r), suffix, Glue(r));
      Shrink(r, e.rs, e.re + 1);
    }
  }

  lemma RightAgainstFront(l: seq<Segment>, r: seq<Segment>, e: Ends, prefix: string, suffix: string)
    requires InRange(e, l, r) && NoneEmpty(r) && Gathered(e, l, r, prefix, suffix)
    requires e.rs == e.re && e.ls != e.le && l[e.ls] == r[e.rs]
    ensures LastMatched(l, r, e, prefix + l[e.ls].value, suffix, e.(ls := e.ls + 1, rDone := true))
  {
    hide Glue, Gathered, Kept, NoneEmpty;
    GatheredKept(e, l, r, prefix, suffix);
    FrontKept(prefix, LeftRest(e, l), suffix, Glue(l));
    Shrink(l, e.ls, e.le + 1);
    if e.rDone {
      DoneLength(prefix, RightRest(e, r), suffix, Glue(r));
      SegmentText(r, e.re);
    } else {
      FrontKept(prefix, RightRest(e, r), suffix, Glue(r));
      Shrink(r, e.rs, e.re + 1);
    }
  }

  lemma BothAtOne(l: seq<Segment>, r: seq<Segment>, e: Ends, prefix: string, suffix: string)
    requires InRange(e, l, r) && NoneEmpty(l) && NoneEmpty(r) && Gathered(e, l, r, prefix, suffix)
    requires e.ls == e.le && e.rs == e.re && l[e.ls] == r[e.rs] && l[e.ls].kind == MARKER
    ensures LastMatched(l, r, e, prefix + r[e.rs].value, suffix, e.(lDone := true, rDone := true))
  {
    hide Glue, Gathered, Kept, NoneEmpty;
    GatheredKept(e, l, r, prefix, suffix);
    SegmentText(l, e.le);
    Shrink(l, e.ls, e.le + 1);
    Shrink(r, e.rs, e.re + 1);
    if e.lDone {
      DoneLength(prefix, LeftRest(e, l), suffix, Glue(l));
    } else {
      FrontKept(prefix, LeftRest(e, l), suffix, Glue(l));
    }
    if e.rDone {
      DoneLength(prefix, RightRest(e, r), suffix, Glue(r));
    } else {
      FrontKept(prefix, RightRest(e, r), suffix, Glue(r));
    }
  }

  lemma NothingMatched(l: seq<Segment>, r: seq<Segment>, e: Ends, prefix: string, suffix: string)
    requires InRange(e, l, r) && Gathered(e, l, r, prefix, suffix) && !MatchesTwice(e, l, r)
    ensures LastMatched(l, r, e, prefix, suffix, e)
  {
    hide Glue, Gathered, Kept;
    GatheredKept(e, l, r, prefix, suffix);
  }

  /** The comparison after the loop: with one segment left of a side, it may still go to the other side's end. */
  function LastMatch(l: seq<Segment>, r: seq<Segment>, e: Ends, prefix: string, suffix: string): (m: (string, string, Ends))
    requires InRange(e, l, r)
    ensures InRange(m.2, l, r)
  {
    if e.ls == e.le && e.rs != e.re then
      if l[e.ls] == r[e.re] then (prefix, r[e.re].value + suffix, e.(re := e.re - 1, lDone := true))
      else if l[e.ls] == r[e.rs] then (prefix + r[e.rs].value, suffix, e.(rs := e.rs + 1, lDone := true))
      else (prefix, suffix, e)
    else if e.rs == e.re && e.ls != e.le then
      if l[e.le] == r[e.rs] then (prefix, l[e.le].value + suffix, e.(le := e.le - 1, rDone := true))
      else if l[e.ls] == r[e.rs] then (prefix + l[e.ls].value, suffix, e.(ls := e.ls + 1, rDone := true))
      else (prefix, suffix, e)
    else if e.ls == e.le && e.rs == e.re && l[e.ls] == r[e.rs] && l[e.ls].kind == MARKER then
      (prefix + r[e.rs].value, suffix, e.(lDone := true, rDone := true))
    else (prefix, suffix, e)
  }

  method MatchLast(l: seq<Segment>, r: seq<Segment>, e: Ends, prefix: string, suffix: string)
    returns (prefix': string, suffix': string, e': Ends)
    requires InRange(e, l, r)
    ensures (prefix', suffix', e') == LastMatch(l, r, e, prefix, suffix)
  {
    prefix', suffix' := prefix, suffix;
    var Ends(ls, le, rs, re, lDone, rDone) := e;
    if ls == le && rs != re {
      if l[ls] == r[re] {
        suffix' := r[re].value + suffix;
        re := re - 1;
        lDone := true;
      } else if l[ls] == r[rs] {
        prefix' := prefix + r[rs].value;
        rs := rs + 1;
        lDone := true;
      }
    } else if rs == re && ls != le {
      if l[le] == r[rs] {
        suffix' := l[le].value + suffix;
        le := le - 1;
        rDone := true;
      } else if l[ls] == r[rs] {
        prefix' := prefix + l[ls].value;
        ls := ls + 1;
        rDone := true;
      }
    } else if ls == le && rs == re && l[ls] == r[rs] && l[ls].kind == MARKER {
      prefix' := prefix + r[rs].value;
      lDone, rDone := true, true;
    }
    e' := Ends(ls, le, rs, re, lDone, rDone);
  }

  lemma LastMatchKeeps(l: seq<Segment>, r: seq<Segment>, e: Ends, prefix: string, suffix: string)
    requires InRange(e, l, r) && NoneEmpty(l) && NoneEmpty(r) && Gathered(e, l, r, prefix, suffix)
    ensures var m := LastMatch(l, r, e, prefix, suffix);
      LastMatched(l, r, e, m.0, m.1, m.2)
  {
    hide Gathered, NoneEmpty, LastMatched;
    if e.ls == e.le && e.rs != e.re {
      if l[e.ls] == r[e.re] {
        LeftAgainstBack(l, r, e, prefix, suffix);
      } else if l[e.ls] == r[e.rs] {
        LeftAgainstFront(l, r, e, prefix, suffix);
      } else {
        NothingMatched(l, r, e, prefix, suffix);
      }
    } else if e.rs == e.re && e.ls != e.le {
      if l[e.le] == r[e.rs] {
        RightAgainstBack(l, r, e, prefix, suffix);
      } else if l[e.ls] == r[e.rs] {
        RightAgainstFront(l, r, e, prefix, suffix);
      } else {
        NothingMatched(l, r, e, prefix, suffix);
      }
    } else if e.ls == e.le && e.rs == e.re && l[e.ls] == r[e.rs] && l[e.ls].kind == MARKER {
      BothAtOne(l, r, e, prefix, suffix);
    } else {
      NothingMatched(l, r, e, prefix, suffix);
    }
  }

  lemma DoneLength(prefix: string, rest: seq<Segment>, suffix: string, text: string)
    requires Kept(prefix, rest, suffix, text) && rest == []
    ensures |prefix| + |suffix| == |text|
  {
  }

  lemma SegmentText(segs: seq<Segment>, i: nat)
    requires NoneEmpty(segs) && i < |segs|
    ensures segs[i].value != ""
  {
  }

  lemma Shrink(segs: seq<Segment>, i: nat, j: nat)
    requires i < j <= |segs|
    ensures segs[i..j][1..] == segs[i + 1..j] && segs[i..j][..j - i - 1] == segs[i..j - 1]
  {
  }

  lemma EmptyGlue()
    ensures Glue([]) == ""
  {
  }

  // ---------------------------------------------------------------- trimming the remaining texts

  /** The length of the longest common prefix. */
  function CommonFront(a: string, b: string): (n: nat)
    ensures n <= |a| && n <= |b|
  {
    if a == "" || b == "" || a[0] != b[0] then 0 else 1 + CommonFront(a[1..], b[1..])
  }

  /** The length of the longest common suffix. */
  function CommonBack(a: string, b: string): (n: nat)
    ensures n <= |a| && n <= |b|
  {
    if a == "" || b == "" || a[|a| - 1] != b[|b| - 1] then 0 else 1 + CommonBack(a[..|a| - 1], b[..|b| - 1])
  }

  lemma {:induction false} FrontIs(a: string, b: string, n: nat)
    requires n <= |a| && n <= |b| && a[..n] == b[..n] && (n < |a| && n < |b| ==> a[n] != b[n])
    ensures n == CommonFront(a, b)
    decreases n
  {
    if n > 0 {
      assert a[0] == a[..n][0] == b[0];
      assert a[1..][..n - 1] == a[..n][1..] && b[1..][..n - 1] == b[..n][1..];
      FrontIs(a[1..], b[1..], n - 1);
    }
  }

  lemma {:induction false} BackIs(a: string, b: string, n: nat)
    requires n <= |a| && n <= |b| && a[|a| - n..] == b[|b| - n..]
    requires n < |a| && n < |b| ==> a[|a| - 1 - n] != b[|b| - 1 - n]
    ensures n == CommonBack(a, b)
    decreases n
  {
    if n > 0 {
      assert a[|a| - 1] == a[|a| - n..][n - 1] && b[|b| - 1] == b[|b| - n..][n - 1];
      WithoutLast(a, n);
      WithoutLast(b, n);
      BackIs(a[..|a| - 1], b[..|b| - 1], n - 1);
    }
  }

  lemma WithoutLast(a: string, n: nat)
    requires 0 < n <= |a|
    ensures a[..|a| - 1][|a| - n..] == a[|a| - n..][..n - 1]
  {
  }

  lemma {:induction false} FrontCommon(a: string, b: string)
    ensures var n := CommonFront(a, b); a[..n] == b[..n] && (n < |a| && n < |b| ==> a[n] != b[n])
  {
    if a != "" && b != "" && a[0] == b[0] {
      FrontCommon(a[1..], b[1..]);
      var n := CommonFront(a[1..], b[1..]);
      assert a[..n + 1] == [a[0]] + a[1..][..n] && b[..n + 1] == [b[0]] + b[1..][..n];
    }
  }

  lemma {:induction false} BackCommon(a: string, b: string)
    ensures var n := CommonBack(a, b);
      a[|a| - n..] == b[|b| - n..] && (n < |a| && n < |b| ==> a[|a| - 1 - n] != b[|b| - 1 - n])
    decreases |a|
  {
    if a != "" && b != "" && a[|a| - 1] == b[|b| - 1] {
      BackCommon(a[..|a| - 1], b[..|b| - 1]);
      var n := CommonBack(a[..|a| - 1], b[..|b| - 1]);
      WithLast(a, n);
      WithLast(b, n);
    }
  }

  lemma WithLast(a: string, n: nat)
    requires n < |a|
    ensures a[|a| - 1 - n..] == a[..|a| - 1][|a| - 1 - n..] + [a[|a| - 1]]
  {
  }

  method CommonPrefixLen(left: string, right: string) returns (n: nat)
    ensures n == CommonFront(left, right)
    ensures n <= |left| && n <= |right| && left[..n] == right[..n]
    ensures n < |left| && n < |right| ==> left[n] != right[n]
  {
    n := 0;
    while n < |left| && n < |right| && left[n] == right[n]
      invariant n <= |left| && n <= |right| && left[..n] == right[..n]
    {
      n := n + 1;
    }
    FrontIs(left, right, n);
  }

  method CommonSuffixLen(left: string, right: string) returns (n: nat)
    ensures n == CommonBack(left, right)
    ensures n <= |left| && n <= |right| && left[|left| - n..] == right[|right| - n..]
    ensures n < |left| && n < |right| ==> left[|left| - 1 - n] != right[|right| - 1 - n]
  {
    n := 0;
    while n < |left| && n < |right| && left[|left| - 1 - n] == right[|right| - 1 - n]
      invariant n <= |left| && n <= |right| && left[|left| - n..] == right[|right| - n..]
    {
      n := n + 1;
    }
    BackIs(left, right, n);
  }

  /** Common text of the two remainders goes to the suffix, then to the prefix. */
  function Trimmed(left: string, right: string, prefix: string, suffix: string, textSuffix: bool, textPrefix: bool): Split {
    var s := if textSuffix then CommonBack(left, right) else 0;
    var p := if textPrefix then CommonFront(left[..|left| - s], right[..|right| - s]) else 0;
    Cut(left, right, prefix, suffix, s, p)
  }

  /** The first p characters go to the prefix and the last s to the suffix. */
  function Cut(left: string, right: string, prefix: string, suffix: string, s: nat, p: nat): Split
    requires p + s <= |left| && p + s <= |right|
  {
    Split(prefix + left[..p], left[|left| - s..] + suffix, left[p..|left| - s], right[p..|right| - s])
  }

  /** What is left of two texts after trimming has no first and no last character in common. */
  lemma TrimmedEndsDiffer(left: string, right: string, prefix: string, suffix: string)
    ensures var d := Trimmed(left, right, prefix, suffix, true, true);
      d.left == "" || d.right == "" || (d.left[0] != d.right[0] && d.left[|d.left| - 1] != d.right[|d.right| - 1])
  {
    hide CommonBack, CommonFront;
    var s := CommonBack(left, right);
    BackCommon(left, right);
    FrontCommon(left[..|left| - s], right[..|right| - s]);
  }

  /** A common suffix is no longer than the longest one. */
  lemma {:induction false} BackAtLeast(a: string, b: string, n: nat)
    requires n <= |a| && n <= |b| && a[|a| - n..] == b[|b| - n..]
    ensures n <= CommonBack(a, b)
    decreases n
  {
    if n > 0 {
      assert a[|a| - 1] == a[|a| - n..][n - 1] && b[|b| - 1] == b[|b| - n..][n - 1];
      WithoutLast(a, n);
      WithoutLast(b, n);
      BackAtLeast(a[..|a| - 1], b[..|b| - 1], n - 1);
    }
  }

  /** The suffix goes first: it takes as much as both remainders have in common. */
  lemma SuffixGoesFirst(left: string, right: string, prefix: string, suffix: string, textPrefix: bool, n: nat)
    requires n <= |left| && n <= |right| && left[|left| - n..] == right[|right| - n..]
    ensures |Trimmed(left, right, prefix, suffix, true, textPrefix).suffix| >= n + |suffix|
  {
    hide CommonFront, CommonBack;
    BackAtLeast(left, right, n);
  }

  method TrimRemainders(left: string, right: string, prefix: string, suffix: string, textSuffix: bool, textPrefix: bool)
    returns (d: Split)
    ensures d == Trimmed(left, right, prefix, suffix, textSuffix, textPrefix)
  {
    hide CommonBack, CommonFront, Cut;
    var s, p := 0, 0;
    if textSuffix {
      s := CommonSuffixLen(left, right);
    }
    if textPrefix {
      p := CommonPrefixLen(left[..|left| - s], right[..|right| - s]);
    }
    return Cut(left, right, prefix, suffix, s, p);
  }

  /** Trimming changes nothing about what prefix, side and suffix spell, and nothing at all if a side is empty. */
  lemma TrimmedKeeps(left: string, right: string, prefix: string, suffix: string, textSuffix: bool, textPrefix: bool)
    ensures var d := Trimmed(left, right, prefix, suffix, textSuffix, textPrefix);
      && d.prefix + (d.left + d.suffix) == prefix + (left + suffix)
      && d.prefix + (d.right + d.suffix) == prefix + (right + suffix)
      && (left == "" || right == "" ==> d == Split(prefix, suffix, left, right))
  {
    hide CommonBack, CommonFront, Cut;
    var s := if textSuffix then CommonBack(left, right) else 0;
    BackCommon(left, right);
    SameBack(left, right, CommonBack(left, right), s);
    var p := if textPrefix then CommonFront(left[..|left| - s], right[..|right| - s]) else 0;
    FrontCommon(left[..|left| - s], right[..|right| - s]);
    FrontOfFront(left, |left| - s, p);
    FrontOfFront(right, |right| - s, p);
    CutKeeps(left, right, prefix, suffix, s, p);
  }

  lemma SameBack(left: string, right: string, n: nat, s: nat)
    requires n <= |left| && n <= |right| && left[|left| - n..] == right[|right| - n..] && (s == n || s == 0)
    ensures left[|left| - s..] == right[|right| - s..]
  {
  }

  lemma CutKeeps(left: string, right: string, prefix: string, suffix: string, s: nat, p: nat)
    requires p + s <= |left| && p + s <= |right|
    requires left[..p] == right[..p] && left[|left| - s..] == right[|right| - s..]
    ensures var d := Cut(left, right, prefix, suffix, s, p);
      && d.prefix + (d.left + d.suffix) == prefix + (left + suffix)
      && d.prefix + (d.right + d.suffix) == prefix + (right + suffix)
      && (left == "" || right == "" ==> d == Split(prefix, suffix, left, right))
  {
    var d := Cut(left, right, prefix, suffix, s, p);
    Reassembled(left, p, s, prefix, suffix);
    Reassembled(right, p, s, prefix, suffix);
    assert d.prefix == prefix + right[..p] && d.suffix == right[|right| - s..] + suffix;
    if left == "" || right == "" {
      NothingCut(left, right, prefix, suffix);
    }
  }

  lemma NothingCut(left: string, right: string, prefix: string, suffix: string)
    ensures Cut(left, right, prefix, suffix, 0, 0) == Split(prefix, suffix, left, right)
  {
    assert prefix + left[..0] == prefix && left[|left| - 0..] + suffix == suffix;
    assert left[0..|left| - 0] == left && right[0..|right| - 0] == right;
  }

  lemma FrontOfFront(text: string, n: nat, p: nat)
    requires p <= n <= |text|
    ensures text[..n][..p] == text[..p]
  {
  }

  lemma Reassembled(text: string, p: nat, s: nat, prefix: string, suffix: string)
    requires p + s <= |text|
    ensures (prefix + text[..p]) + (text[p..|text| - s] + (text[|text| - s..] + suffix)) == prefix + (text + suffix)
  {
    assert text == text[..p] + text[p..|text| - s] + text[|text| - s..];
  }

  // ---------------------------------------------------------------- the split

  predicate Rebuilds(d: Split, left: string, right: string) {
    d.prefix + (d.left + d.suffix) == left && d.prefix + (d.right + d.suffix) == right
  }

  /**
   The split loses text when a segment is matched twice, unless left is done with at least two
   segments of right to go and left happens to be a prefix of right: then the split is redone.
   */
  predicate LosesText(left: string, right: string) {
    var l, r := Segments(left), Segments(right);
    && l != [] && r != []
    && var e := Aligned(l, r);
       MatchesTwice(e, l, r) && !(e.lDone && e.rs != e.re && left <= right)
  }

  /** The two final corrections. */
  function Corrected(d: Split, left: string, right: string): Split {
    var d1 := if d.left == "" && d.right == "" then d.(prefix := left, suffix := "") else d;
    if d1.left == "" && d1.right != "" && left <= right
    then d1.(prefix := left, suffix := "", right := right[|left|..])
    else d1
  }

  /** The split: align both ends, compare once more, trim common text, correct. */
  function SplitOf(left: string, right: string): Split {
    var l, r := Segments(left), Segments(right);
    if l == [] then Split("", "", "", right)
    else if r == [] then Split("", "", left, "")
    else
      var e := Aligned(l, r);
      var (prefix, suffix, e') := LastMatch(l, r, e, Glue(l[..e.ls]), Glue(l[LeftStop(e)..]));
      var textSuffix := l[e'.le].kind == TEXT && r[e'.re].kind == TEXT;
      var textPrefix := r[e'.rs].kind == TEXT && l[e'.ls].kind == TEXT;
      Corrected(Trimmed(Glue(LeftRest(e', l)), Glue(RightRest(e', r)), prefix, suffix, textSuffix, textPrefix), left, right)
  }

  method Correct(d: Split, left: string, right: string) returns (d': Split)
    ensures d' == Corrected(d, left, right)
  {
    d' := d;
    if d'.left == "" && d'.right == "" {
      d' := d'.(prefix := left, suffix := "");
    }
    if d'.left == "" && d'.right != "" && |left| <= |right| && right[..|left|] == left {
      d' := d'.(prefix := left, suffix := "", right := right[|left|..]);
    }
  }

  /** Both final corrections keep a split that rebuilds its inputs, and the second may restore one. */
  lemma CorrectedKeeps(d: Split, left: string, right: string)
    ensures var d' := Corrected(d, left, right);
      && (Rebuilds(d, left, right) ==> Rebuilds(d', left, right))
      && (d.left == "" && d.right == "" ==> d' == Split(left, "", "", ""))
      && (d.left == "" && d.right != "" && left <= right ==> Rebuilds(d', left, right))
      && (d.left != "" || (d.right != "" && !(left <= right)) ==> d' == d)
  {
    if d.left == "" && d.right == "" {
      assert d.prefix + ("" + d.suffix) == d.prefix + d.suffix;
      assert left + ("" + "") == left;
    } else if d.left == "" && left <= right {
      assert left + ("" + "") == left && left + (right[|left|..] + "") == right;
    }
  }

  lemma GatheredIs(e: Ends, l: seq<Segment>, r: seq<Segment>, prefix: string, suffix: string)
    requires InRange(e, l, r) && Gathered(e, l, r, prefix, suffix)
    ensures prefix == Glue(l[..e.ls]) && suffix == Glue(l[LeftStop(e)..])
  {
    hide Glue;
  }

  method CalculateDiffSplit(left: string, right: string) returns (d: Split)
    ensures d == SplitOf(left, right)
  {
    hide Glue, Segments, Aligned, Gathered, LastMatch, Trimmed, Corrected;
    var l := SegmentizeMarkers(left);
    var r := SegmentizeMarkers(right);
    if l == [] {
      return Split("", "", "", right);
    }
    if r == [] {
      return Split("", "", left, "");
    }
    var prefix, suffix, e := AlignEnds(l, r);
    GatheredIs(e, l, r, prefix, suffix);
    prefix, suffix, e := MatchLast(l, r, e, prefix, suffix);
    var textSuffix := l[e.le].kind == TEXT && r[e.re].kind == TEXT;
    var textPrefix := r[e.rs].kind == TEXT && l[e.ls].kind == TEXT;
    var remainderLeft := GlueAll(LeftRest(e, l));
    var remainderRight := GlueAll(RightRest(e, r));
    d := TrimRemainders(remainderLeft, remainderRight, prefix, suffix, textSuffix, textPrefix);
    d := Correct(d, left, right);
  }

  /** Alignment gathers the same text at both ends of both sides. */
  lemma {:induction false} AlignGathers(e: Ends, l: seq<Segment>, r: seq<Segment>, prefix: string, suffix: string)
    requires InRange(e, l, r) && !e.lDone && !e.rDone && Gathered(e, l, r, prefix, suffix)
    ensures var e' := Align(e, l, r);
      Gathered(e', l, r, Glue(l[..e'.ls]), Glue(l[LeftStop(e')..]))
    decreases e.le - e.ls + e.re - e.rs
  {
    hide Align, Gathered, TakeFront, TakeBack, Glue;
    if e.ls == e.le || e.rs == e.re {
      AlignStops(e, l, r);
      GatheredIs(e, l, r, prefix, suffix);
    } else {
      AlignStep(e, l, r);
      FrontNotDone(e, l, r);
      var front := TakeFront(e, l, r);
      var p := FrontStep(e, l, r, prefix, suffix);
      BackDone(front, l, r);
      var back := TakeBack(front, l, r);
      var s := BackStep(front, l, r, p, suffix);
      GatheredIs(back, l, r, p, s);
      if back.lDone || back.rDone || back == e {
        AlignStops(back, l, r);
      } else {
        AlignGathers(back, l, r, p, s);
      }
    }
  }

  lemma FrontStep(e: Ends, l: seq<Segment>, r: seq<Segment>, prefix: string, suffix: string) returns (p: string)
    requires InRange(e, l, r) && e.ls < e.le && e.rs < e.re && Gathered(e, l, r, prefix, suffix)
    ensures Gathered(TakeFront(e, l, r), l, r, p, suffix)
  {
    hide Gathered;
    p := prefix;
    if l[e.ls] == r[e.rs] {
      FrontGathered(e, l, r, prefix, suffix);
      p := prefix + l[e.ls].value;
    }
  }

  lemma BackStep(e: Ends, l: seq<Segment>, r: seq<Segment>, prefix: string, suffix: string) returns (s: string)
    requires InRange(e, l, r) && !e.lDone && !e.rDone && Gathered(e, l, r, prefix, suffix)
    ensures Gathered(TakeBack(e, l, r), l, r, prefix, s)
  {
    hide Gathered;
    s := suffix;
    if l[e.le] == r[e.re] {
      BackGathered(e, l, r, prefix, suffix);
      s := l[e.le].value + suffix;
    }
  }

  /** For every two texts: the split rebuilds both unless it loses text. */
  lemma SplitRebuilds(left: string, right: string)
    ensures Rebuilds(SplitOf(left, right), left, right) <==> !LosesText(left, right)
  {
    hide Glue, Segments, Align, Gathered, LastMatch, Trimmed, Corrected, Rebuilds;
    var l, r := Segments(left), Segments(right);
    SegmentsGlue(left);
    SegmentsGlue(right);
    if l == [] || r == [] {
      OneSided(left, right);
    } else {
      NothingGathered(l, r);
      AlignGathers(Ends(0, |l| - 1, 0, |r| - 1, false, false), l, r, "", "");
      var e := Aligned(l, r);
      var p, s := Glue(l[..e.ls]), Glue(l[LeftStop(e)..]);
      LastMatchKeeps(l, r, e, p, s);
      var m := LastMatch(l, r, e, p, s);
      var a, b := Glue(LeftRest(m.2, l)), Glue(RightRest(m.2, r));
      var textSuffix := l[m.2.le].kind == TEXT && r[m.2.re].kind == TEXT;
      var textPrefix := r[m.2.rs].kind == TEXT && l[m.2.ls].kind == TEXT;
      TrimmedKeeps(a, b, m.0, m.1, textSuffix, textPrefix);
      var d := Trimmed(a, b, m.0, m.1, textSuffix, textPrefix);
      CorrectedKeeps(d, left, right);
      AlignedRebuilds(l, r, e, p, s, m.0, m.1, m.2, d, Corrected(d, left, right));
    }
  }

  lemma OneSided(left: string, right: string)
    requires Segments(left) == [] || Segments(right) == []
    ensures Rebuilds(SplitOf(left, right), left, right)
  {
    SegmentsGlue(left);
    SegmentsGlue(right);
    assert "" + (right + "") == right && "" + (left + "") == left && "" + ("" + "") == "";
  }

  /** What the comparison after the loop leaves, trimmed and corrected. */
  lemma AlignedRebuilds(
    l: seq<Segment>, r: seq<Segment>, e: Ends, p: string, s: string,
    prefix: string, suffix: string, e': Ends, d: Split, d': Split)
    requires NoneEmpty(l) && NoneEmpty(r) && InRange(e, l, r) && InRange(e', l, r) && Gathered(e, l, r, p, s)
    requires LastMatched(l, r, e, prefix, suffix, e')
    requires var a, b := Glue(LeftRest(e', l)), Glue(RightRest(e', r));
      && d.prefix + (d.left + d.suffix) == prefix + (a + suffix)
      && d.prefix + (d.right + d.suffix) == prefix + (b + suffix)
      && (a == "" || b == "" ==> d == Split(prefix, suffix, a, b))
    requires var left, right := Glue(l), Glue(r);
      && (Rebuilds(d, left, right) ==> Rebuilds(d', left, right))
      && (d.left == "" && d.right == "" ==> d' == Split(left, "", "", ""))
      && (d.left == "" && d.right != "" && left <= right ==> Rebuilds(d', left, right))
      && (d.left != "" || (d.right != "" && !(left <= right)) ==> d' == d)
    ensures Rebuilds(d', Glue(l), Glue(r))
      <==> !(MatchesTwice(e, l, r) && !(e.lDone && e.rs != e.re && Glue(l) <= Glue(r)))
  {
    hide Glue, Gathered, MatchesTwice, NoneEmpty;
    var left, right := Glue(l), Glue(r);
    RestsEmpty(l, r, e');
    NeverTwice(l, r, e);
    if e.lDone && e.rDone {
      BothDone(e, l, r, p, s);
      assert left + ("" + "") == left;
    } else if MatchesTwice(e, l, r) {
      if e.lDone {
        LeftTwice(l, r, e, p, s, prefix, suffix, e', d, d');
      } else {
        RightTwice(l, r, e, p, s, prefix, suffix, e', d, d');
      }
    }
  }

  lemma NeverTwice(l: seq<Segment>, r: seq<Segment>, e: Ends)
    requires InRange(e, l, r)
    ensures e.lDone == e.rDone ==> !MatchesTwice(e, l, r)
  {
  }

  lemma RestsEmpty(l: seq<Segment>, r: seq<Segment>, e: Ends)
    requires InRange(e, l, r) && NoneEmpty(l) && NoneEmpty(r)
    ensures Glue(LeftRest(e, l)) == "" <==> LeftRest(e, l) == []
    ensures Glue(RightRest(e, r)) == "" <==> RightRest(e, r) == []
  {
    hide Glue;
    GlueNonEmpty(LeftRest(e, l));
    GlueNonEmpty(RightRest(e, r));
    EmptyGlue();
  }

  lemma LeftTwice(
    l: seq<Segment>, r: seq<Segment>, e: Ends, p: string, s: string,
    prefix: string, suffix: string, e': Ends, d: Split, d': Split)
    requires NoneEmpty(r) && InRange(e, l, r) && InRange(e', l, r) && Gathered(e, l, r, p, s)
    requires MatchesTwice(e, l, r) && e.lDone
    requires |prefix| + |suffix| > |Glue(l)| && Kept(prefix, RightRest(e', r), suffix, Glue(r))
    requires RightRest(e', r) == [] <==> e.rs == e.re
    requires Glue(RightRest(e', r)) == "" <==> RightRest(e', r) == []
    requires d == Split(prefix, suffix, "", Glue(RightRest(e', r)))
    requires d.left == "" && d.right == "" ==> d' == Split(Glue(l), "", "", "")
    requires d.left == "" && d.right != "" && Glue(l) <= Glue(r) ==> Rebuilds(d', Glue(l), Glue(r))
    requires d.right != "" && !(Glue(l) <= Glue(r)) ==> d' == d
    ensures Rebuilds(d', Glue(l), Glue(r)) <==> e.rs != e.re && Glue(l) <= Glue(r)
  {
    hide Glue, Gathered, MatchesTwice, NoneEmpty;
    if e.rs == e.re {
      NotBoth(l, r, e);
      LeftShorter(e, l, r, p, s);
      assert Glue(l) + ("" + "") == Glue(l);
    } else {
      Lengths(d, Glue(l));
    }
  }

  lemma RightTwice(
    l: seq<Segment>, r: seq<Segment>, e: Ends, p: string, s: string,
    prefix: string, suffix: string, e': Ends, d: Split, d': Split)
    requires NoneEmpty(l) && InRange(e, l, r) && InRange(e', l, r) && Gathered(e, l, r, p, s)
    requires MatchesTwice(e, l, r) && e.rDone && !e.lDone
    requires |prefix| + |suffix| > |Glue(r)| && (LeftRest(e', l) == [] <==> e.ls == e.le)
    requires Glue(LeftRest(e', l)) == "" <==> LeftRest(e', l) == []
    requires d == Split(prefix, suffix, Glue(LeftRest(e', l)), "")
    requires d.left == "" && d.right == "" ==> d' == Split(Glue(l), "", "", "")
    requires d.left != "" ==> d' == d
    ensures !Rebuilds(d', Glue(l), Glue(r))
  {
    hide Glue, Gathered, MatchesTwice, NoneEmpty;
    if e.ls == e.le {
      RightShorter(e, l, r, p, s);
      assert Glue(l) + ("" + "") == Glue(l);
    }
  }

  lemma NotBoth(l: seq<Segment>, r: seq<Segment>, e: Ends)
    requires InRange(e, l, r) && MatchesTwice(e, l, r) && e.lDone
    ensures !e.rDone
  {
  }

  lemma Lengths(d: Split, left: string)
    requires d.left == "" && |d.prefix| + |d.suffix| > |left|
    ensures d.prefix + (d.left + d.suffix) != left
  {
    assert |d.prefix + (d.left + d.suffix)| == |d.prefix| + |d.suffix|;
  }

  method GlueAll(segs: seq<Segment>) returns (text: string)
    ensures text == Glue(segs)
  {
    text := "";
    assert segs[..0] == [];
    for i := 0 to |segs|
      invariant text == Glue(segs[..i])
    {
      assert segs[..i + 1] == segs[..i] + [segs[i]];
      GlueSnoc(segs[..i], segs[i]);
      text := text + segs[i].value;
    }
    assert segs[..|segs|] == segs;
  }

  lemma BothDone(e: Ends, l: seq<Segment>, r: seq<Segment>, prefix: string, suffix: string)
    requires InRange(e, l, r) && Gathered(e, l, r, prefix, suffix) && e.lDone && e.rDone
    ensures Glue(l) == Glue(r)
  {
    GatheredKept(e, l, r, prefix, suffix);
    assert LeftRest(e, l) == [] && RightRest(e, r) == [];
  }

  lemma LeftShorter(e: Ends, l: seq<Segment>, r: seq<Segment>, prefix: string, suffix: string)
    requires InRange(e, l, r) && Gathered(e, l, r, prefix, suffix) && e.lDone && !e.rDone && NoneEmpty(r)
    ensures |Glue(l)| < |Glue(r)|
  {
    GatheredKept(e, l, r, prefix, suffix);
    GlueNonEmpty(RightRest(e, r));
  }

  lemma RightShorter(e: Ends, l: seq<Segment>, r: seq<Segment>, prefix: string, suffix: string)
    requires InRange(e, l, r) && Gathered(e, l, r, prefix, suffix) && !e.lDone && e.rDone && NoneEmpty(l)
    ensures |Glue(r)| < |Glue(l)|
  {
    GatheredKept(e, l, r, prefix, suffix);
    GlueNonEmpty(LeftRest(e, l));
  }

  // ---------------------------------------------------------------- when nothing is lost

  /** A side that is done went out against the segment just behind the other side's end. */
  lemma {:induction false} DoneAgainst(e: Ends, l: seq<Segment>, r: seq<Segment>)
    requires InRange(e, l, r) && !e.lDone && !e.rDone
    ensures var e' := Align(e, l, r);
            && (e'.lDone && !e'.rDone ==> e'.re + 1 < |r| && l[e'.le] == r[e'.re + 1])
            && (e'.rDone && !e'.lDone ==> e'.le + 1 < |l| && r[e'.re] == l[e'.le + 1])
    decreases e.le - e.ls + e.re - e.rs
  {
    hide Align, TakeFront, TakeBack;
    if e.ls != e.le && e.rs != e.re {
      AlignStep(e, l, r);
      var front := TakeFront(e, l, r);
      FrontNotDone(e, l, r);
      BackDone(front, l, r);
      var e' := TakeBack(front, l, r);
      if e'.lDone || e'.rDone {
        AlignStops(e', l, r);
      } else if e' != e {
        DoneAgainst(e', l, r);
      }
    } else {
      AlignStops(e, l, r);
    }
  }

  lemma FrontNotDone(e: Ends, l: seq<Segment>, r: seq<Segment>)
    requires InRange(e, l, r) && e.ls < e.le && e.rs < e.re && !e.lDone && !e.rDone
    ensures var e' := TakeFront(e, l, r);
      !e'.lDone && !e'.rDone && e'.le - e'.ls + e'.re - e'.rs <= e.le - e.ls + e.re - e.rs
    ensures TakeFront(e, l, r) != e ==>
      TakeFront(e, l, r).le - TakeFront(e, l, r).ls + TakeFront(e, l, r).re - TakeFront(e, l, r).rs
      < e.le - e.ls + e.re - e.rs
  {
  }

  lemma BackDone(e: Ends, l: seq<Segment>, r: seq<Segment>)
    requires InRange(e, l, r) && !e.lDone && !e.rDone
    ensures var e' := TakeBack(e, l, r);
      && (e'.lDone && !e'.rDone ==> e'.re + 1 < |r| && l[e'.le] == r[e'.re + 1])
      && (e'.rDone && !e'.lDone ==> e'.le + 1 < |l| && r[e'.re] == l[e'.le + 1])
      && e'.le - e'.ls + e'.re - e'.rs <= e.le - e.ls + e.re - e.rs
      && (e' != e && !e'.lDone && !e'.rDone ==> e'.le - e'.ls + e'.re - e'.rs < e.le - e.ls + e.re - e.rs)
  {
  }

  predicate Distinct(segs: seq<Segment>) {
    forall i, j | 0 <= i < j < |segs| :: segs[i] != segs[j]
  }

  /** A text in which no segment repeats cannot be matched twice. */
  lemma DistinctSegmentsKept(left: string, right: string)
    requires Distinct(Segments(left)) && Distinct(Segments(right))
    ensures !LosesText(left, right)
  {
    hide Segments, Align;
    var l, r := Segments(left), Segments(right);
    if l != [] && r != [] {
      DoneAgainst(Ends(0, |l| - 1, 0, |r| - 1, false, false), l, r);
    }
  }

  lemma OneMarker(text: string, s: string, rest: string)
    requires text == s + rest && |s| == 3 && s[0] == '<' && s[2] == '>' && s[1] != '>'
    ensures Segments(text) == [Segment(MARKER, s)] + Segments(rest)
  {
    assert text[..3] == s && text[3..] == rest;
    MarkerThenRest(text, 2);
  }

  lemma MarkerRuns()
    ensures Segments("<a><b>") == [Segment(MARKER, "<a>"), Segment(MARKER, "<b>")]
    ensures Segments("<a><b><b>") == [Segment(MARKER, "<a>"), Segment(MARKER, "<b>"), Segment(MARKER, "<b>")]
  {
    hide Segments;
    NoText();
    OneMarker("<b>", "<b>", "");
    OneMarker("<b><b>", "<b>", "<b>");
    OneMarker("<a><b>", "<a>", "<b>");
    OneMarker("<a><b><b>", "<a>", "<b><b>");
  }

  lemma RepeatedEnd(a: Segment, b: Segment, l: seq<Segment>, r: seq<Segment>)
    requires a != b && l == [a, b] && r == [a, b, b]
    ensures Aligned(l, r) == Ends(1, 1, 1, 1, true, false)
  {
    var e := Ends(0, 1, 0, 2, false, false);
    assert TakeBack(TakeFront(e, l, r), l, r) == Ends(1, 1, 1, 1, true, false);
    assert Align(e, l, r) == Align(Ends(1, 1, 1, 1, true, false), l, r) == Ends(1, 1, 1, 1, true, false);
  }

  /** A short way to lose text: the right side only repeats the last marker of the left one. */
  lemma RepeatedMarkerLost()
    ensures LosesText("<a><b>", "<a><b><b>")
    ensures !Rebuilds(SplitOf("<a><b>", "<a><b><b>"), "<a><b>", "<a><b><b>")
  {
    hide Segments, SplitOf, Rebuilds;
    SplitRebuilds("<a><b>", "<a><b><b>");
    MarkerRuns();
    RepeatedEnd(Segment(MARKER, "<a>"), Segment(MARKER, "<b>"), Segments("<a><b>"), Segments("<a><b><b>"));
  }

  // ---------------------------------------------------------------- texts that are the same

  /** Aligning a list of segments with itself keeps both sides in step until they meet. */
  lemma {:induction false} AlignSelf(e: Ends, l: seq<Segment>)
    requires InRange(e, l, l) && !e.lDone && !e.rDone && e.ls == e.rs && e.le == e.re
    ensures var e' := Align(e, l, l); e'.ls == e'.rs == e'.le == e'.re && e'.lDone == e'.rDone
    decreases e.le - e.ls
  {
    hide Align;
    if e.ls == e.le {
      AlignStops(e, l, l);
    } else {
      AlignStep(e, l, l);
      var e' := TakeBack(TakeFront(e, l, l), l, l);
      if e'.lDone {
        AlignStops(e', l, l);
      } else {
        AlignSelf(e', l);
      }
    }
  }

  lemma TrimSame(text: string, prefix: string, suffix: string, both: bool)
    requires both || text == ""
    ensures var d := Trimmed(text, text, prefix, suffix, both, both); d.left == "" && d.right == ""
  {
    if both { BackIs(text, text, |text|); }
    hide CommonFront, CommonBack;
  }

  /** Splitting a text against itself leaves nothing on either side. */
  lemma IdenticalTexts(text: string)
    ensures SplitOf(text, text) == Split(text, "", "", "")
  {
    hide Segments, Align, Trimmed, Glue;
    var l := Segments(text);
    if l == [] {
      NothingToSplit(text);
    } else {
      AlignSelf(Ends(0, |l| - 1, 0, |l| - 1, false, false), l);
      var e := Aligned(l, l);
      var (prefix, suffix, e') := LastMatch(l, l, e, Glue(l[..e.ls]), Glue(l[LeftStop(e)..]));
      EmptyGlue();
      assert e'.lDone ==> LeftRest(e', l) == [];
      TrimSame(Glue(LeftRest(e', l)), prefix, suffix, l[e'.le].kind == TEXT);
    }
  }

  lemma NothingToSplit(text: string)
    requires Segments(text) == []
    ensures text == ""
  {
  }
}
