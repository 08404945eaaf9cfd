/** Where a split cuts the two texts: never inside a marker, but for one exception that is given exactly. */
module DiffMarkers {
  import opened DiffSplit

  // ---------------------------------------------------------------- markers

  /** The first place from `from` on where c stands, or the length. */
  function Find(c: char, text: string, from: nat): (n: nat)
    requires from <= |text|
    ensures from <= n <= |text| && (n < |text| ==> text[n] == c)
    ensures forall i | from <= i < n :: text[i] != c
    decreases |text| - from
  {
    if from == |text| || text[from] == c then from else Find(c, text, from + 1)
  }

  /**
   The markers of a text from a place on, each as its first and its last character: from `<` to the
   first `>` behind it or from `[` to the first `]`. An opening character that is never closed ends the search.
   */
  function Markers(text: string, from: nat): (ms: seq<(nat, nat)>)
    requires from <= |text|
    decreases |text| - from
  {
    if from == |text| then []
    else if text[from] == '<' || text[from] == '[' then
      var n := Find(if text[from] == '<' then '>' else ']', text, from);
      if n == |text| then [] else [(from, n)] + Markers(text, n + 1)
    else Markers(text, from + 1)
  }

  /** A cut in front of the character at a place falls strictly inside a marker. */
  predicate InsideMarker(text: string, cut: nat) {
    exists k | 0 <= k < |Markers(text, 0)| :: Markers(text, 0)[k].0 < cut <= Markers(text, 0)[k].1
  }

  // ---------------------------------------------------------------- markers are the marker segments

  predicate Inside(segs: seq<Segment>, cut: nat) {
    segs != [] &&
    if cut < |segs[0].value| then 0 < cut && segs[0].kind == MARKER
    else Inside(segs[1..], cut - |segs[0].value|)
  }

  predicate InOneOf(ms: seq<(nat, nat)>, cut: nat) {
    exists k | 0 <= k < |ms| :: ms[k].0 < cut <= ms[k].1
  }

  lemma InOneMore(m: (nat, nat), ms: seq<(nat, nat)>, cut: nat)
    ensures InOneOf([m] + ms, cut) <==> m.0 < cut <= m.1 || InOneOf(ms, cut)
  {
    var all := [m] + ms;
    if m.0 < cut <= m.1 { assert all[0] == m; }
    if InOneOf(ms, cut) {
      var k :| 0 <= k < |ms| && ms[k].0 < cut <= ms[k].1;
      assert all[k + 1] == ms[k];
    }
    if InOneOf(all, cut) {
      var k :| 0 <= k < |all| && all[k].0 < cut <= all[k].1;
      if k > 0 { assert ms[k - 1] == all[k]; }
    }
  }

  lemma {:induction false} MarkersBehind(text: string, from: nat, cut: nat)
    requires cut <= from <= |text|
    ensures !InOneOf(Markers(text, from), cut)
    decreases |text| - from
  {
    if from < |text| {
      if text[from] == '<' || text[from] == '[' {
        var n := Find(if text[from] == '<' then '>' else ']', text, from);
        if n < |text| {
          MarkersBehind(text, n + 1, cut);
          InOneMore((from, n), Markers(text, n + 1), cut);
        }
      } else {
        MarkersBehind(text, from + 1, cut);
      }
    }
  }

  lemma {:induction false} SkipText(text: string, from: nat, n: nat)
    requires from <= n <= |text| && forall i | from <= i < n :: text[i] != '<' && text[i] != '['
    ensures Markers(text, from) == Markers(text, n)
    decreases n - from
  {
    if from < n { SkipText(text, from + 1, n); }
  }

  lemma CloserOf(text: string, from: nat)
    requires from < |text| && (text[from] == '<' || text[from] == '[')
    ensures var s, n := text[from..], Find(if text[from] == '<' then '>' else ']', text, from);
      && IsOpener(s[0]) && (forall i | 0 <= i < n - from :: !IsCloser(s[0], s[i]))
      && (n < |text| ==> IsCloser(s[0], s[n - from]))
  {
  }

  /** What the characters from a place on say about a segment that starts there. */
  predicate Starts(text: string, from: nat, n: nat, kind: SegmentType)
    requires from < n <= |text|
  {
    var opens := text[from] == '<' || text[from] == '[';
    && (kind == MARKER ==>
      && opens && text[n - 1] == (if text[from] == '<' then '>' else ']')
      && Markers(text, from) == [(from, n - 1)] + Markers(text, n))
    && (kind == TEXT && opens ==> n == |text| && Markers(text, from) == [])
    && (kind == TEXT && !opens ==>
      && Markers(text, from) == Markers(text, n)
      && (forall i | from <= i < n :: text[i] != '<' && text[i] != '[')
      && (n < |text| ==> text[n] == '<' || text[n] == '['))
  }

  lemma OpenerStarts(text: string, from: nat)
    requires from < |text| && (text[from] == '<' || text[from] == '[')
    ensures var n := Find(if text[from] == '<' then '>' else ']', text, from);
      if n == |text| then Starts(text, from, n, TEXT) else Starts(text, from, n + 1, MARKER)
  {
    hide Find;
  }

  lemma TextStarts(text: string, from: nat, n: nat)
    requires from < n <= |text| && (n < |text| ==> IsOpener(text[n]))
    requires forall i | from <= i < n :: !IsOpener(text[i])
    ensures Starts(text, from, n, TEXT)
  {
    hide Markers;
    SkipText(text, from, n);
    assert !IsOpener(text[from]);
  }

  /** The first segment from a place on, told by the characters there. */
  lemma NextSegment(text: string, from: nat) returns (n: nat, kind: SegmentType)
    requires from < |text|
    ensures from < n <= |text|
    ensures Segments(text[from..]) == [Segment(kind, text[from..n])] + Segments(text[n..])
    ensures Starts(text, from, n, kind)
  {
    hide Segments, First, Starts, OpenerAt, CloserAt;
    if text[from] == '<' || text[from] == '[' {
      n := Find(if text[from] == '<' then '>' else ']', text, from);
      OpenerStarts(text, from);
      CloserOf(text, from);
      if n == |text| {
        kind := TEXT;
        ToTheEnd(text, from);
      } else {
        MarkerThenRest(text[from..], n - from);
        Sliced(text, from, n + 1);
        n, kind := n + 1, MARKER;
      }
    } else {
      n, kind := from + OpenerAt(text[from..]), TEXT;
      forall i | from <= i < n ensures !IsOpener(text[i]) { assert text[from..][i - from] == text[i]; }
      TextStarts(text, from, n);
      if n == |text| {
        ToTheEnd(text, from);
      } else {
        TextThenMarker(text[from..], n - from);
        Sliced(text, from, n);
      }
    }
  }

  lemma Sliced(text: string, from: nat, n: nat)
    requires from <= n <= |text|
    ensures text[from..][..n - from] == text[from..n] && text[from..][n - from..] == text[n..]
  {
  }

  lemma ToTheEnd(text: string, from: nat)
    requires from < |text|
    requires var s := text[from..];
      || (forall i | 0 <= i < |s| :: !IsOpener(s[i]))
      || (IsOpener(s[0]) && forall i | 0 <= i < |s| :: !IsCloser(s[0], s[i]))
    ensures Segments(text[from..]) == [Segment(TEXT, text[from..|text|])] + Segments(text[|text|..])
  {
    hide Segments;
    OnlyText(text[from..]);
    assert text[from..|text|] == text[from..] && text[|text|..] == "";
    NoText();
  }

  lemma InsideNext(seg: Segment, rest: seq<Segment>, cut: nat)
    ensures Inside([seg] + rest, cut)
      <==> if cut < |seg.value| then 0 < cut && seg.kind == MARKER else Inside(rest, cut - |seg.value|)
  {
    assert ([seg] + rest)[1..] == rest;
  }

  lemma {:induction false} MarkersAreSegments(text: string, from: nat, cut: nat)
    requires from <= cut && from <= |text|
    ensures InOneOf(Markers(text, from), cut) <==> Inside(Segments(text[from..]), cut - from)
    decreases |text| - from
  {
    hide Markers, Segments, InOneOf, Inside;
    if from == |text| {
      NoMarkers(text, cut);
    } else {
      var n, kind := NextSegment(text, from);
      var seg := Segment(kind, text[from..n]);
      InsideNext(seg, Segments(text[n..]), cut - from);
      if kind == MARKER { InOneMore((from, n - 1), Markers(text, n), cut); }
      if cut < n {
        MarkersBehind(text, n, cut);
        NoneAmongNone(cut);
      } else {
        MarkersAreSegments(text, n, cut);
        NoMarkers(text, cut);
      }
    }
  }

  lemma NoneAmongNone(cut: nat)
    ensures !InOneOf([], cut)
  {
  }

  lemma NoMarkers(text: string, cut: nat)
    ensures !InOneOf(Markers(text, |text|), cut) && !InOneOf([], cut)
    ensures forall n: nat :: !Inside(Segments(text[|text|..]), n)
  {
    assert text[|text|..] == "";
    NoText();
  }

  lemma InsideIs(text: string, cut: nat)
    ensures InsideMarker(text, cut) <==> Inside(Segments(text), cut)
  {
    hide Markers, Segments, Inside;
    assert text[0..] == text;
    MarkersAreSegments(text, 0, cut);
  }

  // ---------------------------------------------------------------- what segments look like

  predicate Plain(text: string) {
    forall i | 0 <= i < |text| :: !IsOpener(text[i])
  }

  /**
   What a segment is in front of the next ones: a marker opens and closes; a text either has no opening
   character, and then an opening character follows, or it is the last segment and never closed.
   */
  predicate Proper(seg: Segment, rest: seq<Segment>) {
    && seg.value != ""
    && (seg.kind == MARKER ==>
      var last := seg.value[|seg.value| - 1]; IsOpener(seg.value[0]) && (last == '>' || last == ']'))
    && (seg.kind == TEXT && IsOpener(seg.value[0]) ==> rest == [])
    && (seg.kind == TEXT && !IsOpener(seg.value[0]) ==>
      Plain(seg.value) && (rest == [] || (rest[0].value != "" && IsOpener(rest[0].value[0]))))
  }

  predicate Regular(segs: seq<Segment>) {
    forall i | 0 <= i < |segs| :: Proper(segs[i], segs[i + 1..])
  }

  lemma RegularMore(seg: Segment, rest: seq<Segment>)
    requires Proper(seg, rest) && Regular(rest)
    ensures Regular([seg] + rest)
  {
    hide Proper;
    var segs := [seg] + rest;
    forall i | 0 <= i < |segs| ensures Proper(segs[i], segs[i + 1..]) {
      if i == 0 {
        assert segs[1..] == rest;
      } else {
        assert segs[i + 1..] == rest[i..] && segs[i] == rest[i - 1];
      }
    }
  }

  lemma ProperNext(text: string, from: nat, n: nat, kind: SegmentType)
    requires from < n <= |text| && Starts(text, from, n, kind)
    ensures Proper(Segment(kind, text[from..n]), Segments(text[n..]))
  {
    hide Segments, Markers;
    var v := text[from..n];
    assert v[0] == text[from] && v[|v| - 1] == text[n - 1];
    if n == |text| {
      assert text[n..] == "";
      NoText();
    } else {
      var m, k := NextSegment(text, n);
      assert text[n..m][0] == text[n];
    }
    if kind == TEXT && !IsOpener(v[0]) {
      forall i | 0 <= i < |v| ensures !IsOpener(v[i]) { assert v[i] == text[from + i]; }
    }
  }

  lemma {:induction false} SegmentsRegular(text: string, from: nat)
    requires from <= |text|
    ensures Regular(Segments(text[from..]))
    decreases |text| - from
  {
    hide Segments, Markers, Regular, Proper, Plain;
    if from == |text| {
      NothingRegular(text);
    } else {
      var n, kind := NextSegment(text, from);
      SegmentsRegular(text, n);
      ProperNext(text, from, n, kind);
      RegularMore(Segment(kind, text[from..n]), Segments(text[n..]));
    }
  }

  lemma NothingRegular(text: string)
    ensures Regular(Segments(text[|text|..]))
  {
    assert text[|text|..] == "";
    NoText();
  }

  lemma RegularPart(segs: seq<Segment>, i: nat, j: nat)
    requires i <= j <= |segs| && Regular(segs)
    ensures Regular(segs[i..j])
  {
    var part := segs[i..j];
    forall k | 0 <= k < |part| ensures Proper(part[k], part[k + 1..]) {
      assert part[k] == segs[i + k] && Proper(segs[i + k], segs[i + k + 1..]);
      assert k + 1 < |part| ==> part[k + 1..][0] == segs[i + k + 1..][0];
    }
  }

  // ---------------------------------------------------------------- places between and in segments

  /** A place o characters into a segment: inside a marker only if the segment is one and o is not 0. */
  lemma {:induction false} InsideAt(segs: seq<Segment>, i: nat, o: nat)
    requires i < |segs| && o < |segs[i].value|
    ensures Inside(segs, |Glue(segs[..i])| + o) <==> 0 < o && segs[i].kind == MARKER
  {
    hide Glue;
    if i == 0 {
      EmptyGlue();
      assert segs[..0] == [];
    } else {
      InsideAt(segs[1..], i - 1, o);
      FrontLength(segs, i);
    }
  }

  lemma FrontLength(segs: seq<Segment>, i: nat)
    requires 0 < i <= |segs|
    ensures |Glue(segs[..i])| == |segs[0].value| + |Glue(segs[1..][..i - 1])|
  {
    assert segs[..i][1..] == segs[1..][..i - 1];
  }

  lemma {:induction false} InsideEnd(segs: seq<Segment>)
    ensures !Inside(segs, |Glue(segs)|)
  {
    if segs != [] { InsideEnd(segs[1..]); }
  }

  /** No border of segments is inside a marker. */
  lemma BorderOutside(segs: seq<Segment>, i: nat)
    requires i <= |segs| && NoneEmpty(segs)
    ensures !Inside(segs, |Glue(segs[..i])|)
  {
    hide Glue, Inside;
    if i < |segs| {
      InsideAt(segs, i, 0);
    } else {
      assert segs[..i] == segs;
      InsideEnd(segs);
    }
  }

  /** A place at most as far as the end of a text segment. */
  lemma TextOutside(segs: seq<Segment>, i: nat, o: nat)
    requires i < |segs| && NoneEmpty(segs) && o <= |segs[i].value| && segs[i].kind == TEXT
    ensures !Inside(segs, |Glue(segs[..i])| + o)
  {
    hide Glue, Inside;
    if o < |segs[i].value| {
      InsideAt(segs, i, o);
    } else {
      BorderOutside(segs, i + 1);
      assert segs[..i + 1] == segs[..i] + [segs[i]];
      GlueSnoc(segs[..i], segs[i]);
    }
  }

  /** Every place before the end is in one of the segments. */
  lemma {:induction false} PlaceOf(segs: seq<Segment>, cut: nat) returns (i: nat, o: nat)
    requires cut < |Glue(segs)|
    ensures i < |segs| && o < |segs[i].value| && cut == |Glue(segs[..i])| + o
  {
    if cut < |segs[0].value| {
      i, o := 0, cut;
      assert segs[..0] == [];
    } else {
      i, o := PlaceOf(segs[1..], cut - |segs[0].value|);
      i := i + 1;
      FrontLength(segs, i);
    }
  }

  /** The segments of what stands behind a border, or behind a place in a text without opening characters. */
  lemma {:induction false} SuffixSegments(text: string, from: nat, i: nat, o: nat)
    requires from <= |text|
    requires var segs := Segments(text[from..]);
      i < |segs| && o < |segs[i].value| && (o == 0 || (segs[i].kind == TEXT && !IsOpener(segs[i].value[0])))
    ensures var segs := Segments(text[from..]);
      var place := from + |Glue(segs[..i])| + o;
      && place <= |text|
      && Segments(text[place..]) == [Segment(segs[i].kind, segs[i].value[o..])] + segs[i + 1..]
    decreases |text| - from
  {
    hide Segments, Markers, Glue, Starts, Plain;
    if from == |text| {
      NothingThere(text);
    } else {
      var n, kind := NextSegment(text, from);
      var seg, rest := Segment(kind, text[from..n]), Segments(text[n..]);
      var segs := [seg] + rest;
      assert segs[1..] == rest;
      if i == 0 {
        assert segs[..0] == [];
        EmptyGlue();
        assert segs[i].value[0..] == text[from..n];
        if o > 0 { InText(text, from, n, o); }
      } else {
        SuffixSegments(text, n, i - 1, o);
        FrontLength(segs, i);
        assert rest[i..] == segs[i + 1..] && rest[i - 1] == segs[i];
      }
    }
  }

  lemma NothingThere(text: string)
    ensures Segments(text[|text|..]) == []
  {
    assert text[|text|..] == "";
    NoText();
  }

  lemma InText(text: string, from: nat, n: nat, o: nat)
    requires from < n <= |text| && Starts(text, from, n, TEXT) && !IsOpener(text[from]) && o < n - from
    ensures Segments(text[from + o..]) == [Segment(TEXT, text[from..n][o..])] + Segments(text[n..])
  {
    hide Segments, Markers, First;
    var s := text[from + o..];
    assert text[from..n][o..] == text[from + o..n];
    assert forall i | 0 <= i < n - from - o :: s[i] == text[from + o + i];
    if n == |text| {
      OnlyText(s);
      NothingThere(text);
      assert text[from + o..n] == s;
    } else {
      TextThenMarker(s, n - from - o);
      Sliced(text, from + o, n);
    }
  }

  // ---------------------------------------------------------------- what the alignment leaves

  /**
   The alignment goes as far as it can: while both sides have two segments to go, neither the first nor
   the last ones are the same. What went into the suffix is the same number of segments of both sides.
   */
  lemma {:induction false} AlignGoesOn(e: Ends, l: seq<Segment>, r: seq<Segment>)
    requires InRange(e, l, r) && !e.lDone && !e.rDone
    ensures var e' := Align(e, l, r);
      && (e'.ls < e'.le && e'.rs < e'.re ==> l[e'.ls] != r[e'.rs] && l[e'.le] != r[e'.re])
      && (!e'.lDone && !e'.rDone ==> e.le - e'.le == e.re - e'.re)
    decreases e.le - e.ls + e.re - e.rs
  {
    hide Align;
    if e.ls == e.le || e.rs == e.re {
      AlignStops(e, l, r);
    } else {
      AlignStep(e, l, r);
      FrontNotDone(e, l, r);
      var front := TakeFront(e, l, r);
      BackDone(front, l, r);
      var back := TakeBack(front, l, r);
      if back.lDone || back.rDone || back == e {
        AlignStops(back, l, r);
      } else {
        AlignGoesOn(back, l, r);
      }
    }
  }

  /** The iterators after the last comparison. */
  function Left(l: seq<Segment>, r: seq<Segment>): (e: Ends)
    requires l != [] && r != []
    ensures InRange(e, l, r)
  {
    LastMatch(l, r, Aligned(l, r), "", "").2
  }

  lemma LeftIs(l: seq<Segment>, r: seq<Segment>, prefix: string, suffix: string)
    requires l != [] && r != []
    ensures LastMatch(l, r, Aligned(l, r), prefix, suffix).2 == Left(l, r)
  {
  }

  /** If segments are left of both sides, they start and end with different ones, or are one text each. */
  lemma RestsDiffer(l: seq<Segment>, r: seq<Segment>)
    requires l != [] && r != [] && !Left(l, r).lDone && !Left(l, r).rDone
    ensures var e := Left(l, r);
      && e == Aligned(l, r) && |l| - e.le == |r| - e.re
      && ((l[e.ls] != r[e.rs] && l[e.le] != r[e.re]) || (e.ls == e.le && e.rs == e.re && l[e.ls].kind == TEXT))
  {
    hide Align;
    AlignGoesOn(Ends(0, |l| - 1, 0, |r| - 1, false, false), l, r);
    AlignedIs(l, r);
  }

  // ---------------------------------------------------------------- common text of what is left

  lemma Longer(segs: seq<Segment>, i: nat)
    requires i + 1 < |segs|
    ensures |Glue(segs[i..])| >= |segs[i].value| + |segs[i + 1].value|
    ensures segs[i + 1].value != "" ==> Glue(segs[i..])[|segs[i].value|] == segs[i + 1].value[0]
    ensures Glue(segs[i..])[..|segs[i].value|] == segs[i].value
  {
    hide Glue;
    GlueCons(segs, i);
    GlueCons(segs, i + 1);
  }

  /** Texts that agree as far as n agree before it. */
  lemma SameBefore(a: string, b: string, n: nat, m: nat)
    requires n <= |a| && n <= |b| && a[..n] == b[..n]
    ensures m < n ==> a[m] == b[m]
    ensures m <= n ==> a[..m] == b[..m]
  {
    if m < n { assert a[..n][m] == b[..n][m]; }
    if m <= n { assert a[..n][..m] == a[..m] && b[..n][..m] == b[..m]; }
  }

  /** Behind the shorter of two texts either nothing follows, or an opening character that the longer one has not. */
  lemma TextEnds(a: seq<Segment>, b: seq<Segment>)
    requires a != [] && b != [] && Regular(a) && Regular(b) && a[0].kind == TEXT && b[0].kind == TEXT
    requires |a[0].value| < |b[0].value|
    ensures var u, v := a[0].value, b[0].value;
      && |u| <= |Glue(a)| && 0 < |u| < |v| <= |Glue(b)|
      && (|Glue(a)| == |u| || Glue(a)[0] != Glue(b)[0] || Glue(a)[|u|] != Glue(b)[|u|])
  {
    hide Glue;
    var u, v := a[0].value, b[0].value;
    assert a[0..] == a && b[0..] == b;
    GlueCons(a, 0);
    GlueCons(b, 0);
    assert Proper(a[0], a[1..]) && Proper(b[0], b[1..]);
    EmptyGlue();
    if |a| > 1 { Longer(a, 0); }
  }

  /** A common prefix of two different texts in front of segments does not leave the shorter one. */
  lemma FrontInText(a: seq<Segment>, b: seq<Segment>, n: nat)
    requires a != [] && b != [] && Regular(a) && Regular(b) && a[0].kind == TEXT && b[0].kind == TEXT
    requires |a[0].value| < |b[0].value|
    requires n <= |Glue(a)| && n <= |Glue(b)| && Glue(a)[..n] == Glue(b)[..n]
    ensures n <= |a[0].value|
  {
    hide *;
    TextEnds(a, b);
    SameBefore(Glue(a), Glue(b), n, 0);
    SameBefore(Glue(a), Glue(b), n, |a[0].value|);
  }

  lemma FirstText(segs: seq<Segment>)
    requires segs != []
    ensures var v := segs[0].value; |v| <= |Glue(segs)| && Glue(segs)[..|v|] == v && (|segs| == 1 ==> |Glue(segs)| == |v|)
  {
    hide Glue;
    assert segs[0..] == segs;
    GlueCons(segs, 0);
    EmptyGlue();
  }

  /** The same for two different texts of any length. */
  lemma FrontInBoth(a: seq<Segment>, b: seq<Segment>, n: nat)
    requires a != [] && b != [] && Regular(a) && Regular(b) && a[0].kind == TEXT && b[0].kind == TEXT
    requires a[0] != b[0] || (|a| == 1 && |b| == 1)
    requires n <= |Glue(a)| && n <= |Glue(b)| && Glue(a)[..n] == Glue(b)[..n]
    ensures n <= |a[0].value| && n <= |b[0].value|
  {
    hide Glue, Regular;
    var u, v := a[0].value, b[0].value;
    FirstText(a);
    FirstText(b);
    if |u| < |v| {
      FrontInText(a, b, n);
    } else if |v| < |u| {
      FrontInText(b, a, n);
    } else {
      SameBefore(Glue(a), Glue(b), n, |u|);
    }
  }

  /**
   The last of these segments, in the short list, ends the long one: it stands there behind the same
   character that stands before it here.
   */
  predicate Reaches(short: seq<Segment>, long: Segment) {
    && |short| > 1
    && var a, m := short[|short| - 1].value, short[|short| - 2].value;
       && |a| < |long.value|
       && m != ""
       && long.value[|long.value| - |a| - 1..] == [m[|m| - 1]] + a
  }

  lemma LastTwo(segs: seq<Segment>)
    requires |segs| > 1 && segs[|segs| - 2].value != ""
    ensures var a, m := segs[|segs| - 1].value, segs[|segs| - 2].value;
      |Glue(segs)| > |a| && Glue(segs)[|Glue(segs)| - |a| - 1..] == [m[|m| - 1]] + a
  {
    hide Glue;
    var n := |segs|;
    var a, m, g := segs[n - 1].value, segs[n - 2].value, Glue(segs[..n - 2]);
    assert segs == segs[..n - 1] + [segs[n - 1]];
    assert segs[..n - 1] == segs[..n - 2] + [segs[n - 2]];
    GlueSnoc(segs[..n - 1], segs[n - 1]);
    GlueSnoc(segs[..n - 2], segs[n - 2]);
    assert m == m[..|m| - 1] + [m[|m| - 1]];
  }

  lemma LastOne(segs: seq<Segment>)
    requires segs != []
    ensures var b := segs[|segs| - 1].value;
      |b| <= |Glue(segs)| && Glue(segs)[|Glue(segs)| - |b|..] == b && (|segs| == 1 ==> |Glue(segs)| == |b|)
  {
    hide Glue;
    assert segs == segs[..|segs| - 1] + [segs[|segs| - 1]];
    GlueSnoc(segs[..|segs| - 1], segs[|segs| - 1]);
    EmptyGlue();
  }

  /** Texts that agree in the last n characters agree in fewer. */
  lemma SameBehind(a: string, b: string, n: nat, m: nat)
    requires n <= |a| && n <= |b| && a[|a| - n..] == b[|b| - n..]
    ensures m <= n ==> a[|a| - m..] == b[|b| - m..]
  {
    if m <= n { assert a[|a| - n..][n - m..] == a[|a| - m..] && b[|b| - n..][n - m..] == b[|b| - m..]; }
  }

  lemma BackOfBack(text: string, n: nat, m: nat)
    requires m <= n <= |text|
    ensures text[|text| - n..][n - m..] == text[|text| - m..]
  {
  }

  /** A common suffix that leaves the shorter one of two last texts reaches the character before it. */
  lemma BackInText(a: seq<Segment>, b: seq<Segment>, n: nat)
    requires a != [] && b != [] && NoneEmpty(a)
    requires var u, v := a[|a| - 1].value, b[|b| - 1].value; |u| < |v|
    requires n <= |Glue(a)| && n <= |Glue(b)| && Glue(a)[|Glue(a)| - n..] == Glue(b)[|Glue(b)| - n..]
    requires !Reaches(a, b[|b| - 1])
    ensures n <= |a[|a| - 1].value|
  {
    hide Glue;
    var u, v := a[|a| - 1].value, b[|b| - 1].value;
    LastOne(a);
    LastOne(b);
    if |a| > 1 {
      LastTwo(a);
      BackOfBack(Glue(b), |v|, |u| + 1);
      SameBehind(Glue(a), Glue(b), n, |u| + 1);
    }
  }

  lemma BackInBoth(a: seq<Segment>, b: seq<Segment>, n: nat)
    requires a != [] && b != [] && NoneEmpty(a) && NoneEmpty(b)
    requires a[|a| - 1] != b[|b| - 1] || (|a| == 1 && |b| == 1)
    requires a[|a| - 1].kind == TEXT && b[|b| - 1].kind == TEXT
    requires n <= |Glue(a)| && n <= |Glue(b)| && Glue(a)[|Glue(a)| - n..] == Glue(b)[|Glue(b)| - n..]
    requires !Reaches(a, b[|b| - 1]) && !Reaches(b, a[|a| - 1])
    ensures n <= |a[|a| - 1].value| && n <= |b[|b| - 1].value|
  {
    hide Glue, Reaches, NoneEmpty;
    var u, v := a[|a| - 1].value, b[|b| - 1].value;
    LastOne(a);
    LastOne(b);
    if |u| < |v| {
      BackInText(a, b, n);
    } else if |v| < |u| {
      BackInText(b, a, n);
    } else {
      SameBehind(Glue(a), Glue(b), n, |u|);
    }
  }

  // ---------------------------------------------------------------- the two cuts

  /** No final correction has replaced the split. */
  predicate Stands(d: Split, left: string, right: string) {
    d.left != "" || (d.right != "" && !(left <= right))
  }

  /**
   Of the segments that are left after the last comparison, both last ones are texts, and the shorter one,
   with the last character of the segment before it, ends the longer one.
   */
  predicate Overruns(left: string, right: string) {
    var l, r := Segments(left), Segments(right);
    && l != [] && r != []
    && var e := Left(l, r);
       && !e.lDone && !e.rDone && l[e.le].kind == TEXT && r[e.re].kind == TEXT
       && (Reaches(LeftRest(e, l), r[e.re]) || Reaches(RightRest(e, r), l[e.le]))
  }

  /** The longer of the two last texts starts with an opening character, which nothing closes. */
  predicate LongerOpens(left: string, right: string)
    requires Overruns(left, right)
  {
    var l, r := Segments(left), Segments(right);
    var e := Left(l, r);
    var a, b := l[e.le].value, r[e.re].value;
    var longer := if |a| < |b| then b else a;
    longer != "" && IsOpener(longer[0])
  }

  lemma StandsMeans(d: Split, left: string, right: string)
    requires Stands(Corrected(d, left, right), left, right)
    ensures Corrected(d, left, right) == d && Stands(d, left, right)
  {
  }

  /** The text gathered after the last comparison ends and starts at borders of segments on both sides. */
  lemma MatchedAtBorders(l: seq<Segment>, r: seq<Segment>, e: Ends, prefix: string, suffix: string)
    returns (i: nat, j: nat, i': nat, j': nat)
    requires InRange(e, l, r) && Gathered(e, l, r, prefix, suffix) && !MatchesTwice(e, l, r) && !(e.lDone && e.rDone)
    ensures i <= |l| && j <= |l| && i' <= |r| && j' <= |r|
    ensures var m := LastMatch(l, r, e, prefix, suffix);
      m.0 == Glue(l[..i]) == Glue(r[..i']) && m.1 == Glue(l[j..]) == Glue(r[j'..])
    ensures var m := LastMatch(l, r, e, prefix, suffix);
      !m.2.lDone && !m.2.rDone ==>
        m.2 == e && i == e.ls && i' == e.rs && j == e.le + 1 && j' == e.re + 1 && m.0 == prefix && m.1 == suffix
  {
    hide Glue;
    i, j, i', j' := e.ls, LeftStop(e), e.rs, RightStop(e);
    GlueNext(l, e.ls);
    GlueNext(r, e.rs);
    GlueCons(l, e.le);
    GlueCons(r, e.re);
    if e.ls == e.le && e.rs != e.re && l[e.ls] == r[e.re] {
      j, j' := e.le, e.re;
    } else if e.rs == e.re && e.ls != e.le && l[e.le] == r[e.rs] {
      j, j' := e.le, e.re;
    } else if l[e.ls] == r[e.rs] && (e.ls == e.le || e.rs == e.re) && (e.ls != e.le || e.rs != e.re || l[e.ls].kind == MARKER) {
      i, i' := e.ls + 1, e.rs + 1;
    }
  }

  lemma GlueNext(segs: seq<Segment>, i: nat)
    requires i < |segs|
    ensures Glue(segs[..i + 1]) == Glue(segs[..i]) + segs[i].value
  {
    assert segs[..i + 1] == segs[..i] + [segs[i]];
    GlueSnoc(segs[..i], segs[i]);
  }

  /** A split that stands, as the trimming leaves it. */
  lemma SplitIs(left: string, right: string) returns (l: seq<Segment>, r: seq<Segment>, e: Ends, prefix: string, suffix: string)
    requires Segments(left) != [] && Segments(right) != []
    requires Rebuilds(SplitOf(left, right), left, right) && Stands(SplitOf(left, right), left, right)
    ensures l == Segments(left) && r == Segments(right) && e == Aligned(l, r)
    ensures Gathered(e, l, r, prefix, suffix) && !MatchesTwice(e, l, r) && !(e.lDone && e.rDone)
    ensures var m := LastMatch(l, r, e, prefix, suffix);
      && m.2 == Left(l, r)
      && SplitOf(left, right) == Trimmed(
        Glue(LeftRest(m.2, l)), Glue(RightRest(m.2, r)), m.0, m.1,
        l[m.2.le].kind == TEXT && r[m.2.re].kind == TEXT, r[m.2.rs].kind == TEXT && l[m.2.ls].kind == TEXT)
      && LastMatched(l, r, e, m.0, m.1, m.2)
  {
    hide Glue, Segments, Align, Gathered, LastMatch, LastMatched, Trimmed, Corrected, Rebuilds, Stands, MatchesTwice;
    l, r := Segments(left), Segments(right);
    e := Aligned(l, r);
    SegmentsGlue(left);
    SegmentsGlue(right);
    NothingGathered(l, r);
    AlignGathers(Ends(0, |l| - 1, 0, |r| - 1, false, false), l, r, "", "");
    prefix, suffix := Glue(l[..e.ls]), Glue(l[LeftStop(e)..]);
    LastMatchKeeps(l, r, e, prefix, suffix);
    LeftIs(l, r, prefix, suffix);
    SplitRebuilds(left, right);
    var m := LastMatch(l, r, e, prefix, suffix);
    var a, b := Glue(LeftRest(m.2, l)), Glue(RightRest(m.2, r));
    var textSuffix := l[m.2.le].kind == TEXT && r[m.2.re].kind == TEXT;
    var textPrefix := r[m.2.rs].kind == TEXT && l[m.2.ls].kind == TEXT;
    var d := Trimmed(a, b, m.0, m.1, textSuffix, textPrefix);
    StandsMeans(d, left, right);
    TrimmedKeeps(a, b, m.0, m.1, textSuffix, textPrefix);
    NotTwice(l, r, e, m.0, m.1, m.2, d, left, right);
  }

  lemma NotTwice(
    l: seq<Segment>, r: seq<Segment>, e: Ends, prefix: string, suffix: string, e': Ends, d: Split, left: string, right: string)
    requires InRange(e, l, r) && InRange(e', l, r) && LastMatched(l, r, e, prefix, suffix, e')
    requires MatchesTwice(e, l, r) ==> e.lDone && e.rs != e.re && left <= right
    requires var a, b := Glue(LeftRest(e', l)), Glue(RightRest(e', r)); a == "" || b == "" ==> d.left == a && d.right == b
    requires Stands(d, left, right)
    ensures !MatchesTwice(e, l, r) && !(e.lDone && e.rDone)
  {
    hide Glue, MatchesTwice, Kept;
    EmptyGlue();
  }

  /** A border, or a place in a text or at its end. */
  lemma FrontCut(segs: seq<Segment>, i: nat, p: nat)
    requires NoneEmpty(segs) && i <= |segs|
    requires p == 0 || (i < |segs| && segs[i].kind == TEXT && p <= |segs[i].value|)
    ensures !Inside(segs, |Glue(segs[..i])| + p)
  {
    hide Glue, Inside, NoneEmpty;
    if p == 0 { BorderOutside(segs, i); } else { TextOutside(segs, i, p); }
  }

  lemma BackCut(segs: seq<Segment>, j: nat, s: nat)
    requires NoneEmpty(segs) && j <= |segs|
    requires s == 0 || (j > 0 && segs[j - 1].kind == TEXT && s <= |segs[j - 1].value|)
    ensures |Glue(segs)| - |Glue(segs[j..])| - s >= 0
    ensures !Inside(segs, |Glue(segs)| - |Glue(segs[j..])| - s)
  {
    hide Glue, Inside, NoneEmpty;
    BackLength(segs, j);
    if s == 0 {
      BorderOutside(segs, j);
    } else {
      GlueNext(segs, j - 1);
      TextOutside(segs, j - 1, |segs[j - 1].value| - s);
    }
  }

  lemma BackLength(segs: seq<Segment>, j: nat)
    requires j <= |segs|
    ensures |Glue(segs)| == |Glue(segs[..j])| + |Glue(segs[j..])|
  {
    hide Glue;
    GlueConcat(segs[..j], segs[j..]);
    assert segs[..j] + segs[j..] == segs;
  }

  lemma RegularNoneEmpty(segs: seq<Segment>)
    requires Regular(segs)
    ensures NoneEmpty(segs)
  {
    forall i | 0 <= i < |segs| ensures segs[i].value != "" {
      assert Proper(segs[i], segs[i + 1..]);
    }
  }

  lemma SegmentsAre(text: string)
    ensures Regular(Segments(text)) && NoneEmpty(Segments(text)) && Glue(Segments(text)) == text
  {
    hide Segments, Regular, Glue;
    assert text[0..] == text;
    SegmentsRegular(text, 0);
    RegularNoneEmpty(Segments(text));
    SegmentsGlue(text);
  }

  /** How much trimming takes off both ends. */
  lemma TrimmedIs(a: string, b: string, prefix: string, suffix: string, textSuffix: bool, textPrefix: bool)
    returns (s: nat, p: nat)
    ensures p + s <= |a| && p + s <= |b|
    ensures Trimmed(a, b, prefix, suffix, textSuffix, textPrefix) == Cut(a, b, prefix, suffix, s, p)
    ensures a[|a| - s..] == b[|b| - s..] && a[..p] == b[..p]
    ensures s == if textSuffix then CommonBack(a, b) else 0
    ensures textPrefix ==> p + s < |a| && p + s < |b| ==> a[p] != b[p]
    ensures textSuffix ==> s < |a| && s < |b| ==> a[|a| - 1 - s] != b[|b| - 1 - s]
    ensures !textPrefix ==> p == 0
  {
    hide CommonBack, CommonFront, Cut;
    s := if textSuffix then CommonBack(a, b) else 0;
    p := if textPrefix then CommonFront(a[..|a| - s], b[..|b| - s]) else 0;
    BackCommon(a, b);
    SameBack(a, b, CommonBack(a, b), s);
    FrontCommon(a[..|a| - s], b[..|b| - s]);
    FrontOfFront(a, |a| - s, p);
    FrontOfFront(b, |b| - s, p);
  }

  lemma FrontTrim(l: seq<Segment>, r: seq<Segment>, n: nat)
    requires l != [] && r != [] && Regular(l) && Regular(r) && !Left(l, r).lDone && !Left(l, r).rDone
    requires var e := Left(l, r);
      var a, b := Glue(LeftRest(e, l)), Glue(RightRest(e, r));
      && l[e.ls].kind == TEXT && r[e.rs].kind == TEXT
      && n <= |a| && n <= |b| && a[..n] == b[..n]
    ensures var e := Left(l, r); n <= |l[e.ls].value| && n <= |r[e.rs].value|
  {
    hide Glue, Regular, Left;
    var e := Left(l, r);
    RestsDiffer(l, r);
    RegularPart(l, e.ls, e.le + 1);
    RegularPart(r, e.rs, e.re + 1);
    FrontInBoth(LeftRest(e, l), RightRest(e, r), n);
  }

  lemma BackTrim(l: seq<Segment>, r: seq<Segment>, n: nat)
    requires l != [] && r != [] && Regular(l) && Regular(r) && !Left(l, r).lDone && !Left(l, r).rDone
    requires var e := Left(l, r);
      var a, b := Glue(LeftRest(e, l)), Glue(RightRest(e, r));
      && l[e.le].kind == TEXT && r[e.re].kind == TEXT
      && n <= |a| && n <= |b| && a[|a| - n..] == b[|b| - n..]
      && !Reaches(LeftRest(e, l), r[e.re]) && !Reaches(RightRest(e, r), l[e.le])
    ensures var e := Left(l, r); n <= |l[e.le].value| && n <= |r[e.re].value|
  {
    hide Glue, Regular, Left, Reaches;
    var e := Left(l, r);
    RestsDiffer(l, r);
    RegularPart(l, e.ls, e.le + 1);
    RegularPart(r, e.rs, e.re + 1);
    RegularNoneEmpty(LeftRest(e, l));
    RegularNoneEmpty(RightRest(e, r));
    BackInBoth(LeftRest(e, l), RightRest(e, r), n);
  }

  /** Where the two cuts are: a border of segments or a place in a text, unless the suffix overruns. */
  predicate CutsAt(segs: seq<Segment>, d: Split, i: nat, p: nat, j: nat, s: nat) {
    && i <= |segs| && j <= |segs|
    && |d.prefix| == |Glue(segs[..i])| + p && |d.suffix| == s + |Glue(segs[j..])|
    && (p == 0 || (i < |segs| && segs[i].kind == TEXT && p <= |segs[i].value|))
  }

  predicate CutInText(segs: seq<Segment>, j: nat, s: nat) {
    s == 0 || (0 < j <= |segs| && segs[j - 1].kind == TEXT && s <= |segs[j - 1].value|)
  }

  lemma CutLengths(a: string, b: string, prefix: string, suffix: string, s: nat, p: nat)
    requires p + s <= |a| && p + s <= |b|
    ensures var d := Cut(a, b, prefix, suffix, s, p); |d.prefix| == |prefix| + p && |d.suffix| == s + |suffix|
  {
  }

  lemma DoneIsEmpty(e: Ends, l: seq<Segment>, r: seq<Segment>)
    requires InRange(e, l, r) && (e.lDone || e.rDone)
    ensures Glue(LeftRest(e, l)) == "" || Glue(RightRest(e, r)) == ""
  {
    assert LeftRest(e, l) == [] || RightRest(e, r) == [];
  }

  lemma CutPlaces(left: string, right: string) returns (i: nat, j: nat, i': nat, j': nat, p: nat, s: nat)
    requires Segments(left) != [] && Segments(right) != []
    requires Rebuilds(SplitOf(left, right), left, right) && Stands(SplitOf(left, right), left, right)
    ensures var l, r, d := Segments(left), Segments(right), SplitOf(left, right);
      && CutsAt(l, d, i, p, j, s) && CutsAt(r, d, i', p, j', s)
      && (!Overruns(left, right) ==> CutInText(l, j, s) && CutInText(r, j', s))
      && (Overruns(left, right) ==> var e := Left(l, r);
        && j == e.le + 1 && j' == e.re + 1
        && s == CommonBack(Glue(LeftRest(e, l)), Glue(RightRest(e, r))))
  {
    hide Glue, Segments, Align, Aligned, Gathered, LastMatch, LastMatched, Trimmed, Cut, Rebuilds, SplitOf;
    hide Stands, MatchesTwice, Left, Reaches, Regular, CommonBack, NoneEmpty;
    var l, r, e, prefix, suffix := SplitIs(left, right);
    SegmentsAre(left);
    SegmentsAre(right);
    i, j, i', j' := MatchedAtBorders(l, r, e, prefix, suffix);
    var m := LastMatch(l, r, e, prefix, suffix);
    var a, b := Glue(LeftRest(m.2, l)), Glue(RightRest(m.2, r));
    s, p := TrimmedIs(a, b, m.0, m.1, l[m.2.le].kind == TEXT && r[m.2.re].kind == TEXT, r[m.2.rs].kind == TEXT && l[m.2.ls].kind == TEXT);
    CutLengths(a, b, m.0, m.1, s, p);
    if m.2.lDone || m.2.rDone {
      DoneIsEmpty(m.2, l, r);
    } else {
      if p > 0 { FrontTrim(l, r, p); }
      if s > 0 && !Overruns(left, right) { BackTrim(l, r, s); }
    }
  }

  lemma {:induction false} FrontGrows(segs: seq<Segment>, i: nat, j: nat)
    requires i <= j <= |segs|
    ensures |Glue(segs[..i])| <= |Glue(segs[..j])|
    decreases j
  {
    hide Glue;
    if i < j {
      FrontGrows(segs, i, j - 1);
      GlueNext(segs, j - 1);
    }
  }

  lemma FrontBelow(segs: seq<Segment>, i: nat, j: nat)
    requires i <= |segs| && j <= |segs|
    ensures |Glue(segs[..i])| < |Glue(segs[..j])| ==> i < j
  {
    hide Glue;
    if j <= i { FrontGrows(segs, j, i); }
  }

  /** The same text has the same segments, counted from the end. */
  lemma SameFromEnd(l: seq<Segment>, i: nat, x: Segment, r: seq<Segment>, j: nat, y: Segment, le: nat, re: nat)
    requires i < le < |l| && j <= re < |r| && |l| - le == |r| - re
    requires [x] + l[i + 1..] == [y] + r[j + 1..]
    ensures l[le] == r[re]
  {
    var t := [x] + l[i + 1..];
    assert |t| == |l| - i == |r| - j;
    assert t[le - i] == l[i + 1..][le - i - 1] && ([y] + r[j + 1..])[re - j] == r[j + 1..][re - j - 1];
  }

  /** Texts that end alike from two places outside their markers on have the same segments there. */
  lemma OutsideAlike(left: string, right: string, cut: nat, cut': nat, le: nat, re: nat)
    requires var l, r := Segments(left), Segments(right);
      && le < |l| && re < |r| && |l| - le == |r| - re && r[re].value != "" && !IsOpener(r[re].value[0])
      && cut < |Glue(l[..le])| && cut' < |Glue(r[..re + 1])|
      && !Inside(l, cut) && !Inside(r, cut')
    requires cut <= |left| && cut' <= |right| && left[cut..] == right[cut'..]
    ensures Segments(left)[le] == Segments(right)[re]
  {
    hide Segments, Inside, Regular, Proper, Glue;
    var l, r := Segments(left), Segments(right);
    SegmentsAre(left);
    SegmentsAre(right);
    assert l[..|l|] == l && r[..|r|] == r;
    FrontGrows(l, le, |l|);
    FrontGrows(r, re + 1, |r|);
    var i, o := PlaceOf(l, cut);
    var j, o' := PlaceOf(r, cut');
    InsideAt(l, i, o);
    InsideAt(r, j, o');
    FrontBelow(l, i, le);
    FrontBelow(r, j, re + 1);
    NotLast(l, i);
    if j < re { NotLast(r, j); }
    SuffixFrom(left, i, o);
    SuffixFrom(right, j, o');
    SameFromEnd(l, i, Segment(l[i].kind, l[i].value[o..]), r, j, Segment(r[j].kind, r[j].value[o'..]), le, re);
  }

  /** Only the last segment may open what is never closed. */
  lemma NotLast(segs: seq<Segment>, i: nat)
    requires Regular(segs) && i + 1 < |segs|
    ensures segs[i].value != "" && (segs[i].kind == TEXT ==> !IsOpener(segs[i].value[0]))
  {
    assert Proper(segs[i], segs[i + 1..]);
  }

  lemma SuffixFrom(text: string, i: nat, o: nat)
    requires var segs := Segments(text);
      i < |segs| && o < |segs[i].value| && (o == 0 || (segs[i].kind == TEXT && !IsOpener(segs[i].value[0])))
    ensures var segs := Segments(text);
      var place := |Glue(segs[..i])| + o;
      && place <= |text|
      && Segments(text[place..]) == [Segment(segs[i].kind, segs[i].value[o..])] + segs[i + 1..]
  {
    hide Segments, Glue;
    assert text[0..] == text;
    SuffixSegments(text, 0, i, o);
  }

  /** A last text that ends the other side's, with the character before it, is part of the common suffix. */
  lemma ReachedBack(a: seq<Segment>, b: seq<Segment>)
    requires b != [] && Reaches(a, b[|b| - 1])
    ensures CommonBack(Glue(a), Glue(b)) > |a[|a| - 1].value| && CommonBack(Glue(b), Glue(a)) > |a[|a| - 1].value|
    ensures a[|a| - 1] != b[|b| - 1] && |a[|a| - 1].value| < |b[|b| - 1].value|
  {
    hide Glue, CommonBack;
    LastTwo(a);
    LastOne(b);
    var n := |a[|a| - 1].value| + 1;
    BackOfBack(Glue(b), |b[|b| - 1].value|, n);
    BackAtLeast(Glue(a), Glue(b), n);
    BackAtLeast(Glue(b), Glue(a), n);
  }

  lemma SecondCut(d: Split, text: string, side: string)
    requires d.prefix + (side + d.suffix) == text
    ensures |d.prefix| + |side| == |text| - |d.suffix| && text[|d.prefix| + |side|..] == d.suffix
  {
  }

  /** A common suffix longer than one of two different last texts starts inside a marker. */
  lemma OverrunSide(left: string, right: string, cut: nat, cut': nat, le: nat, re: nat, s: nat)
    requires var l, r := Segments(left), Segments(right);
      && le < |l| && re < |r| && |l| - le == |r| - re && l[le] != r[re]
      && r[re].value != "" && !IsOpener(r[re].value[0])
      && cut == |Glue(l[..le + 1])| - s && cut' == |Glue(r[..re + 1])| - s && s > |l[le].value|
    requires cut <= |left| && cut' <= |right| && left[cut..] == right[cut'..]
    ensures Inside(Segments(left), cut) || Inside(Segments(right), cut')
  {
    hide *;
    GlueNext(Segments(left), le);
    if !Inside(Segments(left), cut) && !Inside(Segments(right), cut') {
      OutsideAlike(left, right, cut, cut', le, re);
    }
  }

  lemma CutLength(text: string, segs: seq<Segment>, j: nat, k: nat, s: nat)
    requires Glue(segs) == text && j < |segs| && k == s + |Glue(segs[j + 1..])|
    ensures |text| - k == |Glue(segs[..j + 1])| - s
  {
    hide Glue;
    BackLength(segs, j + 1);
  }

  /** Where an overrun cuts: further back than one of two different last texts is long. */
  lemma OverrunPlaces(left: string, right: string) returns (le: nat, re: nat, s: nat)
    requires Overruns(left, right)
    requires Rebuilds(SplitOf(left, right), left, right) && Stands(SplitOf(left, right), left, right)
    ensures var l, r, d := Segments(left), Segments(right), SplitOf(left, right);
      && le < |l| && re < |r| && |l| - le == |r| - re && l[le] != r[re]
      && |d.suffix| == s + |Glue(l[le + 1..])| && |d.suffix| == s + |Glue(r[re + 1..])|
      && var a, b := l[le].value, r[re].value;
        && a != "" && b != ""
        && (LongerOpens(left, right) <==> IsOpener((if |a| < |b| then b else a)[0]))
        && |a| != |b| && (if |a| < |b| then s > |a| else s > |b|)
  {
    hide Glue, Segments, SplitOf, Left, Stands, CommonBack, Reaches, Rebuilds, CutInText, Aligned, LastMatch;
    var l, r := Segments(left), Segments(right);
    var i, j, i', j', p, common := CutPlaces(left, right);
    var e := Left(l, r);
    RestsDiffer(l, r);
    le, re, s := e.le, e.re, common;
    NotEmptyAt(left, le);
    NotEmptyAt(right, re);
    if Reaches(LeftRest(e, l), r[e.re]) {
      ReachedBack(LeftRest(e, l), RightRest(e, r));
    } else {
      ReachedBack(RightRest(e, r), LeftRest(e, l));
    }
  }

  lemma NotEmptyAt(text: string, i: nat)
    requires i < |Segments(text)|
    ensures Segments(text)[i].value != ""
  {
    hide Segments;
    SegmentsGlue(text);
  }

  /** An overrun cuts one of the texts inside a marker. */
  lemma OverrunInside(left: string, right: string)
    requires Overruns(left, right) && !LongerOpens(left, right)
    requires Rebuilds(SplitOf(left, right), left, right) && Stands(SplitOf(left, right), left, right)
    ensures var d := SplitOf(left, right);
      Inside(Segments(left), |d.prefix| + |d.left|) || Inside(Segments(right), |d.prefix| + |d.right|)
  {
    hide Glue, Segments, SplitOf, Inside, Stands, Overruns, LongerOpens, NoneEmpty;
    var l, r, d := Segments(left), Segments(right), SplitOf(left, right);
    var le, re, s := OverrunPlaces(left, right);
    SegmentsGlue(left);
    SegmentsGlue(right);
    CutLength(left, l, le, |d.suffix|, s);
    CutLength(right, r, re, |d.suffix|, s);
    SecondCut(d, left, d.left);
    SecondCut(d, right, d.right);
    var cut, cut' := |d.prefix| + |d.left|, |d.prefix| + |d.right|;
    if |l[le].value| < |r[re].value| {
      OverrunSide(left, right, cut, cut', le, re, s);
    } else {
      OverrunSide(right, left, cut', cut, re, le, s);
    }
  }

  /**
   A split that stands never puts its first cut inside a marker, and its second one only if the common
   suffix overruns; unless the longer text opens what nothing closes, it then always does.
   */
  lemma CutsExactly(left: string, right: string)
    requires Rebuilds(SplitOf(left, right), left, right) && Stands(SplitOf(left, right), left, right)
    ensures var d := SplitOf(left, right);
      !InsideMarker(left, |d.prefix|) && !InsideMarker(right, |d.prefix|)
    ensures var d := SplitOf(left, right);
      !Overruns(left, right) ==>
        !InsideMarker(left, |d.prefix| + |d.left|) && !InsideMarker(right, |d.prefix| + |d.right|)
    ensures var d := SplitOf(left, right);
      Overruns(left, right) && !LongerOpens(left, right) ==>
        InsideMarker(left, |d.prefix| + |d.left|) || InsideMarker(right, |d.prefix| + |d.right|)
  {
    hide Glue, Segments, SplitOf, Inside, InsideMarker, Overruns, LongerOpens, Stands, Regular, NoneEmpty;
    var d := SplitOf(left, right);
    InsideIs(left, |d.prefix|);
    InsideIs(right, |d.prefix|);
    InsideIs(left, |d.prefix| + |d.left|);
    InsideIs(right, |d.prefix| + |d.right|);
    if Segments(left) == [] || Segments(right) == [] {
      NothingCutInside(left, right);
    } else {
      CutsOfSegments(left, right);
      if Overruns(left, right) && !LongerOpens(left, right) { OverrunInside(left, right); }
    }
  }

  lemma NothingCutInside(left: string, right: string)
    requires Segments(left) == [] || Segments(right) == []
    requires Rebuilds(SplitOf(left, right), left, right) && Stands(SplitOf(left, right), left, right)
    ensures var d := SplitOf(left, right);
      && !Inside(Segments(left), |d.prefix|) && !Inside(Segments(right), |d.prefix|)
      && !Inside(Segments(left), |d.prefix| + |d.left|) && !Inside(Segments(right), |d.prefix| + |d.right|)
    ensures !Overruns(left, right)
  {
    hide Segments, Glue, Regular, NoneEmpty, Inside;
    SegmentsAre(left);
    SegmentsAre(right);
    assert Segments(left)[..0] == [] && Segments(right)[..0] == [];
    EmptyGlue();
    BorderOutside(Segments(left), 0);
    BorderOutside(Segments(right), 0);
    InsideEnd(Segments(left));
    InsideEnd(Segments(right));
  }

  lemma CutsOfSegments(left: string, right: string)
    requires Segments(left) != [] && Segments(right) != []
    requires Rebuilds(SplitOf(left, right), left, right) && Stands(SplitOf(left, right), left, right)
    ensures var d := SplitOf(left, right);
      && !Inside(Segments(left), |d.prefix|) && !Inside(Segments(right), |d.prefix|)
      && (!Overruns(left, right) ==>
        !Inside(Segments(left), |d.prefix| + |d.left|) && !Inside(Segments(right), |d.prefix| + |d.right|))
  {
    hide Glue, Segments, SplitOf, Inside, Overruns, Stands, Regular, NoneEmpty, Left;
    var l, r, d := Segments(left), Segments(right), SplitOf(left, right);
    var i, j, i', j', p, s := CutPlaces(left, right);
    SegmentsAre(left);
    SegmentsAre(right);
    SecondCut(d, left, d.left);
    SecondCut(d, right, d.right);
    FrontCut(l, i, p);
    FrontCut(r, i', p);
    if !Overruns(left, right) {
      BackCut(l, j, s);
      BackCut(r, j', s);
    }
  }

  lemma RestEnds(segs: seq<Segment>, i: nat, j: nat)
    requires Regular(segs) && i < j <= |segs|
    ensures var t, u, v := Glue(segs[i..j]), segs[i].value, segs[j - 1].value;
      && t != "" && u != "" && v != "" && t[0] == u[0] && t[|t| - 1] == v[|v| - 1]
      && (segs[i].kind == MARKER ==> t[0] == '<' || t[0] == '[')
      && (segs[j - 1].kind == MARKER ==> t[|t| - 1] == '>' || t[|t| - 1] == ']')
  {
    hide Glue;
    assert Proper(segs[i], segs[i + 1..]) && Proper(segs[j - 1], segs[j..]);
    FirstText(segs[i..j]);
    LastOne(segs[i..j]);
    var t, u, v := Glue(segs[i..j]), segs[i].value, segs[j - 1].value;
    assert u == t[..|u|] && v == t[|t| - |v|..];
  }

  lemma CutEnds(a: string, b: string, prefix: string, suffix: string, s: nat, p: nat)
    requires p + s <= |a| && p + s <= |b|
    ensures var d := Cut(a, b, prefix, suffix, s, p);
      && |d.left| == |a| - p - s && |d.right| == |b| - p - s
      && (d.left != "" ==> d.left[0] == a[p] && d.left[|d.left| - 1] == a[|a| - 1 - s])
      && (d.right != "" ==> d.right[0] == b[p] && d.right[|d.right| - 1] == b[|b| - 1 - s])
  {
  }

  /** What a split that stands leaves of both texts differs where no marker begins, and where none ends. */
  lemma SplitIsTight(left: string, right: string)
    requires Rebuilds(SplitOf(left, right), left, right) && Stands(SplitOf(left, right), left, right)
    ensures var d := SplitOf(left, right);
      d.left != "" && d.right != "" ==>
        && (d.left[0] == d.right[0] ==> d.left[0] == '<' || d.left[0] == '[')
        && (var a, b := d.left[|d.left| - 1], d.right[|d.right| - 1]; a == b ==> a == '>' || a == ']')
  {
    hide Glue, Segments, Aligned, Gathered, LastMatch, LastMatched, Trimmed, Cut, Rebuilds;
    hide Stands, MatchesTwice, Left, Regular, NoneEmpty, Corrected;
    if Segments(left) != [] && Segments(right) != [] {
      var l, r, e, prefix, suffix := SplitIs(left, right);
      SegmentsAre(left);
      SegmentsAre(right);
      var m := LastMatch(l, r, e, prefix, suffix);
      TrimIsTight(l, r, m.2, m.0, m.1);
    }
  }

  predicate Tight(d: Split) {
    d.left != "" && d.right != "" ==>
      && (d.left[0] == d.right[0] ==> d.left[0] == '<' || d.left[0] == '[')
      && (var a, b := d.left[|d.left| - 1], d.right[|d.right| - 1]; a == b ==> a == '>' || a == ']')
  }

  lemma TrimmedTight(a: string, b: string, prefix: string, suffix: string, textSuffix: bool, textPrefix: bool)
    requires a != "" && b != "" && !textPrefix ==> a[0] in ['<', '['] || b[0] in ['<', '[']
    requires a != "" && b != "" && !textSuffix ==> a[|a| - 1] in ['>', ']'] || b[|b| - 1] in ['>', ']']
    ensures Tight(Trimmed(a, b, prefix, suffix, textSuffix, textPrefix))
  {
    hide Trimmed, Cut, CommonBack;
    var s, p := TrimmedIs(a, b, prefix, suffix, textSuffix, textPrefix);
    CutEnds(a, b, prefix, suffix, s, p);
  }

  lemma TrimIsTight(l: seq<Segment>, r: seq<Segment>, e: Ends, prefix: string, suffix: string)
    requires InRange(e, l, r) && Regular(l) && Regular(r)
    ensures Tight(Trimmed(
        Glue(LeftRest(e, l)), Glue(RightRest(e, r)), prefix, suffix,
        l[e.le].kind == TEXT && r[e.re].kind == TEXT, r[e.rs].kind == TEXT && l[e.ls].kind == TEXT))
  {
    hide Glue, Trimmed, Tight, Regular;
    if e.lDone || e.rDone {
      DoneIsEmpty(e, l, r);
    } else {
      RestEnds(l, e.ls, e.le + 1);
      RestEnds(r, e.rs, e.re + 1);
    }
    TrimmedTight(Glue(LeftRest(e, l)), Glue(RightRest(e, r)), prefix, suffix,
      l[e.le].kind == TEXT && r[e.re].kind == TEXT, r[e.rs].kind == TEXT && l[e.ls].kind == TEXT);
  }

  // ---------------------------------------------------------------- witnesses

  lemma TwoSegments(text: string, marker: string, rest: string)
    requires text == marker + rest && |marker| == 3 && marker[0] == '<' && marker[2] == '>' && marker[1] != '>'
    requires rest != "" && forall i | 0 <= i < |rest| :: !IsOpener(rest[i])
    ensures Segments(text) == [Segment(MARKER, marker), Segment(TEXT, rest)]
  {
    hide Segments, IsOpener;
    OneMarker(text, marker, rest);
    OnlyText(rest);
  }

  /** A single segment on the right that matches nothing leaves both sides as they are. */
  lemma OneAgainstTwo(l: seq<Segment>, r: seq<Segment>)
    requires |l| == 2 && |r| == 1 && l[0] != r[0] && l[1] != r[0]
    ensures Left(l, r) == Aligned(l, r) == Ends(0, 1, 0, 0, false, false)
  {
    AlignStops(Ends(0, 1, 0, 0, false, false), l, r);
  }

  /** The split of a marker with a text behind it and a text that nothing matches. */
  lemma MarkerAgainstText(left: string, right: string, marker: string, rest: string, n: nat)
    requires Segments(left) == [Segment(MARKER, marker), Segment(TEXT, rest)] && Segments(right) == [Segment(TEXT, right)]
    requires rest != right && n == CommonBack(left, right) && (n < |left| || !(left <= right)) && n < |right|
    ensures SplitOf(left, right) == Split("", left[|left| - n..], left[..|left| - n], right[..|right| - n])
  {
    hide Segments, CommonBack, Align, Glue;
    var l, r := Segments(left), Segments(right);
    SegmentsGlue(left);
    SegmentsGlue(right);
    OneAgainstTwo(l, r);
    assert l[..0] == [] && l[2..] == [] && l[0..2] == l && r[0..1] == r;
    EmptyGlue();
    assert "" + left[..0] == "" && left[|left| - n..] + "" == left[|left| - n..];
    assert left[0..|left| - n] == left[..|left| - n] && right[0..|right| - n] == right[..|right| - n];
  }

  lemma EndsLikeMarker(left: string, right: string, marker: string, rest: string)
    requires Segments(left) == [Segment(MARKER, marker), Segment(TEXT, rest)] && Segments(right) == [Segment(TEXT, right)]
    requires |rest| < |right| && marker != "" && right[|right| - |rest| - 1..] == [marker[|marker| - 1]] + rest
    ensures Overruns(left, right) && (LongerOpens(left, right) <==> IsOpener(right[0]))
  {
    hide Segments, Left, IsOpener;
    OneAgainstTwo(Segments(left), Segments(right));
  }

  lemma WitnessSegments()
    ensures Segments("<x>bc") == [Segment(MARKER, "<x>"), Segment(TEXT, "bc")]
    ensures Segments("y>bc") == [Segment(TEXT, "y>bc")]
  {
    hide Segments;
    TwoSegments("<x>bc", "<x>", "bc");
    OnlyText("y>bc");
  }

  lemma WitnessSuffix()
    ensures CommonBack("<x>bc", "y>bc") == 3
  {
    BackIs("<x>bc", "y>bc", 3);
  }

  /** A second cut inside a marker: `>bc` ends both texts, but in one of them `>` closes a marker. */
  lemma OverrunCutsMarker()
    ensures SplitOf("<x>bc", "y>bc") == Split("", ">bc", "<x", "y")
    ensures Overruns("<x>bc", "y>bc") && !LongerOpens("<x>bc", "y>bc") && InsideMarker("<x>bc", 2)
  {
    hide Segments, SplitOf, Left, Overruns, LongerOpens, CommonBack, InsideMarker;
    var left, right := "<x>bc", "y>bc";
    WitnessSegments();
    WitnessSuffix();
    assert right[|right| - 3..] == ['>'] + "bc";
    EndsLikeMarker(left, right, "<x>", "bc");
    MarkerAgainstText(left, right, "<x>", "bc", 3);
    assert left[2..] == ">bc" && left[..2] == "<x" && right[..1] == "y";
    InsideIs(left, 2);
  }

  /** With an opening character that is never closed, a suffix may overrun a whole marker and do no harm. */
  lemma OverrunOfWholeMarker()
    ensures SplitOf("<x>bc", "[<x>bc") == Split("", "<x>bc", "", "[")
    ensures Overruns("<x>bc", "[<x>bc") && LongerOpens("<x>bc", "[<x>bc")
    ensures !InsideMarker("<x>bc", 0) && !InsideMarker("[<x>bc", 1)
  {
    hide Segments, SplitOf, Left, Overruns, LongerOpens;
    var left, right := "<x>bc", "[<x>bc";
    TwoSegments(left, "<x>", "bc");
    OnlyText(right);
    assert right[|right| - 3..] == ['>'] + "bc";
    EndsLikeMarker(left, right, "<x>", "bc");
    BackIs(left, right, 5);
    MarkerAgainstText(left, right, "<x>", "bc", 5);
    assert left[0..] == "<x>bc" && left[..0] == "" && right[..1] == "[";
    InsideIs(left, 0);
    InsideIs(right, 1);
  }

  /** Or it may end inside one all the same. */
  lemma OverrunUnclosed()
    ensures SplitOf("<x>bc", "[x>bc") == Split("", "x>bc", "<", "[")
    ensures Overruns("<x>bc", "[x>bc") && LongerOpens("<x>bc", "[x>bc") && InsideMarker("<x>bc", 1)
  {
    hide Segments, SplitOf, Left, Overruns, LongerOpens;
    var left, right := "<x>bc", "[x>bc";
    TwoSegments(left, "<x>", "bc");
    OnlyText(right);
    assert right[|right| - 3..] == ['>'] + "bc";
    EndsLikeMarker(left, right, "<x>", "bc");
    BackIs(left, right, 4);
    MarkerAgainstText(left, right, "<x>", "bc", 4);
    assert left[1..] == "x>bc" && left[..1] == "<" && right[..1] == "[";
    InsideIs(left, 1);
  }

  /** Two different markers stay whole. */
  lemma MarkersStayWhole()
    ensures SplitOf("<a>", "<b>") == Split("", "", "<a>", "<b>")
  {
    hide Segments;
    OneMarker("<a>", "<a>", "");
    OneMarker("<b>", "<b>", "");
    NoText();
  }
}
