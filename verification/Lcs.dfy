/** The longest common substring of two strings, by a table of common suffixes. */
module Lcs {

  predicate OccursAt(s: string, t: string, p: nat) {
    p + |s| <= |t| && t[p..p + |s|] == s
  }

  ghost predicate Occurs(s: string, t: string) {
    exists p: nat :: OccursAt(s, t, p)
  }

  /** The length of the longest common suffix of a[..i] and b[..j]. */
  function SuffixLen(a: string, b: string, i: nat, j: nat): (n: nat)
    requires i <= |a| && j <= |b|
    ensures n <= i && n <= j
  {
    if i == 0 || j == 0 || a[i - 1] != b[j - 1] then 0 else 1 + SuffixLen(a, b, i - 1, j - 1)
  }

  /** The common suffixes of two prefixes are exactly those no longer than the table says. */
  lemma {:induction false} SuffixIsLongest(a: string, b: string, i: nat, j: nat, n: nat)
    requires n <= i <= |a| && n <= j <= |b|
    ensures a[i - n..i] == b[j - n..j] <==> n <= SuffixLen(a, b, i, j)
    decreases i
  {
    if n > 0 {
      var s, t := a[i - n..i], b[j - n..j];
      assert s == a[i - n..i - 1] + [a[i - 1]] && t == b[j - n..j - 1] + [b[j - 1]];
      SuffixIsLongest(a, b, i - 1, j - 1, n - 1);
      if s == t {
        assert s[..n - 1] == t[..n - 1] && s[n - 1] == t[n - 1];
      }
    }
  }

  /** The table is filled up to column j of row i. */
  predicate Before(p: nat, q: nat, i: nat, j: nat) {
    p < i || (p == i && q < j)
  }

  ghost predicate NoneBetter(a: string, b: string, best: nat, i: nat, j: nat) {
    forall p: nat, q: nat | p <= |a| && q <= |b| && Before(p, q, i, j) :: SuffixLen(a, b, p, q) <= best
  }

  ghost predicate NoneEarlier(a: string, b: string, best: nat, end: nat) {
    forall p: nat, q: nat | p <= |a| && q <= |b| && p < end :: SuffixLen(a, b, p, q) < best
  }

  /** The best length and its end in the first string, over the entries filled so far. */
  ghost predicate Best(a: string, b: string, best: nat, end: nat, endB: nat, i: nat, j: nat) {
    && best <= end <= |a| && endB <= |b| && best == SuffixLen(a, b, end, endB)
    && (best > 0 ==> Before(end, endB, i, j)) && (best == 0 ==> end == 0)
    && NoneBetter(a, b, best, i, j) && NoneEarlier(a, b, best, end)
  }

  lemma EdgesAreZero(a: string, b: string)
    ensures forall q: nat | q <= |b| :: SuffixLen(a, b, 0, q) == 0
    ensures forall p: nat | p <= |a| :: SuffixLen(a, b, p, 0) == 0
  {
  }

  lemma BestFirst(a: string, b: string)
    ensures Best(a, b, 0, 0, 0, 1, 0)
  {
    EdgesAreZero(a, b);
  }

  /** The next entry takes over exactly if it is larger. */
  lemma BestMore(a: string, b: string, best: nat, end: nat, endB: nat, i: nat, j: nat)
    requires 1 <= i <= |a| && 1 <= j <= |b| && Best(a, b, best, end, endB, i, j)
    ensures var n := SuffixLen(a, b, i, j);
      if n > best then Best(a, b, n, i, j, i, j + 1) else Best(a, b, best, end, endB, i, j + 1)
  {
    hide SuffixLen;
  }

  lemma BestNextRow(a: string, b: string, best: nat, end: nat, endB: nat, i: nat)
    requires i <= |a| && Best(a, b, best, end, endB, i, |b| + 1)
    ensures Best(a, b, best, end, endB, i + 1, 0)
  {
    hide SuffixLen;
  }

  lemma BestNextColumn(a: string, b: string, best: nat, end: nat, endB: nat, i: nat)
    requires i <= |a| && Best(a, b, best, end, endB, i, 0)
    ensures Best(a, b, best, end, endB, i, 1)
  {
    EdgesAreZero(a, b);
    hide SuffixLen;
  }

  ghost predicate Filled(a: string, b: string, dp: array2<nat>, i: nat, j: nat)
    reads dp
  {
    && dp.Length0 == |a| + 1 && dp.Length1 == |b| + 1
    && forall p: nat, q: nat | p <= |a| && q <= |b| ::
      dp[p, q] == if Before(p, q, i, j) then SuffixLen(a, b, p, q) else 0
  }

  /** One entry of the table. */
  method FillEntry(a: string, b: string, dp: array2<nat>, i: nat, j: nat)
    requires 1 <= i <= |a| && 1 <= j <= |b| && Filled(a, b, dp, i, j)
    modifies dp
    ensures Filled(a, b, dp, i, j + 1)
  {
    assert a[i - 1] != b[j - 1] ==> SuffixLen(a, b, i, j) == 0;
    assert a[i - 1] == b[j - 1] ==> SuffixLen(a, b, i, j) == 1 + SuffixLen(a, b, i - 1, j - 1);
    hide SuffixLen;
    if a[i - 1] == b[j - 1] {
      dp[i, j] := dp[i - 1, j - 1] + 1;
    }
  }

  /** The result occurs in both, at its first possible place in the first, and nothing longer occurs in both. */
  method StringLcs(a: string, b: string) returns (r: string, ghost at: nat)
    ensures OccursAt(r, a, at) && Occurs(r, b)
    ensures forall s | Occurs(s, a) && Occurs(s, b) :: |s| <= |r|
    ensures forall s, p: nat | OccursAt(s, a, p) && |s| == |r| && p < at :: !Occurs(s, b)
  {
    hide SuffixLen, NoneBetter, NoneEarlier;
    if a == "" || b == "" {
      assert OccursAt("", a, 0) && OccursAt("", b, 0);
      return "", 0;
    }
    var dp := new nat[|a| + 1, |b| + 1]((_, _) => 0);
    var bestLen, bestEndA := 0, 0;
    ghost var bestEndB := 0;
    EdgesAreZero(a, b);
    BestFirst(a, b);
    for i := 1 to |a| + 1
      invariant Filled(a, b, dp, i, 0) && Best(a, b, bestLen, bestEndA, bestEndB, i, 0)
    {
      BestNextColumn(a, b, bestLen, bestEndA, bestEndB, i);
      for j := 1 to |b| + 1
        invariant Filled(a, b, dp, i, j) && Best(a, b, bestLen, bestEndA, bestEndB, i, j)
      {
        FillEntry(a, b, dp, i, j);
        BestMore(a, b, bestLen, bestEndA, bestEndB, i, j);
        if dp[i, j] > bestLen {
          bestLen := dp[i, j];
          bestEndA, bestEndB := i, j;
        }
      }
      BestNextRow(a, b, bestLen, bestEndA, bestEndB, i);
    }
    at := bestEndA - bestLen;
    r := a[bestEndA - bestLen..bestEndA];
    SuffixIsLongest(a, b, bestEndA, bestEndB, bestLen);
    assert OccursAt(r, b, bestEndB - bestLen);
    LongestOfAll(a, b, bestLen);
    FirstOfAll(a, b, bestLen, bestEndA);
  }

  lemma LongestOfAll(a: string, b: string, best: nat)
    requires NoneBetter(a, b, best, |a| + 1, 0)
    ensures forall s | Occurs(s, a) && Occurs(s, b) :: |s| <= best
  {
    forall s | Occurs(s, a) && Occurs(s, b)
      ensures |s| <= best
    {
      var p: nat :| OccursAt(s, a, p);
      var q: nat :| OccursAt(s, b, q);
      SuffixIsLongest(a, b, p + |s|, q + |s|, |s|);
      assert Before(p + |s|, q + |s|, |a| + 1, 0);
    }
  }

  lemma FirstOfAll(a: string, b: string, best: nat, end: nat)
    requires best <= end <= |a| && NoneEarlier(a, b, best, end)
    ensures forall s, p: nat | OccursAt(s, a, p) && |s| == best && p < end - best :: !Occurs(s, b)
  {
    forall s, p: nat | OccursAt(s, a, p) && |s| == best && p < end - best
      ensures !Occurs(s, b)
    {
      if Occurs(s, b) {
        var q: nat :| OccursAt(s, b, q);
        SuffixIsLongest(a, b, p + best, q + best, best);
      }
    }
  }
}
