/**
 * The pure-Python Levenshtein fallback that modules/heuristics.py and
 * modules/feature_extractor.py both define (identically) when the C library is
 * missing, proved equal to the textbook recursive edit distance, and the
 * "nearest entry of a list" search both modules run over the brand whitelist.
 */
module Levenshtein {

  function Min3(a: nat, b: nat, c: nat): nat
  {
    if a <= b && a <= c then a else if b <= c then b else c
  }

  /** Edit distance of two strings: the fewest single-character insertions, deletions and substitutions. */
  function Distance(s: string, t: string): nat
    decreases |s| + |t|
  {
    if |s| == 0 then |t|
    else if |t| == 0 then |s|
    else Min3(Distance(s[..|s| - 1], t) + 1,
              Distance(s, t[..|t| - 1]) + 1,
              Distance(s[..|s| - 1], t[..|t| - 1]) + (if s[|s| - 1] == t[|t| - 1] then 0 else 1))
  }

  /** The distance is symmetric, which is what makes the fallback's argument swap harmless. */
  lemma {:induction false} DistanceSymmetric(s: string, t: string)
    ensures Distance(s, t) == Distance(t, s)
    decreases |s| + |t|
  {
    if |s| > 0 && |t| > 0 {
      DistanceSymmetric(s[..|s| - 1], t);
      DistanceSymmetric(s, t[..|t| - 1]);
      DistanceSymmetric(s[..|s| - 1], t[..|t| - 1]);
    }
  }

  /** A string is at distance 0 from itself. */
  lemma {:induction false} DistanceToSelf(s: string)
    ensures Distance(s, s) == 0
    decreases |s|
  {
    if |s| > 0 {
      DistanceToSelf(s[..|s| - 1]);
    }
  }

  /** Distance 0 means the strings are equal, and only then. */
  lemma {:induction false} DistanceZeroIffEqual(s: string, t: string)
    ensures Distance(s, t) == 0 <==> s == t
    decreases |s| + |t|
  {
    if s == t {
      DistanceToSelf(s);
    } else if |s| > 0 && |t| > 0 {
      DistanceZeroIffEqual(s[..|s| - 1], t[..|t| - 1]);
    }
  }

  /** The distance never exceeds the longer length (substitute, then insert or delete). */
  lemma {:induction false} DistanceAtMostLonger(s: string, t: string)
    ensures Distance(s, t) <= if |s| >= |t| then |s| else |t|
    decreases |s| + |t|
  {
    if |s| > 0 && |t| > 0 {
      DistanceAtMostLonger(s[..|s| - 1], t[..|t| - 1]);
    }
  }

  /** One cell of the dynamic-programming table, in terms of the three cells it is computed from. */
  lemma DistanceStep(s1: string, s2: string, i: nat, j: nat)
    requires i < |s1| && j < |s2|
    ensures Distance(s1[..i + 1], s2[..j + 1])
         == Min3(Distance(s1[..i], s2[..j + 1]) + 1,
                 Distance(s1[..i + 1], s2[..j]) + 1,
                 Distance(s1[..i], s2[..j]) + (if s1[i] == s2[j] then 0 else 1))
  {
    assert s1[..i + 1][..i] == s1[..i];
    assert s2[..j + 1][..j] == s2[..j];
  }

  /** The next cell of a row from the three cells it depends on, given as values. */
  lemma CellValue(s1: string, s2: string, i: nat, j: nat, insertions: nat, deletions: nat, substitutions: nat)
    requires i < |s1| && j < |s2|
    requires insertions == Distance(s1[..i], s2[..j + 1]) + 1
    requires deletions == Distance(s1[..i + 1], s2[..j]) + 1
    requires substitutions == Distance(s1[..i], s2[..j]) + (if s1[i] != s2[j] then 1 else 0)
    ensures Min3(insertions, deletions, substitutions) == Distance(s1[..i + 1], s2[..j + 1])
  {
    DistanceStep(s1, s2, i, j);
  }

  /** The table's first row and column: the distance to an empty prefix is the other prefix's length. */
  lemma DistanceEdges(s1: string, s2: string, i: nat, j: nat)
    requires i <= |s1| && j <= |s2|
    ensures Distance(s1[..i], s2[..0]) == i && Distance(s1[..0], s2[..j]) == j
  {
  }

  /**
   * levenshtein_distance(s1, s2), the fallback: if s1 is the shorter string the
   * arguments are swapped; an empty second string gives the first one's length;
   * otherwise one row of the dynamic-programming table is rebuilt per character
   * of s1, and the last entry of the last row is the answer.
   */
  method LevenshteinDistance(s1: string, s2: string) returns (d: nat)
    ensures d == Distance(s1, s2)
    ensures s2 == "" ==> d == |s1|
    decreases if |s1| < |s2| then 1 else 0
  {
    if |s1| < |s2| {
      d := LevenshteinDistance(s2, s1);
      DistanceSymmetric(s2, s1);
      return;
    }
    if |s2| == 0 {
      return |s1|;
    }
    var previousRow: seq<nat> := seq(|s2| + 1, j requires 0 <= j <= |s2| => j);
    forall j | 0 <= j <= |s2| ensures previousRow[j] == Distance(s1[..0], s2[..j]) {
      DistanceEdges(s1, s2, 0, j);
    }
    var i := 0;
    while i < |s1|
      invariant 0 <= i <= |s1|
      invariant |previousRow| == |s2| + 1
      invariant forall j :: 0 <= j <= |s2| ==> previousRow[j] == Distance(s1[..i], s2[..j])
    {
      previousRow := NextRow(s1, s2, i, previousRow);
      i := i + 1;
    }
    assert s1[..|s1|] == s1 && s2[..|s2|] == s2;
    d := previousRow[|s2|];
  }

  /** One pass of the outer loop: the row of s1[..i + 1] built from the row of s1[..i]. */
  method NextRow(s1: string, s2: string, i: nat, previousRow: seq<nat>) returns (currentRow: seq<nat>)
    requires i < |s1| && |previousRow| == |s2| + 1
    requires forall j :: 0 <= j <= |s2| ==> previousRow[j] == Distance(s1[..i], s2[..j])
    ensures |currentRow| == |s2| + 1
    ensures forall j :: 0 <= j <= |s2| ==> currentRow[j] == Distance(s1[..i + 1], s2[..j])
  {
    var c1 := s1[i];
    DistanceEdges(s1, s2, i + 1, 0);
    currentRow := [i + 1];
    var j := 0;
    while j < |s2|
      invariant 0 <= j <= |s2|
      invariant |currentRow| == j + 1
      invariant forall k :: 0 <= k <= j ==> currentRow[k] == Distance(s1[..i + 1], s2[..k])
    {
      var c2 := s2[j];
      var insertions := previousRow[j + 1] + 1;
      var deletions := currentRow[j] + 1;
      var substitutions := previousRow[j] + (if c1 != c2 then 1 else 0);
      var cell := Min3(insertions, deletions, substitutions);
      CellValue(s1, s2, i, j, insertions, deletions, substitutions);
      currentRow := currentRow + [cell];
      j := j + 1;
    }
  }

  /** The smallest distance from `s` to an entry of the non-empty list `bs`. */
  function MinDistance(s: string, bs: seq<string>): nat
    requires |bs| > 0
  {
    if |bs| == 1 then Distance(s, bs[0])
    else
      var m := MinDistance(s, bs[..|bs| - 1]);
      var d := Distance(s, bs[|bs| - 1]);
      if d < m then d else m
  }

  /**
   * The index a scan of `bs` in list order settles on when it replaces the
   * current best only on a strictly smaller distance.
   */
  function FirstNearest(s: string, bs: seq<string>): (r: nat)
    requires |bs| > 0
    ensures r < |bs|
  {
    if |bs| == 1 then 0
    else if Distance(s, bs[|bs| - 1]) < MinDistance(s, bs[..|bs| - 1]) then |bs| - 1
    else FirstNearest(s, bs[..|bs| - 1])
  }

  /**
   * MinDistance is the minimum of the distances, and FirstNearest is the first
   * index, in list order, whose entry reaches it.
   */
  lemma {:induction false} NearestIsFirstMinimum(s: string, bs: seq<string>)
    requires |bs| > 0
    ensures FirstNearest(s, bs) < |bs|
    ensures Distance(s, bs[FirstNearest(s, bs)]) == MinDistance(s, bs)
    ensures forall i :: 0 <= i < |bs| ==> MinDistance(s, bs) <= Distance(s, bs[i])
    ensures forall i :: 0 <= i < FirstNearest(s, bs) ==> MinDistance(s, bs) < Distance(s, bs[i])
  {
    if |bs| > 1 {
      var init := bs[..|bs| - 1];
      NearestIsFirstMinimum(s, init);
      assert forall i :: 0 <= i < |init| ==> bs[i] == init[i];
    }
  }

  /** The minimum distance is 0 exactly when `s` is itself an entry. */
  lemma MinDistanceZeroIffListed(s: string, bs: seq<string>)
    requires |bs| > 0
    ensures MinDistance(s, bs) == 0 <==> s in bs
  {
    NearestIsFirstMinimum(s, bs);
    DistanceZeroIffEqual(s, bs[FirstNearest(s, bs)]);
    if s in bs {
      var i :| 0 <= i < |bs| && bs[i] == s;
      DistanceToSelf(s);
    }
  }
}
