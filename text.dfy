/**
 * String operations the URL pipeline relies on, stated as Python's str methods
 * behave on them: lower/upper, startswith/endswith, `in`, find, split, replace
 * and count. Searches walk an index over the string rather than slicing it.
 */
module Text {
  import opened Wrappers

  /** str.lower() on ASCII and basic Cyrillic letters; every other character is left alone. */
  function LowerChar(c: char): char
  {
    if 'A' <= c <= 'Z' || '\U{0410}' <= c <= '\U{042F}' then (c as int + 32) as char
    else if c == '\U{0401}' then '\U{0451}'
    else c
  }

  /** str.upper() on ASCII and basic Cyrillic letters; every other character is left alone. */
  function UpperChar(c: char): char
  {
    if 'a' <= c <= 'z' || '\U{0430}' <= c <= '\U{044F}' then (c as int - 32) as char
    else if c == '\U{0451}' then '\U{0401}'
    else c
  }

  function Lower(s: string): string
  {
    seq(|s|, i requires 0 <= i < |s| => LowerChar(s[i]))
  }

  function Upper(s: string): string
  {
    seq(|s|, i requires 0 <= i < |s| => UpperChar(s[i]))
  }

  /** Lowering twice is lowering once. */
  lemma LowerIdempotent(s: string)
    ensures Lower(Lower(s)) == Lower(s)
  {
  }

  /** Upper-casing a lowered string of the modelled letters gives the upper-cased original. */
  lemma UpperOfLower(s: string)
    ensures Upper(Lower(s)) == Upper(s)
  {
  }

  /** A string starts with any of its prefixes. */
  lemma PrefixStartsWith(a: string, b: string)
    ensures StartsWith(a + b, a)
  {
    OccursAtSlice(a + b, a, 0);
    assert (a + b)[..|a|] == a;
  }

  /** Lowering an upper-cased string gives the lowered original. */
  lemma LowerOfUpper(s: string)
    ensures Lower(Upper(s)) == Lower(s)
  {
  }

  /** p[m..] matches s from index k + m on, character by character. */
  predicate MatchFrom(s: string, p: string, k: nat, m: nat)
    requires k + |p| <= |s| && m <= |p|
    decreases |p| - m
  {
    m == |p| || (s[k + m] == p[m] && MatchFrom(s, p, k, m + 1))
  }

  lemma {:induction false} MatchFromPointwise(s: string, p: string, k: nat, m: nat)
    requires k + |p| <= |s| && m <= |p|
    ensures MatchFrom(s, p, k, m) <==> forall t :: m <= t < |p| ==> s[k + t] == p[t]
    decreases |p| - m
  {
    if m < |p| {
      MatchFromPointwise(s, p, k, m + 1);
    }
  }

  /** `p` occurs in `s` starting at index `k`. */
  predicate OccursAt(s: string, p: string, k: int)
  {
    0 <= k && k + |p| <= |s| && MatchFrom(s, p, k, 0)
  }

  /** An occurrence is a slice equal to the pattern. */
  lemma OccursAtSlice(s: string, p: string, k: int)
    ensures OccursAt(s, p, k) <==> 0 <= k && k + |p| <= |s| && s[k..k + |p|] == p
  {
    if 0 <= k && k + |p| <= |s| {
      MatchFromPointwise(s, p, k, 0);
      var w := s[k..k + |p|];
      assert forall t :: 0 <= t < |p| ==> w[t] == s[k + t];
    }
  }

  predicate StartsWith(s: string, prefix: string)
  {
    OccursAt(s, prefix, 0)
  }

  predicate EndsWith(s: string, suffix: string)
  {
    OccursAt(s, suffix, |s| - |suffix|)
  }

  /** The first index at or after `k` at which `p` occurs in `s`. */
  function IndexFrom(s: string, p: string, k: nat): (r: Option<nat>)
    ensures r.Some? ==> k <= r.value && OccursAt(s, p, r.value)
    ensures r.Some? ==> forall j :: k <= j < r.value ==> !OccursAt(s, p, j)
    ensures r.None? ==> forall j :: k <= j ==> !OccursAt(s, p, j)
    decreases |s| - k
  {
    if k + |p| > |s| then None
    else if OccursAt(s, p, k) then Some(k)
    else IndexFrom(s, p, k + 1)
  }

  /** str.find: the first index at which `p` occurs in `s`, if any. */
  function IndexOf(s: string, p: string): Option<nat>
  {
    IndexFrom(s, p, 0)
  }

  /** Python's `p in s` for strings. */
  predicate Contains(s: string, p: string)
  {
    IndexOf(s, p).Some?
  }

  /** A one-character string occurs exactly where that character stands. */
  lemma ContainsChar(s: string, c: char)
    ensures Contains(s, [c]) <==> c in s
  {
    if c in s {
      var i :| 0 <= i < |s| && s[i] == c;
      assert OccursAt(s, [c], i);
    }
    if Contains(s, [c]) {
      var i := IndexOf(s, [c]).value;
      assert OccursAt(s, [c], i);
    }
  }

  /** s.split(sep)[0]: the text before the first occurrence of `sep`, or all of `s`. */
  function BeforeFirst(s: string, sep: string): string
  {
    match IndexOf(s, sep)
    case None => s
    case Some(i) => s[..i]
  }

  /** The parts of s[k..] split at the character `c`. */
  function SplitFrom(s: string, c: char, k: nat): (parts: seq<string>)
    requires k <= |s|
    ensures |parts| >= 1
    decreases |s| - k
  {
    match IndexFrom(s, [c], k)
    case None => [s[k..]]
    case Some(i) => [s[k..i]] + SplitFrom(s, c, i + 1)
  }

  /** s.split(c) for a one-character separator. */
  function Split(s: string, c: char): seq<string>
  {
    SplitFrom(s, c, 0)
  }

  /** The first part of a split is the text before the first separator, and there is more than one part iff the separator occurs. */
  lemma SplitHead(s: string, c: char)
    ensures Split(s, c)[0] == BeforeFirst(s, [c])
    ensures |Split(s, c)| > 1 <==> c in s
  {
    ContainsChar(s, c);
  }

  /** Every part of a split is free of the separator. */
  lemma {:induction false} SplitPartsFree(s: string, c: char, k: nat)
    requires k <= |s|
    ensures forall n :: 0 <= n < |SplitFrom(s, c, k)| ==> c !in SplitFrom(s, c, k)[n]
    decreases |s| - k
  {
    var parts := SplitFrom(s, c, k);
    match IndexFrom(s, [c], k)
    case None =>
      if c in s[k..] {
        var j :| 0 <= j < |s[k..]| && s[k..][j] == c;
        assert OccursAt(s, [c], k + j);
      }
    case Some(i) =>
      SplitPartsFree(s, c, i + 1);
      forall n | 0 <= n < |parts| ensures c !in parts[n] {
        if n == 0 {
          if c in s[k..i] {
            var j :| 0 <= j < |s[k..i]| && s[k..i][j] == c;
            assert OccursAt(s, [c], k + j);
          }
        } else {
          assert parts[n] == SplitFrom(s, c, i + 1)[n - 1];
        }
      }
  }

  /** s[k..].replace(pat, ''), scanning left to right. */
  function RemoveFrom(s: string, pat: string, k: nat): (r: string)
    requires k <= |s|
    decreases |s| - k
  {
    if |pat| == 0 || k + |pat| > |s| then s[k..]
    else if OccursAt(s, pat, k) then RemoveFrom(s, pat, k + |pat|)
    else [s[k]] + RemoveFrom(s, pat, k + 1)
  }

  /** s.replace(pat, ''): every non-overlapping occurrence, scanning left to right, is removed. */
  function RemoveAll(s: string, pat: string): string
  {
    RemoveFrom(s, pat, 0)
  }

  /** A character that cannot start the pattern is kept. */
  lemma RemoveFromKeeps(s: string, pat: string, k: nat)
    requires k < |s| && |pat| > 0 && s[k] != pat[0]
    ensures RemoveFrom(s, pat, k) == [s[k]] + RemoveFrom(s, pat, k + 1)
  {
    if k + |pat| <= |s| {
      OccursAtSlice(s, pat, k);
      assert s[k..k + |pat|][0] == s[k];
    } else {
      assert s[k..] == [s[k]] + s[k + 1..];
    }
  }

  /** An occurrence of the pattern is dropped. */
  lemma RemoveFromDrops(s: string, pat: string, k: nat)
    requires |pat| > 0 && k + |pat| <= |s| && s[k..k + |pat|] == pat
    ensures RemoveFrom(s, pat, k) == RemoveFrom(s, pat, k + |pat|)
  {
    OccursAtSlice(s, pat, k);
  }

  lemma {:induction false} RemoveFromAbsent(s: string, pat: string, k: nat)
    requires k <= |s|
    requires forall j :: k <= j ==> !OccursAt(s, pat, j)
    ensures RemoveFrom(s, pat, k) == s[k..]
    decreases |s| - k
  {
    if |pat| == 0 || k + |pat| > |s| {
    } else {
      RemoveFromAbsent(s, pat, k + 1);
      assert s[k..] == [s[k]] + s[k + 1..];
    }
  }

  /** Removing a pattern that does not occur changes nothing. */
  lemma RemoveAllAbsent(s: string, pat: string)
    requires !Contains(s, pat)
    ensures RemoveAll(s, pat) == s
  {
    RemoveFromAbsent(s, pat, 0);
  }

  /** A leading occurrence is removed, and removal goes on over the rest. */
  lemma RemoveAllPrefix(pat: string, s: string)
    requires !Contains(s, pat)
    ensures RemoveAll(pat + s, pat) == s
  {
    var t := pat + s;
    if |pat| > 0 {
      OccursAtSlice(t, pat, 0);
      assert t[..|pat|] == pat;
      forall j | |pat| <= j ensures !OccursAt(t, pat, j) {
        OccursAtSlice(t, pat, j);
        OccursAtSlice(s, pat, j - |pat|);
        if j + |pat| <= |t| {
          assert t[j..j + |pat|] == s[j - |pat|..j - |pat| + |pat|];
        }
      }
      RemoveFromAbsent(t, pat, |pat|);
      assert t[|pat|..] == s;
    } else {
      assert false;
    }
  }

  /** Number of positions of s[k..] whose character is in `cs`. */
  function CountFrom(s: string, cs: set<char>, k: nat): nat
    requires k <= |s|
    decreases |s| - k
  {
    if k == |s| then 0 else (if s[k] in cs then 1 else 0) + CountFrom(s, cs, k + 1)
  }

  /** sum(s.count(c) for c in cs) over a list of characters. */
  function SumOfCounts(s: string, cs: seq<char>): nat
  {
    if cs == [] then 0 else multiset(s)[cs[0]] + SumOfCounts(s, cs[1..])
  }

  predicate Distinct(cs: seq<char>)
  {
    forall i, j :: 0 <= i < j < |cs| ==> cs[i] != cs[j]
  }

  lemma {:induction false} SumOfCountsSplit(s: string, k: nat, cs: seq<char>)
    requires k < |s|
    ensures SumOfCounts(s[k..], cs) == SumOfCounts([s[k]], cs) + SumOfCounts(s[k + 1..], cs)
  {
    if cs != [] {
      SumOfCountsSplit(s, k, cs[1..]);
      assert s[k..] == [s[k]] + s[k + 1..];
    }
  }

  lemma {:induction false} SumOfCountsOfOne(c: char, cs: seq<char>)
    requires Distinct(cs)
    ensures SumOfCounts([c], cs) == if c in cs then 1 else 0
  {
    if cs != [] {
      SumOfCountsOfOne(c, cs[1..]);
    }
  }

  lemma {:induction false} SumOfCountsEmpty(cs: seq<char>)
    ensures SumOfCounts("", cs) == 0
  {
    if cs != [] {
      SumOfCountsEmpty(cs[1..]);
    }
  }

  lemma {:induction false} SumOfCountsIsCountFrom(s: string, cs: seq<char>, k: nat)
    requires Distinct(cs) && k <= |s|
    ensures SumOfCounts(s[k..], cs) == CountFrom(s, (set c | c in cs), k)
    decreases |s| - k
  {
    if k == |s| {
      SumOfCountsEmpty(cs);
    } else {
      SumOfCountsSplit(s, k, cs);
      SumOfCountsOfOne(s[k], cs);
      SumOfCountsIsCountFrom(s, cs, k + 1);
    }
  }

  /** Summing per-character counts over distinct characters counts the positions holding any of them. */
  lemma SumOfCountsIsCount(s: string, cs: seq<char>)
    requires Distinct(cs)
    ensures SumOfCounts(s, cs) == CountFrom(s, (set c | c in cs), 0)
  {
    SumOfCountsIsCountFrom(s, cs, 0);
    assert s[0..] == s;
  }

  /** The text before the first occurrence of a character does not contain it. */
  lemma BeforeFirstFree(s: string, c: char)
    ensures c !in BeforeFirst(s, [c])
  {
    match IndexOf(s, [c])
    case None =>
      ContainsChar(s, c);
    case Some(i) =>
      if c in s[..i] {
        var j :| 0 <= j < i && s[..i][j] == c;
        assert OccursAt(s, [c], j);
      }
  }

  /**
   * The text before the first occurrence of a character is the prefix of `s`
   * that stops at that character, or at the end of `s` when it is absent.
   */
  lemma BeforeFirstEnds(s: string, c: char)
    ensures var d := BeforeFirst(s, [c]);
      |d| <= |s| && d == s[..|d|] && c !in d && (|d| == |s| || s[|d|] == c)
  {
    BeforeFirstFree(s, c);
    match IndexOf(s, [c])
    case None =>
    case Some(i) =>
      OccursAtSlice(s, [c], i);
      assert s[i] == s[i..i + 1][0];
  }

  /** BeforeFirst keeps a prefix of its input. */
  lemma BeforeFirstPrefix(s: string, sep: string)
    ensures |BeforeFirst(s, sep)| <= |s| && BeforeFirst(s, sep) == s[..|BeforeFirst(s, sep)|]
  {
  }

  /** Lowering keeps every character that is not a modelled letter, and creates none. */
  lemma LowerKeepsAbsent(s: string, c: char)
    requires LowerChar(c) == c && (forall d :: LowerChar(d) == c ==> d == c)
    ensures c in Lower(s) <==> c in s
  {
    if c in Lower(s) {
      var i :| 0 <= i < |Lower(s)| && Lower(s)[i] == c;
      assert LowerChar(s[i]) == c;
    }
    if c in s {
      var i :| 0 <= i < |s| && s[i] == c;
      assert Lower(s)[i] == c;
    }
  }

  /** A pattern occurs nowhere in `s` when one of its slices occurs nowhere. */
  lemma AbsentSlice(s: string, p: string, i: nat, j: nat)
    requires i <= j <= |p| && !Contains(s, p[i..j])
    ensures !Contains(s, p)
  {
    SliceContained(s, p, i, j);
  }

  /** Where a pattern occurs, each of its slices occurs too. */
  lemma SliceContained(s: string, p: string, i: nat, j: nat)
    requires i <= j <= |p|
    ensures Contains(s, p) ==> Contains(s, p[i..j])
  {
    if Contains(s, p) {
      var k := IndexOf(s, p).value;
      OccursAtSlice(s, p, k);
      assert s[k..k + |p|] == p;
      forall t | 0 <= t < j - i ensures s[k + i..k + j][t] == p[i..j][t] {
        assert s[k + i + t] == s[k..k + |p|][i + t];
      }
      assert s[k + i..k + j] == p[i..j];
      OccursAtSlice(s, p[i..j], k + i);
      assert OccursAt(s, p[i..j], k + i);
    }
  }

  /** A pattern occurs nowhere in `s` when one of its characters is missing from `s`. */
  lemma AbsentChar(s: string, p: string, i: nat)
    requires i < |p| && p[i] !in s
    ensures !Contains(s, p)
  {
    ContainsChar(s, p[i]);
    assert p[i..i + 1] == [p[i]];
    AbsentSlice(s, p, i, i + 1);
  }
}
