/**
 * The Shannon entropy of a domain label, as both the feature extractor and the
 * heuristics analyser compute it: count every character, then subtract p *
 * log2(p) for each distinct character, in order of first appearance. The
 * logarithm is floating-point library code and is taken as a parameter.
 */
module Shannon {
  import opened Text

  /** The frequency table after counting the characters of `s` from left to right. */
  function Frequencies(s: string): map<char, nat>
  {
    if |s| == 0 then map[]
    else
      var f := Frequencies(s[..|s| - 1]);
      var c := s[|s| - 1];
      f[c := (if c in f then f[c] else 0) + 1]
  }

  /** The keys of that table in insertion order: each distinct character at its first appearance. */
  function Keys(s: string): seq<char>
  {
    if |s| == 0 then []
    else
      var ks := Keys(s[..|s| - 1]);
      if s[|s| - 1] in ks then ks else ks + [s[|s| - 1]]
  }

  /** The table holds exactly the characters of `s`, each with its number of occurrences. */
  lemma {:induction false} FrequenciesCount(s: string)
    ensures forall c :: c in Frequencies(s) <==> c in s
    ensures forall c :: c in Frequencies(s) ==> Frequencies(s)[c] == multiset(s)[c]
  {
    if |s| > 0 {
      var init := s[..|s| - 1];
      FrequenciesCount(init);
      assert s == init + [s[|s| - 1]];
    }
  }

  /** The keys are the characters of `s`, each listed once. */
  lemma {:induction false} KeysAreDistinctChars(s: string)
    ensures forall c :: c in Keys(s) <==> c in s
    ensures Distinct(Keys(s))
  {
    if |s| > 0 {
      var init := s[..|s| - 1];
      KeysAreDistinctChars(init);
      assert s == init + [s[|s| - 1]];
    }
  }

  lemma {:induction false} CountFromAll(s: string, cs: set<char>, k: nat)
    requires k <= |s|
    requires forall i :: k <= i < |s| ==> s[i] in cs
    ensures CountFrom(s, cs, k) == |s| - k
    decreases |s| - k
  {
    if k < |s| {
      CountFromAll(s, cs, k + 1);
    }
  }

  /** The counts of the distinct characters add up to the length of the text. */
  lemma CountsSumToLength(s: string)
    ensures SumOfCounts(s, Keys(s)) == |s|
  {
    KeysAreDistinctChars(s);
    SumOfCountsIsCount(s, Keys(s));
    CountFromAll(s, set c | c in Keys(s), 0);
  }

  /** p * log2(p) for the relative frequency p of `c` in the non-empty text `s`. */
  function Term(log2: real -> real, s: string, c: char): real
    requires |s| > 0
  {
    WeightedLog(log2, Ratio(multiset(s)[c], |s|))
  }

  function Ratio(count: nat, length: nat): real
    requires length > 0
  {
    count as real / length as real
  }

  /** p * log2(p). */
  function WeightedLog(log2: real -> real, p: real): real
  {
    p * log2(p)
  }

  /** 0.0 minus the terms of the characters `ks`, subtracted in order. */
  function EntropyOver(log2: real -> real, s: string, ks: seq<char>): real
    requires |s| > 0
  {
    if ks == [] then 0.0
    else EntropyOver(log2, s, ks[..|ks| - 1]) - Term(log2, s, ks[|ks| - 1])
  }

  /** The entropy of a text: 0.0 when it is empty. */
  function Entropy(log2: real -> real, s: string): real
  {
    if |s| == 0 then 0.0 else EntropyOver(log2, s, Keys(s))
  }

  /** One step of the counting pass: the next character bumps its count, and a new one joins the keys. */
  lemma CountStep(s: string, i: nat)
    requires i < |s|
    ensures var f := Frequencies(s[..i]); var c := s[i];
      Frequencies(s[..i + 1]) == f[c := (if c in f then f[c] else 0) + 1] &&
      Keys(s[..i + 1]) == if c in f then Keys(s[..i]) else Keys(s[..i]) + [c]
  {
    assert s[..i + 1][..i] == s[..i];
    FrequenciesCount(s[..i]);
    KeysAreDistinctChars(s[..i]);
  }

  /** The counting pass: freq[char] = freq.get(char, 0) + 1 for each character. */
  method CountCharacters(text: string) returns (freq: map<char, nat>, keys: seq<char>)
    ensures freq == Frequencies(text) && keys == Keys(text)
  {
    freq := map[];
    keys := [];
    for i := 0 to |text|
      invariant freq == Frequencies(text[..i]) && keys == Keys(text[..i])
    {
      var c := text[i];
      CountStep(text, i);
      if c !in freq {
        keys := keys + [c];
      }
      freq := freq[c := (if c in freq then freq[c] else 0) + 1];
    }
    assert text[..|text|] == text;
  }

  /** _calculate_entropy: a counting pass, then p * log2(p) subtracted for each entry of the table. */
  method CalculateEntropy(log2: real -> real, text: string) returns (entropy: real)
    ensures entropy == Entropy(log2, text)
  {
    if |text| == 0 {
      return 0.0;
    }
    var freq, keys := CountCharacters(text);
    FrequenciesCount(text);
    KeysAreDistinctChars(text);
    entropy := 0.0;
    var length := |text|;
    for k := 0 to |keys|
      invariant entropy == EntropyOver(log2, text, keys[..k])
    {
      EntropyStep(log2, text, keys, k);
      assert keys[k] in text;
      var count := freq[keys[k]];
      assert count == multiset(text)[keys[k]];
      var p := count as real / length as real;
      assert p == Ratio(count, length);
      entropy := entropy - WeightedLog(log2, p);
    }
    assert keys[..|keys|] == keys;
  }

  lemma EntropyStep(log2: real -> real, s: string, ks: seq<char>, k: nat)
    requires |s| > 0 && k < |ks|
    ensures EntropyOver(log2, s, ks[..k + 1]) == EntropyOver(log2, s, ks[..k]) - Term(log2, s, ks[k])
  {
    assert ks[..k + 1][..k] == ks[..k];
  }

  lemma TermNonPositive(log2: real -> real, s: string, c: char)
    requires |s| > 0 && c in s
    requires forall p :: 0.0 < p <= 1.0 ==> log2(p) <= 0.0
    ensures Term(log2, s, c) <= 0.0
  {
    var n := multiset(s)[c];
    assert 1 <= n <= |s| by {
      assert multiset(s)[c] <= |multiset(s)|;
    }
    var p := Ratio(n, |s|);
    assert 0.0 < p <= 1.0;
    var l := log2(p);
    assert l <= 0.0;
    assert p * l <= 0.0;
  }

  /** Every term is non-positive when log2 is non-positive on (0, 1], so the entropy is never negative. */
  lemma {:induction false} EntropyOverNonNegative(log2: real -> real, s: string, ks: seq<char>)
    requires |s| > 0 && forall c :: c in ks ==> c in s
    requires forall p :: 0.0 < p <= 1.0 ==> log2(p) <= 0.0
    ensures EntropyOver(log2, s, ks) >= 0.0
  {
    if ks != [] {
      EntropyOverNonNegative(log2, s, ks[..|ks| - 1]);
      TermNonPositive(log2, s, ks[|ks| - 1]);
    }
  }

  lemma EntropyNonNegative(log2: real -> real, s: string)
    requires forall p :: 0.0 < p <= 1.0 ==> log2(p) <= 0.0
    ensures Entropy(log2, s) >= 0.0
  {
    if |s| > 0 {
      KeysAreDistinctChars(s);
      EntropyOverNonNegative(log2, s, Keys(s));
    }
  }

  /** A text made of one repeated character has entropy 0 when log2(1) is 0. */
  lemma EntropyOfOneSymbol(log2: real -> real, s: string)
    requires |s| > 0 && forall i :: 0 <= i < |s| ==> s[i] == s[0]
    requires log2(1.0) == 0.0
    ensures Entropy(log2, s) == 0.0
  {
    OneSymbol(s, |s|);
    assert s[..|s|] == s;
    var ks := Keys(s);
    assert ks == [s[0]] && ks[..0] == [];
    var n := multiset(s)[s[0]];
    assert n == |s|;
    WholeRatio(|s|);
    assert Term(log2, s, s[0]) == WeightedLog(log2, 1.0) == 0.0;
    assert EntropyOver(log2, s, ks) == EntropyOver(log2, s, ks[..0]) - Term(log2, s, ks[0]);
    assert Entropy(log2, s) == EntropyOver(log2, s, ks);
  }

  /** A count that is the whole length gives the ratio 1. */
  lemma WholeRatio(n: nat)
    requires n > 0
    ensures Ratio(n, n) == 1.0
  {
    var x := n as real;
    assert x > 0.0;
    assert x / x == 1.0;
  }

  lemma {:induction false} OneSymbol(s: string, n: nat)
    requires 0 < n <= |s| && forall i :: 0 <= i < |s| ==> s[i] == s[0]
    ensures multiset(s[..n])[s[0]] == n && Keys(s[..n]) == [s[0]]
  {
    assert s[..n][..n - 1] == s[..n - 1];
    if n > 1 {
      OneSymbol(s, n - 1);
      assert s[..n] == s[..n - 1] + [s[n - 1]];
    } else {
      assert s[..1] == [s[0]];
    }
  }
}
