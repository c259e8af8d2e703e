/**
 * The feature extractor: the six numbers the ML classifier reads from a URL,
 * in the order of their names. The brand whitelist it loads at start-up is a
 * field of the extractor; math.log2 is passed in.
 */
module Features {
  import opened Wrappers
  import opened Text
  import Urls
  import Domains
  import Shannon
  import Levenshtein

  /** The characters counted by the special_chars feature. */
  const SpecialChars: seq<char> := ['-', '_', '@', '&', '=', '?', '%']

  const FeatureNames: seq<string> :=
    ["url_length", "dots_count", "special_chars", "has_ip", "entropy", "levenshtein_min"]

  /** The levenshtein_min feature when the brand whitelist is empty. */
  const NoBrandDistance: nat := 10

  /** The code point is one of the ten digits of the block starting at `zero`. */
  predicate DigitBlock(c: int, zero: int)
  {
    zero <= c <= zero + 9
  }

  /**
   * A decimal digit outside ASCII: the blocks of ten of Unicode general
   * category Nd (Unicode 15.0), each named by the code point of its zero.
   */
  predicate OtherDecimalDigit(c: int)
  {
    DigitBlock(c, 0x0660) || DigitBlock(c, 0x06F0) || DigitBlock(c, 0x07C0) || DigitBlock(c, 0x0966) || DigitBlock(c, 0x09E6) ||
    DigitBlock(c, 0x0A66) || DigitBlock(c, 0x0AE6) || DigitBlock(c, 0x0B66) || DigitBlock(c, 0x0BE6) || DigitBlock(c, 0x0C66) ||
    DigitBlock(c, 0x0CE6) || DigitBlock(c, 0x0D66) || DigitBlock(c, 0x0DE6) || DigitBlock(c, 0x0E50) || DigitBlock(c, 0x0ED0) ||
    DigitBlock(c, 0x0F20) || DigitBlock(c, 0x1040) || DigitBlock(c, 0x1090) || DigitBlock(c, 0x17E0) || DigitBlock(c, 0x1810) ||
    DigitBlock(c, 0x1946) || DigitBlock(c, 0x19D0) || DigitBlock(c, 0x1A80) || DigitBlock(c, 0x1A90) || DigitBlock(c, 0x1B50) ||
    DigitBlock(c, 0x1BB0) || DigitBlock(c, 0x1C40) || DigitBlock(c, 0x1C50) || DigitBlock(c, 0xA620) || DigitBlock(c, 0xA8D0) ||
    DigitBlock(c, 0xA900) || DigitBlock(c, 0xA9D0) || DigitBlock(c, 0xA9F0) || DigitBlock(c, 0xAA50) || DigitBlock(c, 0xABF0) ||
    DigitBlock(c, 0xFF10) || DigitBlock(c, 0x104A0) || DigitBlock(c, 0x10D30) || DigitBlock(c, 0x11066) || DigitBlock(c, 0x110F0) ||
    DigitBlock(c, 0x11136) || DigitBlock(c, 0x111D0) || DigitBlock(c, 0x112F0) || DigitBlock(c, 0x11450) || DigitBlock(c, 0x114D0) ||
    DigitBlock(c, 0x11650) || DigitBlock(c, 0x116C0) || DigitBlock(c, 0x11730) || DigitBlock(c, 0x118E0) || DigitBlock(c, 0x11950) ||
    DigitBlock(c, 0x11C50) || DigitBlock(c, 0x11D50) || DigitBlock(c, 0x11DA0) || DigitBlock(c, 0x11F50) || DigitBlock(c, 0x16A60) ||
    DigitBlock(c, 0x16AC0) || DigitBlock(c, 0x16B50) || DigitBlock(c, 0x1D7CE) || DigitBlock(c, 0x1D7D8) || DigitBlock(c, 0x1D7E2) ||
    DigitBlock(c, 0x1D7EC) || DigitBlock(c, 0x1D7F6) || DigitBlock(c, 0x1E140) || DigitBlock(c, 0x1E2F0) || DigitBlock(c, 0x1E4F0) ||
    DigitBlock(c, 0x1E950) || DigitBlock(c, 0x1FBF0)
  }

  /**
   * What `\d` matches in a str pattern compiled without re.ASCII: any Unicode
   * decimal digit, not only 0-9.
   */
  predicate IsDecimalDigit(c: char)
  {
    Urls.IsAsciiDigit(c) || (c as int >= 0x0660 && OtherDecimalDigit(c as int))
  }

  /** One to three decimal digits (`\d{1,3}`). */
  predicate IsOctetText(p: string)
  {
    1 <= |p| <= 3 && forall i :: 0 <= i < |p| ==> IsDecimalDigit(p[i])
  }

  /** Four groups of one to three digits joined by dots, and nothing else: the reading of the pattern by split. */
  predicate DottedQuad(d: string)
  {
    var parts := Split(d, '.');
    |parts| == 4 && forall n :: 0 <= n < 4 ==> IsOctetText(parts[n])
  }

  /** The number of decimal digits in a row starting at `k`. */
  function DigitRun(s: string, k: nat): (r: nat)
    requires k <= |s|
    ensures k + r <= |s|
    decreases |s| - k
  {
    if k < |s| && IsDecimalDigit(s[k]) then 1 + DigitRun(s, k + 1) else 0
  }

  /**
   * The pattern matched from `k` with `n` groups to go: `\d{1,3}` then a dot
   * for all but the last group, and the end of the text after the last. A
   * dot is no digit, so a group matches only its whole run of digits.
   */
  predicate GroupsFrom(s: string, k: nat, n: nat)
    requires k <= |s|
    decreases n
  {
    var r := DigitRun(s, k);
    1 <= r <= 3 &&
    if n <= 1 then k + r == |s|
    else k + r < |s| && s[k + r] == '.' && GroupsFrom(s, k + r + 1, n - 1)
  }

  /**
   * IP_PATTERN.match(d). The pattern's `$` also matches just before a final
   * newline, so four groups followed by one '\n' match too.
   */
  predicate MatchesIpPattern(d: string)
  {
    GroupsFrom(d, 0, 4) || (|d| > 0 && d[|d| - 1] == '\n' && GroupsFrom(d[..|d| - 1], 0, 4))
  }

  lemma {:induction false} DigitRunSpan(s: string, k: nat, j: nat)
    requires k <= j <= |s|
    requires forall i :: k <= i < j ==> IsDecimalDigit(s[i])
    requires j == |s| || !IsDecimalDigit(s[j])
    ensures DigitRun(s, k) == j - k
    decreases j - k
  {
    if k < j {
      DigitRunSpan(s, k + 1, j);
    }
  }

  lemma {:induction false} DigitRunDigits(s: string, k: nat)
    requires k <= |s|
    ensures forall i :: k <= i < k + DigitRun(s, k) ==> IsDecimalDigit(s[i])
    decreases |s| - k
  {
    if k < |s| && IsDecimalDigit(s[k]) {
      DigitRunDigits(s, k + 1);
    }
  }

  /** Scanning the groups from `k` agrees with splitting s[k..] at its dots. */
  lemma {:induction false} GroupsFromIsSplit(s: string, k: nat, n: nat)
    requires k <= |s| && n >= 1
    ensures GroupsFrom(s, k, n) <==>
      (|SplitFrom(s, '.', k)| == n && forall m :: 0 <= m < n ==> IsOctetText(SplitFrom(s, '.', k)[m]))
    decreases n, 1
  {
    match IndexFrom(s, ".", k)
    case None => GroupsWithoutDot(s, k, n);
    case Some(i) => GroupsBeforeDot(s, k, n, i);
  }

  lemma GroupsWithoutDot(s: string, k: nat, n: nat)
    requires k <= |s| && n >= 1 && IndexFrom(s, ".", k).None?
    ensures GroupsFrom(s, k, n) <==>
      (|SplitFrom(s, '.', k)| == n && forall m :: 0 <= m < n ==> IsOctetText(SplitFrom(s, '.', k)[m]))
  {
    var parts := SplitFrom(s, '.', k);
    var r := DigitRun(s, k);
    DigitRunDigits(s, k);
    assert parts == [s[k..]];
    if GroupsFrom(s, k, n) {
      if n > 1 {
        assert s[k + r..k + r + 1] == ".";
        OccursAtSlice(s, ".", k + r);
      } else {
        assert forall i :: 0 <= i < |s[k..]| ==> s[k..][i] == s[k + i];
        assert IsOctetText(s[k..]);
      }
    }
    if n == 1 && IsOctetText(s[k..]) {
      assert forall i :: k <= i < |s| ==> s[i] == s[k..][i - k];
      DigitRunSpan(s, k, |s|);
      assert GroupsFrom(s, k, n);
      assert forall m :: 0 <= m < n ==> parts[m] == s[k..];
    }
    if |parts| == n && forall m :: 0 <= m < n ==> IsOctetText(parts[m]) {
      assert IsOctetText(parts[0]);
    }
  }

  lemma {:induction false} GroupsBeforeDot(s: string, k: nat, n: nat, i: nat)
    requires k <= |s| && n >= 1 && IndexFrom(s, ".", k) == Some(i)
    ensures GroupsFrom(s, k, n) <==>
      (|SplitFrom(s, '.', k)| == n && forall m :: 0 <= m < n ==> IsOctetText(SplitFrom(s, '.', k)[m]))
    decreases n, 0
  {
    DotAt(s, k, i);
    SplitAtDot(s, k, i);
    var rest := SplitFrom(s, '.', i + 1);
    ShiftParts(SplitFrom(s, '.', k), s[k..i], rest, n);
    if n == 1 {
      LastGroupHasNoDot(s, k, i);
    } else {
      GroupsFromIsSplit(s, i + 1, n - 1);
      ScanAtDot(s, k, n, i);
    }
  }

  /** The last group runs to the end of the text, so it cannot be followed by a dot. */
  lemma LastGroupHasNoDot(s: string, k: nat, i: nat)
    requires k <= |s| && IndexFrom(s, ".", k) == Some(i)
    ensures !GroupsFrom(s, k, 1)
  {
    DotAt(s, k, i);
    if GroupsFrom(s, k, 1) {
      DigitRunDigits(s, k);
      assert false;
    }
  }

  /** With groups still to come, the scan takes the text before the first dot as a group and goes on after it. */
  lemma ScanAtDot(s: string, k: nat, n: nat, i: nat)
    requires k <= |s| && n > 1 && IndexFrom(s, ".", k) == Some(i)
    ensures i + 1 <= |s|
    ensures GroupsFrom(s, k, n) <==> IsOctetText(s[k..i]) && GroupsFrom(s, i + 1, n - 1)
  {
    DotAt(s, k, i);
    if GroupsFrom(s, k, n) {
      ScanGivesSplit(s, k, n, i);
    }
    if IsOctetText(s[k..i]) && GroupsFrom(s, i + 1, n - 1) {
      SplitGivesScan(s, k, i);
    }
  }

  /** The first dot from `k` stands at `i`. */
  lemma DotAt(s: string, k: nat, i: nat)
    requires IndexFrom(s, ".", k) == Some(i)
    ensures k <= i < |s| && s[i] == '.'
  {
    OccursAtSlice(s, ".", i);
    assert s[i] == s[i..i + 1][0];
  }

  /** Splitting at the first dot gives the text before it, then the parts after it. */
  lemma SplitAtDot(s: string, k: nat, i: nat)
    requires k <= |s| && IndexFrom(s, ".", k) == Some(i)
    ensures i + 1 <= |s| && SplitFrom(s, '.', k) == [s[k..i]] + SplitFrom(s, '.', i + 1)
  {
    DotAt(s, k, i);
  }

  /** n octets headed by `h` are `h` and then n - 1 octets. */
  lemma ShiftParts(parts: seq<string>, h: string, rest: seq<string>, n: nat)
    requires parts == [h] + rest && n >= 1
    ensures (|parts| == n && forall m :: 0 <= m < n ==> IsOctetText(parts[m])) <==>
      (IsOctetText(h) && |rest| == n - 1 && forall m :: 0 <= m < n - 1 ==> IsOctetText(rest[m]))
  {
    assert parts[0] == h;
    assert forall m :: 0 <= m < |rest| ==> rest[m] == parts[m + 1];
    if IsOctetText(h) && |rest| == n - 1 && forall m :: 0 <= m < n - 1 ==> IsOctetText(rest[m]) {
      forall m | 0 <= m < n ensures IsOctetText(parts[m]) {
        if m > 0 {
          assert parts[m] == rest[m - 1];
        }
      }
    }
  }

  /** A scan of several groups takes the digits up to the first dot as its first group. */
  lemma ScanGivesSplit(s: string, k: nat, n: nat, i: nat)
    requires k <= |s| && n > 1 && IndexFrom(s, ".", k) == Some(i) && GroupsFrom(s, k, n)
    ensures i == k + DigitRun(s, k) && IsOctetText(s[k..i]) && GroupsFrom(s, i + 1, n - 1)
  {
    var r := DigitRun(s, k);
    DigitRunDigits(s, k);
    assert s[k + r..k + r + 1] == ".";
    OccursAtSlice(s, ".", k + r);
    assert i == k + r;
    assert forall j :: 0 <= j < |s[k..i]| ==> s[k..i][j] == s[k + j];
  }

  /** When the text before the first dot is one to three digits, the digit run stops at that dot. */
  lemma SplitGivesScan(s: string, k: nat, i: nat)
    requires k <= |s| && IndexFrom(s, ".", k) == Some(i) && IsOctetText(s[k..i])
    ensures DigitRun(s, k) == i - k
  {
    assert s[i] == '.' && !IsDecimalDigit(s[i]);
    assert forall j :: k <= j < i ==> s[j] == s[k..i][j - k];
    DigitRunSpan(s, k, i);
  }

  /** The pattern scan and the split reading agree. */
  lemma GroupsAreDottedQuad(d: string)
    ensures GroupsFrom(d, 0, 4) <==> DottedQuad(d)
  {
    GroupsFromIsSplit(d, 0, 4);
  }

  /** The IP pattern accepts a dotted quad, or a dotted quad followed by one newline, and nothing else. */
  lemma IpPatternIsDottedQuad(d: string)
    ensures MatchesIpPattern(d) <==> DottedQuad(d) || (|d| > 0 && d[|d| - 1] == '\n' && DottedQuad(d[..|d| - 1]))
  {
    GroupsAreDottedQuad(d);
    if |d| > 0 {
      GroupsAreDottedQuad(d[..|d| - 1]);
    }
  }

  /** The levenshtein_min feature: the least distance to a brand, or 10 without brands. */
  function BrandDistance(clean: string, brands: seq<string>): nat
  {
    if |brands| == 0 then NoBrandDistance else Levenshtein.MinDistance(clean, brands)
  }

  /** The domain with every "www." removed. */
  function CleanDomain(domain: string): string
  {
    RemoveAll(domain, "www.")
  }

  datatype FeatureExtractor = FeatureExtractor(brandWhitelist: seq<string>)
  {
    /** The feature vector of a URL, component by component. */
    function FeatureVector(log2: real -> real, url: string): seq<real>
    {
      var domain := Domains.ExtractDomain(url);
      [ |url| as real / 200.0,
        multiset(domain)['.'] as real,
        SumOfCounts(url, SpecialChars) as real,
        if MatchesIpPattern(domain) then 1.0 else 0.0,
        Shannon.Entropy(log2, Domains.FirstLabel(domain)),
        BrandDistance(CleanDomain(domain), brandWhitelist) as real ]
    }

    /** The scan over the whitelist that keeps the smallest distance seen so far. */
    method MinBrandDistance(clean: string) returns (m: nat)
      ensures m == BrandDistance(clean, brandWhitelist)
    {
      var best: Option<nat> := None;
      for k := 0 to |brandWhitelist|
        invariant k == 0 <==> best.None?
        invariant k > 0 ==> best == Some(Levenshtein.MinDistance(clean, brandWhitelist[..k]))
      {
        var dist := Levenshtein.LevenshteinDistance(clean, brandWhitelist[k]);
        assert brandWhitelist[..k + 1][..k] == brandWhitelist[..k];
        if best.None? || dist < best.value {
          best := Some(dist);
        }
      }
      assert brandWhitelist[..|brandWhitelist|] == brandWhitelist;
      m := if best.Some? then best.value else NoBrandDistance;
    }

    /** extract(url). */
    method Extract(log2: real -> real, url: string) returns (features: seq<real>)
      ensures features == FeatureVector(log2, url)
    {
      var domain := Domains.ExtractDomain(url);
      var parts := Split(domain, '.');
      var domainName := if |parts| > 1 then parts[0] else domain;
      var cleanDomain := RemoveAll(domain, "www.");
      var minDist := MinBrandDistance(cleanDomain);
      var entropy := Shannon.CalculateEntropy(log2, domainName);
      features := [ |url| as real / 200.0,
                    multiset(domain)['.'] as real,
                    SumOfCounts(url, SpecialChars) as real,
                    if MatchesIpPattern(domain) then 1.0 else 0.0,
                    entropy,
                    minDist as real ];
    }
  }

  /** Cleaning removes every "www.", not only a leading one. */
  lemma CleanDomainRemovesEveryWww()
    ensures CleanDomain("www.login.www.sber.ru") == "login.sber.ru"
  {
    var d := "www.login.www.sber.ru";
    var w := "www.";
    assert d[18..] == ".ru";
    RemoveFromKeeps(d, w, 17);
    RemoveFromKeeps(d, w, 16);
    RemoveFromKeeps(d, w, 15);
    RemoveFromKeeps(d, w, 14);
    assert RemoveFrom(d, w, 14) == "sber.ru";
    assert d[10..14] == w;
    RemoveFromDrops(d, w, 10);
    RemoveFromKeeps(d, w, 9);
    RemoveFromKeeps(d, w, 8);
    RemoveFromKeeps(d, w, 7);
    RemoveFromKeeps(d, w, 6);
    RemoveFromKeeps(d, w, 5);
    RemoveFromKeeps(d, w, 4);
    assert RemoveFrom(d, w, 4) == "login.sber.ru";
    assert d[0..4] == w;
    RemoveFromDrops(d, w, 0);
  }

  /** get_feature_names() lists one name per component, in order. */
  lemma FeatureNamesMatchVector(fe: FeatureExtractor, log2: real -> real, url: string)
    ensures |fe.FeatureVector(log2, url)| == |FeatureNames| == 6
  {
  }

  /**
   * The counting components: dots_count counts the dots of the domain,
   * special_chars counts the positions of the URL holding one of the seven
   * special characters, and has_ip is a 0/1 flag.
   */
  lemma CountingFeatures(fe: FeatureExtractor, log2: real -> real, url: string)
    ensures var v := fe.FeatureVector(log2, url); var domain := Domains.ExtractDomain(url);
      v[1] == CountFrom(domain, {'.'}, 0) as real &&
      v[2] == CountFrom(url, set c | c in SpecialChars, 0) as real &&
      (v[3] == 1.0 <==> MatchesIpPattern(domain)) && (v[3] == 0.0 || v[3] == 1.0)
  {
    var domain := Domains.ExtractDomain(url);
    var v := fe.FeatureVector(log2, url);
    assert v[1] == multiset(domain)['.'] as real && v[2] == SumOfCounts(url, SpecialChars) as real &&
      v[3] == if MatchesIpPattern(domain) then 1.0 else 0.0;
    CharCountIsPositions(domain, '.');
    SpecialCountIsPositions(url);
  }

  lemma CharCountIsPositions(s: string, c: char)
    ensures multiset(s)[c] == CountFrom(s, {c}, 0)
  {
    SumOfCountsIsCount(s, [c]);
    assert (set d | d in [c]) == {c};
  }

  lemma SpecialCountIsPositions(url: string)
    ensures SumOfCounts(url, SpecialChars) == CountFrom(url, set c | c in SpecialChars, 0)
  {
    assert Distinct(SpecialChars);
    SumOfCountsIsCount(url, SpecialChars);
  }

  /** url_length is the length over 200 and is not capped at 1. */
  lemma LengthFeatureUncapped(fe: FeatureExtractor, log2: real -> real, url: string)
    ensures fe.FeatureVector(log2, url)[0] * 200.0 == |url| as real
    ensures |url| > 200 ==> fe.FeatureVector(log2, url)[0] > 1.0
  {
  }

  /**
   * levenshtein_min is 10 without brands; otherwise it is at most the distance
   * to every brand, and it is 0 exactly when the cleaned domain is a brand.
   */
  lemma BrandDistanceFeature(fe: FeatureExtractor, log2: real -> real, url: string)
    ensures var v := fe.FeatureVector(log2, url); var clean := CleanDomain(Domains.ExtractDomain(url));
      (|fe.brandWhitelist| == 0 ==> v[5] == 10.0) &&
      (|fe.brandWhitelist| > 0 ==>
        (v[5] == 0.0 <==> clean in fe.brandWhitelist) &&
        (exists b :: b in fe.brandWhitelist && v[5] == Levenshtein.Distance(clean, b) as real) &&
        forall b :: b in fe.brandWhitelist ==> v[5] <= Levenshtein.Distance(clean, b) as real)
  {
    var clean := CleanDomain(Domains.ExtractDomain(url));
    if |fe.brandWhitelist| > 0 {
      Levenshtein.NearestIsFirstMinimum(clean, fe.brandWhitelist);
      Levenshtein.MinDistanceZeroIffListed(clean, fe.brandWhitelist);
      var nearest := fe.brandWhitelist[Levenshtein.FirstNearest(clean, fe.brandWhitelist)];
      assert nearest in fe.brandWhitelist;
    }
  }

  /** The entropy component is that of the first label of the domain, and never negative. */
  lemma EntropyFeature(fe: FeatureExtractor, log2: real -> real, url: string)
    requires forall p :: 0.0 < p <= 1.0 ==> log2(p) <= 0.0
    ensures var v := fe.FeatureVector(log2, url);
      v[4] == Shannon.Entropy(log2, BeforeFirst(Domains.ExtractDomain(url), ".")) && v[4] >= 0.0
  {
    Domains.FirstLabelIsBeforeDot(Domains.ExtractDomain(url));
    Shannon.EntropyNonNegative(log2, Domains.FirstLabel(Domains.ExtractDomain(url)));
  }

  /** How the IP pattern reads: it checks the shape of the groups, not their values. */
  lemma IpPatternAcceptsDottedQuads()
    ensures MatchesIpPattern("192.168.1.1")
  {
    var d := "192.168.1.1";
    assert DigitRun(d, 10) == 1 && GroupsFrom(d, 10, 1);
    assert DigitRun(d, 8) == 1 && GroupsFrom(d, 8, 2);
    assert DigitRun(d, 4) == 3 && GroupsFrom(d, 4, 3);
    assert DigitRun(d, 0) == 3 && GroupsFrom(d, 0, 4);
  }

  lemma IpPatternIgnoresGroupValues()
    ensures MatchesIpPattern("999.999.999.999")
  {
    var d := "999.999.999.999";
    assert DigitRun(d, 12) == 3 && GroupsFrom(d, 12, 1);
    assert DigitRun(d, 8) == 3 && GroupsFrom(d, 8, 2);
    assert DigitRun(d, 4) == 3 && GroupsFrom(d, 4, 3);
    assert DigitRun(d, 0) == 3 && GroupsFrom(d, 0, 4);
  }

  lemma IpPatternAcceptsFinalNewline()
    ensures MatchesIpPattern("10.0.0.1\n")
  {
    var d := "10.0.0.1\n";
    assert d[..|d| - 1] == "10.0.0.1";
    var e := "10.0.0.1";
    assert DigitRun(e, 7) == 1 && GroupsFrom(e, 7, 1);
    assert DigitRun(e, 5) == 1 && GroupsFrom(e, 5, 2);
    assert DigitRun(e, 3) == 1 && GroupsFrom(e, 3, 3);
    assert DigitRun(e, 0) == 2 && GroupsFrom(e, 0, 4);
  }

  /** `\d` takes other scripts' decimal digits: an Arabic-Indic dotted quad matches. */
  lemma IpPatternAcceptsOtherDigits()
    ensures MatchesIpPattern("\U{0661}.\U{0662}.\U{0663}.\U{0664}")
  {
    var d := "\U{0661}.\U{0662}.\U{0663}.\U{0664}";
    assert DigitRun(d, 6) == 1 && GroupsFrom(d, 6, 1);
    assert DigitRun(d, 4) == 1 && GroupsFrom(d, 4, 2);
    assert DigitRun(d, 2) == 1 && GroupsFrom(d, 2, 3);
    assert DigitRun(d, 0) == 1 && GroupsFrom(d, 0, 4);
  }

  /** The Arabic percent sign right after the Arabic-Indic nine is no digit. */
  lemma IpPatternRejectsDigitLookalikes()
    ensures !MatchesIpPattern("\U{0661}.\U{0662}.\U{0663}.\U{066A}")
  {
    assert !IsDecimalDigit('\U{066A}');
  }

  lemma IpPatternRejectsGroupCounts()
    ensures !MatchesIpPattern("1.2.3")
    ensures !MatchesIpPattern("1.2.3.4.5")
  {
    var three := "1.2.3";
    assert DigitRun(three, 4) == 1 && !GroupsFrom(three, 4, 2);
    assert DigitRun(three, 2) == 1 && !GroupsFrom(three, 2, 3);
    var five := "1.2.3.4.5";
    assert DigitRun(five, 6) == 1 && !GroupsFrom(five, 6, 1);
    assert DigitRun(five, 4) == 1 && !GroupsFrom(five, 4, 2);
    assert DigitRun(five, 2) == 1 && !GroupsFrom(five, 2, 3);
  }

  lemma IpPatternRejectsWideGroups()
    ensures !MatchesIpPattern("1234.1.1.1")
  {
  }

  lemma IpPatternRejectsNames()
    ensures !MatchesIpPattern("sberbank.ru")
  {
  }
}
