/**
 * The heuristics analyser: six checks tried in a fixed order, the first that
 * fires deciding the verdict. The two whitelists it loads at start-up and the
 * optional IDNA codec are fields of the analyser; math.log2 is passed in.
 */
module Heuristics {
  import opened Wrappers
  import opened Text
  import Urls
  import Domains
  import Shannon
  import Levenshtein

  const MalwareExtensions: seq<string> := [".apk", ".exe", ".scr", ".bat", ".vbs"]
  const EntropyThreshold: real := 4.5
  const LevenshteinThreshold: nat := 2

  datatype Verdict = Safe | Suspicious | Danger | Unknown
  {
    function Name(): string
    {
      match this
      case Safe => "SAFE"
      case Suspicious => "SUSPICIOUS"
      case Danger => "DANGER"
      case Unknown => "UNKNOWN"
    }
  }

  /** What the details text of a verdict reports. */
  datatype Details =
    | SbpWhitelisted(domain: string)
    | MalwareExtension(extension: string)
    | DeepLink(scheme: string)
    | Homograph(domain: string, decoded: string)
    | Typosquatting(distance: nat, brand: string)
    | HighEntropy(entropy: real)
    | Undecided

  datatype Outcome = Outcome(verdict: Verdict, details: Details)

  /** The closest brand and its distance, as _check_typosquatting reports them. */
  datatype NearBrand = NearBrand(distance: nat, brand: string)

  /** idna.decode; None where it raises. */
  type Decoder = string -> Option<string>

  /** The character class [а-яА-ЯёЁ]. */
  predicate IsCyrillic(c: char)
  {
    '\U{0430}' <= c <= '\U{044F}' || '\U{0410}' <= c <= '\U{042F}' || c == '\U{0451}' || c == '\U{0401}'
  }

  predicate HasCyrillic(s: string)
  {
    exists i :: 0 <= i < |s| && IsCyrillic(s[i])
  }

  predicate HasLatin(s: string)
  {
    exists i :: 0 <= i < |s| && Urls.IsAsciiLetter(s[i])
  }

  /** A domain is covered by a whitelist entry when it is the entry or a subdomain of it. */
  predicate CoveredBy(domain: string, entry: string)
  {
    domain == entry || EndsWith(domain, "." + entry)
  }

  /** The first index at or after `k` of an entry of `ps` that `s` ends with. */
  function FirstSuffixFrom(s: string, ps: seq<string>, k: nat): (r: Option<nat>)
    ensures r.Some? ==> k <= r.value < |ps| && EndsWith(s, ps[r.value])
    ensures r.Some? ==> forall j :: k <= j < r.value ==> !EndsWith(s, ps[j])
    ensures r.None? ==> forall j :: k <= j < |ps| ==> !EndsWith(s, ps[j])
    decreases |ps| - k
  {
    if k >= |ps| then None
    else if EndsWith(s, ps[k]) then Some(k)
    else FirstSuffixFrom(s, ps, k + 1)
  }

  datatype HeuristicsAnalyzer = HeuristicsAnalyzer(
    sbpWhitelist: seq<string>,
    brandWhitelist: seq<string>,
    idna: Option<Decoder>)
  {
    /** The scan of the SBP whitelist from entry `k` on. */
    function SbpFrom(domain: string, k: nat): (r: bool)
      ensures r <==> exists j :: k <= j < |sbpWhitelist| && CoveredBy(domain, sbpWhitelist[j])
      decreases |sbpWhitelist| - k
    {
      if k >= |sbpWhitelist| then false
      else if CoveredBy(domain, sbpWhitelist[k]) then true
      else SbpFrom(domain, k + 1)
    }

    /** _check_sbp_whitelist. */
    function CheckSbpWhitelist(domain: string): bool
    {
      SbpFrom(domain, 0)
    }

    /** _check_malware_extension: the first listed extension the lowercased URL ends with. */
    function CheckMalwareExtension(url: string): (r: Option<string>)
      ensures r.Some? ==> r.value in MalwareExtensions && EndsWith(Lower(url), r.value)
      ensures r.None? <==> forall j :: 0 <= j < |MalwareExtensions| ==> !EndsWith(Lower(url), MalwareExtensions[j])
    {
      match FirstSuffixFrom(Lower(url), MalwareExtensions, 0)
      case None => None
      case Some(n) => Some(MalwareExtensions[n])
    }

    /** _check_deep_link. */
    function CheckDeepLink(url: string): Option<string>
    {
      Domains.DeepLinkScheme(url)
    }

    /**
     * _check_punycode: only for a URL holding "xn--" and when the codec is
     * present; the decoded domain counts when it holds a Cyrillic letter,
     * whether or not it also holds a Latin one.
     */
    function CheckPunycode(url: string, domain: string): Option<string>
    {
      if !Contains(Lower(url), "xn--") then None
      else
        match idna
        case None => None
        case Some(decode) =>
          match decode(domain)
          case None => None
          case Some(decoded) =>
            if HasCyrillic(decoded) && HasLatin(decoded) then Some(decoded)
            else if HasCyrillic(decoded) then Some(decoded)
            else None
    }

    /**
     * What _check_typosquatting reports: nothing when the cleaned domain is a
     * brand; otherwise the first brand at the least distance, when that
     * distance is 1 or 2.
     */
    function Typosquat(domain: string): Option<NearBrand>
    {
      var clean := RemoveAll(domain, "www.");
      if |brandWhitelist| == 0 || clean in brandWhitelist then None
      else
        var m := Levenshtein.MinDistance(clean, brandWhitelist);
        if 0 < m <= LevenshteinThreshold
        then Some(NearBrand(m, brandWhitelist[Levenshtein.FirstNearest(clean, brandWhitelist)]))
        else None
    }

    /** _check_typosquatting: the scan that stops at an exact brand and keeps the first strictly closer one. */
    method CheckTyposquatting(domain: string) returns (result: Option<NearBrand>)
      ensures result == Typosquat(domain)
    {
      var clean := RemoveAll(domain, "www.");
      var minDistance: Option<nat> := None;
      var closestBrand: Option<string> := None;
      for k := 0 to |brandWhitelist|
        invariant Scanned(clean, brandWhitelist, k, minDistance, closestBrand)
      {
        var brand := brandWhitelist[k];
        if clean == brand {
          assert clean in brandWhitelist;
          return None;
        }
        var dist := Levenshtein.LevenshteinDistance(clean, brand);
        ScanStep(clean, brandWhitelist, k, minDistance, closestBrand);
        if minDistance.None? || dist < minDistance.value {
          minDistance := Some(dist);
          closestBrand := Some(brand);
        }
      }
      ScanDone(domain, minDistance, closestBrand);
      if minDistance.Some? && 0 < minDistance.value <= LevenshteinThreshold {
        return Some(NearBrand(minDistance.value, closestBrand.value));
      }
      return None;
    }

    /** A scan done without an exact match reports what Typosquat says. */
    lemma ScanDone(domain: string, minDistance: Option<nat>, closestBrand: Option<string>)
      requires Scanned(RemoveAll(domain, "www."), brandWhitelist, |brandWhitelist|, minDistance, closestBrand)
      ensures Typosquat(domain) ==
        if minDistance.Some? && 0 < minDistance.value <= LevenshteinThreshold
        then Some(NearBrand(minDistance.value, closestBrand.value)) else None
    {
      assert brandWhitelist[..|brandWhitelist|] == brandWhitelist;
    }

    /** What _check_high_entropy reports: the entropy of the first label, when it exceeds 4.5. */
    function HighEntropyOf(log2: real -> real, domain: string): Option<real>
    {
      var e := Shannon.Entropy(log2, Domains.FirstLabel(domain));
      if e > EntropyThreshold then Some(e) else None
    }

    /** _check_high_entropy. */
    method CheckHighEntropy(log2: real -> real, domain: string) returns (result: Option<real>)
      ensures result == HighEntropyOf(log2, domain)
    {
      var parts := Split(domain, '.');
      var domainName := if |parts| > 1 then parts[0] else domain;
      var entropy := Shannon.CalculateEntropy(log2, domainName);
      if entropy > EntropyThreshold {
        return Some(entropy);
      }
      return None;
    }

    /** The outcome of analyze(url): the first check that fires decides it. */
    function Decide(log2: real -> real, url: string): Outcome
    {
      var domain := Domains.ExtractDomain(url);
      if CheckSbpWhitelist(domain) then Outcome(Safe, SbpWhitelisted(domain))
      else if CheckMalwareExtension(url).Some? then Outcome(Danger, MalwareExtension(CheckMalwareExtension(url).value))
      else if CheckDeepLink(url).Some? then Outcome(Suspicious, DeepLink(CheckDeepLink(url).value))
      else if CheckPunycode(url, domain).Some? && CheckPunycode(url, domain).value != ""
      then Outcome(Danger, Homograph(domain, CheckPunycode(url, domain).value))
      else if Typosquat(domain).Some?
      then Outcome(Danger, Typosquatting(Typosquat(domain).value.distance, Typosquat(domain).value.brand))
      else if HighEntropyOf(log2, domain).Some? then Outcome(Suspicious, HighEntropy(HighEntropyOf(log2, domain).value))
      else Outcome(Unknown, Undecided)
    }

    /** analyze(url), without its timing. */
    method Analyze(log2: real -> real, url: string) returns (outcome: Outcome)
      ensures outcome == Decide(log2, url)
    {
      var domain := Domains.ExtractDomain(url);
      if CheckSbpWhitelist(domain) {
        return Outcome(Safe, SbpWhitelisted(domain));
      }
      var malwareExt := CheckMalwareExtension(url);
      if malwareExt.Some? {
        return Outcome(Danger, MalwareExtension(malwareExt.value));
      }
      var deepLink := CheckDeepLink(url);
      if deepLink.Some? {
        return Outcome(Suspicious, DeepLink(deepLink.value));
      }
      var decoded := CheckPunycode(url, domain);
      if decoded.Some? && decoded.value != "" {
        return Outcome(Danger, Homograph(domain, decoded.value));
      }
      var typo := CheckTyposquatting(domain);
      if typo.Some? {
        return Outcome(Danger, Typosquatting(typo.value.distance, typo.value.brand));
      }
      var entropy := CheckHighEntropy(log2, domain);
      if entropy.Some? {
        return Outcome(Suspicious, HighEntropy(entropy.value));
      }
      return Outcome(Unknown, Undecided);
    }
  }

  /**
   * The state of the typosquatting scan after the first `k` brands: none was
   * the cleaned domain, and the minimum so far and the first brand reaching it
   * are held.
   */
  predicate Scanned(clean: string, bs: seq<string>, k: nat, minDistance: Option<nat>, closestBrand: Option<string>)
    requires k <= |bs|
  {
    clean !in bs[..k] &&
    (k == 0 ==> minDistance.None? && closestBrand.None?) &&
    (k > 0 ==> minDistance == Some(Levenshtein.MinDistance(clean, bs[..k])) &&
               closestBrand == Some(bs[Levenshtein.FirstNearest(clean, bs[..k])]))
  }

  /** Visiting one more brand that is not the cleaned domain keeps the scan state. */
  lemma ScanStep(clean: string, bs: seq<string>, k: nat, minDistance: Option<nat>, closestBrand: Option<string>)
    requires k < |bs| && clean != bs[k]
    requires Scanned(clean, bs, k, minDistance, closestBrand)
    ensures var dist := Levenshtein.Distance(clean, bs[k]);
      var better := minDistance.None? || dist < minDistance.value;
      Scanned(clean, bs, k + 1,
        if better then Some(dist) else minDistance,
        if better then Some(bs[k]) else closestBrand)
  {
    NearestStep(clean, bs, k);
    assert bs[..k + 1] == bs[..k] + [bs[k]];
  }

  /** One step of the typosquatting scan: how the minimum and the first nearest brand extend by one entry. */
  lemma NearestStep(s: string, bs: seq<string>, k: nat)
    requires k < |bs|
    ensures Levenshtein.MinDistance(s, bs[..k + 1]) ==
      if k == 0 || Levenshtein.Distance(s, bs[k]) < Levenshtein.MinDistance(s, bs[..k])
      then Levenshtein.Distance(s, bs[k]) else Levenshtein.MinDistance(s, bs[..k])
    ensures bs[Levenshtein.FirstNearest(s, bs[..k + 1])] ==
      if k == 0 || Levenshtein.Distance(s, bs[k]) < Levenshtein.MinDistance(s, bs[..k])
      then bs[k] else bs[Levenshtein.FirstNearest(s, bs[..k])]
  {
    assert bs[..k + 1][..k] == bs[..k];
    Levenshtein.NearestIsFirstMinimum(s, bs[..k + 1]);
    if k > 0 {
      Levenshtein.NearestIsFirstMinimum(s, bs[..k]);
    }
  }

  /** Decoded text with a Cyrillic letter is never empty, so the truth test on it never fails. */
  lemma PunycodeReportNonEmpty(a: HeuristicsAnalyzer, url: string, domain: string)
    requires a.CheckPunycode(url, domain).Some?
    ensures a.CheckPunycode(url, domain).value != ""
  {
  }

  /**
   * The Latin-letter test of _check_punycode changes nothing: the decoded
   * domain is reported exactly when it holds a Cyrillic letter.
   */
  lemma PunycodeIgnoresLatin(a: HeuristicsAnalyzer, url: string, domain: string)
    ensures a.CheckPunycode(url, domain) ==
      if Contains(Lower(url), "xn--") && a.idna.Some? && a.idna.value(domain).Some? && HasCyrillic(a.idna.value(domain).value)
      then a.idna.value(domain) else None
  {
  }

  /** Two suffixes of one length that a text both ends with are equal. */
  lemma SameLengthSuffixes(s: string, p: string, q: string)
    requires |p| == |q| && EndsWith(s, p) && EndsWith(s, q)
    ensures p == q
  {
    OccursAtSlice(s, p, |s| - |p|);
    OccursAtSlice(s, q, |s| - |q|);
  }

  /**
   * A URL ending in one of the listed extensions is reported with that very
   * extension, since all of them have four characters; and unless its domain
   * is whitelisted the verdict is DANGER.
   */
  lemma MalwareExtensionReported(a: HeuristicsAnalyzer, log2: real -> real, url: string, ext: string)
    requires ext in MalwareExtensions && EndsWith(Lower(url), ext)
    ensures a.CheckMalwareExtension(url) == Some(ext)
    ensures !a.CheckSbpWhitelist(Domains.ExtractDomain(url)) ==>
      a.Decide(log2, url) == Outcome(Danger, MalwareExtension(ext))
  {
    var r := a.CheckMalwareExtension(url);
    assert r.Some?;
    assert forall e :: e in MalwareExtensions ==> |e| == 4;
    SameLengthSuffixes(Lower(url), r.value, ext);
  }

  /** SAFE is given exactly to URLs whose domain is, or is a subdomain of, an SBP whitelist entry. */
  lemma SafeIffWhitelisted(a: HeuristicsAnalyzer, log2: real -> real, url: string)
    ensures a.Decide(log2, url).verdict == Safe <==>
      exists j :: 0 <= j < |a.sbpWhitelist| && CoveredBy(Domains.ExtractDomain(url), a.sbpWhitelist[j])
  {
  }

  /** UNKNOWN is given exactly when none of the six checks fires. */
  lemma UnknownIffNoCheckFires(a: HeuristicsAnalyzer, log2: real -> real, url: string)
    ensures var domain := Domains.ExtractDomain(url);
      a.Decide(log2, url).verdict == Unknown <==>
        !a.CheckSbpWhitelist(domain) && a.CheckMalwareExtension(url).None? && a.CheckDeepLink(url).None? &&
        a.CheckPunycode(url, domain).None? && a.Typosquat(domain).None? && a.HighEntropyOf(log2, domain).None?
  {
    var domain := Domains.ExtractDomain(url);
    if a.CheckPunycode(url, domain).Some? {
      PunycodeReportNonEmpty(a, url, domain);
    }
  }

  /** A deep link is never left UNKNOWN: unless whitelisted or a malware download, it is SUSPICIOUS with its scheme. */
  lemma DeepLinkIsSuspicious(a: HeuristicsAnalyzer, log2: real -> real, url: string)
    requires Domains.DeepLinkScheme(url).Some?
    ensures a.Decide(log2, url).verdict != Unknown
    ensures !a.CheckSbpWhitelist(Domains.ExtractDomain(url)) && a.CheckMalwareExtension(url).None? ==>
      a.Decide(log2, url) == Outcome(Suspicious, DeepLink(Domains.DeepLinkScheme(url).value))
  {
  }

  /**
   * Typosquatting is reported exactly when the cleaned domain is no brand but
   * lies within distance 2 of one; the brand reported is listed, at the least
   * distance, and the first such in list order.
   */
  lemma TyposquatMeaning(a: HeuristicsAnalyzer, domain: string)
    ensures var clean := RemoveAll(domain, "www.");
      a.Typosquat(domain).Some? <==>
        clean !in a.brandWhitelist &&
        exists b :: b in a.brandWhitelist && Levenshtein.Distance(clean, b) <= LevenshteinThreshold
    ensures var clean := RemoveAll(domain, "www."); var t := a.Typosquat(domain);
      t.Some? ==>
        exists n :: 0 <= n < |a.brandWhitelist| && a.brandWhitelist[n] == t.value.brand &&
          t.value.distance == Levenshtein.Distance(clean, t.value.brand) &&
          1 <= t.value.distance <= LevenshteinThreshold &&
          (forall i :: 0 <= i < |a.brandWhitelist| ==> t.value.distance <= Levenshtein.Distance(clean, a.brandWhitelist[i])) &&
          (forall i :: 0 <= i < n ==> t.value.distance < Levenshtein.Distance(clean, a.brandWhitelist[i]))
  {
    var clean := RemoveAll(domain, "www.");
    var bs := a.brandWhitelist;
    if |bs| > 0 {
      Levenshtein.NearestIsFirstMinimum(clean, bs);
      Levenshtein.MinDistanceZeroIffListed(clean, bs);
      var n := Levenshtein.FirstNearest(clean, bs);
      if clean !in bs && exists b :: b in bs && Levenshtein.Distance(clean, b) <= LevenshteinThreshold {
        var b :| b in bs && Levenshtein.Distance(clean, b) <= LevenshteinThreshold;
        var i :| 0 <= i < |bs| && bs[i] == b;
        assert Levenshtein.MinDistance(clean, bs) <= Levenshtein.Distance(clean, bs[i]);
      }
      if a.Typosquat(domain).Some? {
        assert bs[n] in bs;
      }
    }
  }

  /** The "0 <" half of the typosquatting guard never excludes anything: the exact match has returned earlier. */
  lemma TyposquatZeroGuardRedundant(a: HeuristicsAnalyzer, domain: string)
    requires |a.brandWhitelist| > 0 && RemoveAll(domain, "www.") !in a.brandWhitelist
    ensures Levenshtein.MinDistance(RemoveAll(domain, "www."), a.brandWhitelist) > 0
  {
    Levenshtein.MinDistanceZeroIffListed(RemoveAll(domain, "www."), a.brandWhitelist);
  }

  /** A high-entropy report carries the entropy of the text before the first dot, above 4.5. */
  lemma HighEntropyMeaning(a: HeuristicsAnalyzer, log2: real -> real, domain: string)
    ensures a.HighEntropyOf(log2, domain).Some? <==> Shannon.Entropy(log2, BeforeFirst(domain, ".")) > EntropyThreshold
    ensures a.HighEntropyOf(log2, domain).Some? ==>
      a.HighEntropyOf(log2, domain).value == Shannon.Entropy(log2, BeforeFirst(domain, "."))
  {
    Domains.FirstLabelIsBeforeDot(domain);
  }

  /** A homograph report names the extracted domain and what the codec decoded it to, which holds a Cyrillic letter. */
  lemma HomographMeaning(a: HeuristicsAnalyzer, log2: real -> real, url: string)
    requires a.Decide(log2, url).details.Homograph?
    ensures var o := a.Decide(log2, url).details;
      o.domain == Domains.ExtractDomain(url) && Contains(Lower(url), "xn--") &&
      a.idna.Some? && a.idna.value(o.domain) == Some(o.decoded) && HasCyrillic(o.decoded)
  {
    var domain := Domains.ExtractDomain(url);
    HomographPath(a, log2, url);
    PunycodeIgnoresLatin(a, url, domain);
  }

  /** A homograph outcome is the punycode check's result on the extracted domain. */
  lemma HomographPath(a: HeuristicsAnalyzer, log2: real -> real, url: string)
    requires a.Decide(log2, url).details.Homograph?
    ensures var domain := Domains.ExtractDomain(url);
      a.CheckPunycode(url, domain).Some? &&
      a.Decide(log2, url).details == Homograph(domain, a.CheckPunycode(url, domain).value)
  {
    var domain := Domains.ExtractDomain(url);
    assert !a.CheckSbpWhitelist(domain) by {
      if a.CheckSbpWhitelist(domain) { assert false; }
    }
    assert a.CheckMalwareExtension(url).None? by {
      if a.CheckMalwareExtension(url).Some? { assert false; }
    }
    assert a.CheckDeepLink(url).None? by {
      if a.CheckDeepLink(url).Some? { assert false; }
    }
  }

  /**
   * The converse of HomographMeaning: when the first three checks are silent,
   * a URL holding "xn--" whose domain the codec decodes to text with a
   * Cyrillic letter is DANGER, reported with that decoding.
   */
  lemma HomographIsDanger(a: HeuristicsAnalyzer, log2: real -> real, url: string)
    ensures var domain := Domains.ExtractDomain(url);
      !a.CheckSbpWhitelist(domain) && a.CheckMalwareExtension(url).None? && a.CheckDeepLink(url).None? &&
      Contains(Lower(url), "xn--") && a.idna.Some? && a.idna.value(domain).Some? &&
      HasCyrillic(a.idna.value(domain).value) ==>
        a.Decide(log2, url) == Outcome(Danger, Homograph(domain, a.idna.value(domain).value))
  {
    var domain := Domains.ExtractDomain(url);
    PunycodeIgnoresLatin(a, url, domain);
    if a.CheckPunycode(url, domain).Some? {
      PunycodeReportNonEmpty(a, url, domain);
    }
  }

  /**
   * When the first four checks are silent, a cleaned domain that is no brand
   * but lies within distance 2 of one is DANGER, reported with a listed brand
   * at the least distance.
   */
  lemma TyposquatIsDanger(a: HeuristicsAnalyzer, log2: real -> real, url: string)
    ensures var domain := Domains.ExtractDomain(url); var clean := RemoveAll(domain, "www.");
      var o := a.Decide(log2, url);
      !a.CheckSbpWhitelist(domain) && a.CheckMalwareExtension(url).None? && a.CheckDeepLink(url).None? &&
      a.CheckPunycode(url, domain).None? && clean !in a.brandWhitelist &&
      (exists b :: b in a.brandWhitelist && Levenshtein.Distance(clean, b) <= LevenshteinThreshold) ==>
        o.verdict == Danger && o.details.Typosquatting? && o.details.brand in a.brandWhitelist &&
        o.details.distance == Levenshtein.Distance(clean, o.details.brand) &&
        1 <= o.details.distance <= LevenshteinThreshold &&
        forall b :: b in a.brandWhitelist ==> o.details.distance <= Levenshtein.Distance(clean, b)
  {
    var domain := Domains.ExtractDomain(url);
    var clean := RemoveAll(domain, "www.");
    TyposquatMeaning(a, domain);
    var t := a.Typosquat(domain);
    if t.Some? {
      forall b | b in a.brandWhitelist ensures t.value.distance <= Levenshtein.Distance(clean, b) {
        var i :| 0 <= i < |a.brandWhitelist| && a.brandWhitelist[i] == b;
      }
    }
  }

  /**
   * When the first five checks are silent, a first label whose entropy
   * exceeds 4.5 makes the URL SUSPICIOUS, reported with that entropy.
   */
  lemma HighEntropyIsSuspicious(a: HeuristicsAnalyzer, log2: real -> real, url: string)
    ensures var domain := Domains.ExtractDomain(url); var e := Shannon.Entropy(log2, BeforeFirst(domain, "."));
      !a.CheckSbpWhitelist(domain) && a.CheckMalwareExtension(url).None? && a.CheckDeepLink(url).None? &&
      a.CheckPunycode(url, domain).None? && a.Typosquat(domain).None? && e > EntropyThreshold ==>
        a.Decide(log2, url) == Outcome(Suspicious, HighEntropy(e))
  {
    HighEntropyMeaning(a, log2, Domains.ExtractDomain(url));
  }
}
