/**
 * The demo pipeline's SecureQRLens.analyze: the same stages as the bot's
 * analyze_url, recorded per stage. The heuristics' verdict and details are
 * kept as stage 1, the classifier's prediction as stage 2 when it is
 * consulted, and a resolver error is only printed, never stored. The timing
 * fields and the printing are left out.
 */
module Demo {
  import opened Wrappers
  import opened Text
  import Urls
  import Heuristics
  import Redirects
  import opened Oracles
  import Handlers

  /** final_details: the heuristics' details, the classifier's score, or the note that no model is loaded. */
  datatype FinalDetails =
    | FromHeuristics(details: Heuristics.Details)
    | FromModel(verdict: string, probability: real)
    | ModelNotLoaded

  /** The result record of SecureQRLens.analyze, without its timings; stage2 holds stage2_verdict and stage2_probabilities. */
  datatype DemoResult = DemoResult(
    url: string,
    redirectChain: seq<string>,
    finalUrl: string,
    stage1Verdict: Option<Heuristics.Verdict>,
    stage1Details: Option<Heuristics.Details>,
    stage2Used: bool,
    stage2: Option<Prediction>,
    reputation: Option<SafetyReport>,
    finalVerdict: Option<string>,
    finalDetails: Option<FinalDetails>)

  /** The record analyze starts from. */
  function Initial(url: string): DemoResult
  {
    DemoResult(url, [url], url, None, None, false, None, None, None, None)
  }

  /** Stage 2: the heuristics' verdict stands unless it is UNKNOWN; then the classifier, when it loaded. */
  function Decided(s: Services, r: DemoResult, o: Heuristics.Outcome): Completion<DemoResult>
  {
    if o.verdict != Heuristics.Unknown then
      Returned(r.(finalVerdict := Some(o.verdict.Name()), finalDetails := Some(FromHeuristics(o.details))))
    else
      match s.classifier
      case None => Returned(r.(finalVerdict := Some("UNKNOWN"), finalDetails := Some(ModelNotLoaded)))
      case Some(predict) =>
        var p := predict(r.finalUrl);
        match MaxProbability(p.probabilities)
        case Raised => Raised
        case Returned(m) =>
          Returned(r.(stage2Used := true, stage2 := Some(p), finalVerdict := Some(Upper(p.verdict)),
                      finalDetails := Some(FromModel(p.verdict, m))))
  }

  /** Stage 3: the Yandex lookup of the analysed URL, when a key is set and the URL is a web URL. */
  function Checked(s: Services, r: DemoResult): DemoResult
  {
    if s.apiKey != "" && Urls.IsWebUrl(r.finalUrl) then r.(reputation := Some(s.safeBrowsing(r.finalUrl, s.apiKey)))
    else r
  }

  /** SecureQRLens.analyze(url) as a value. */
  function Analysis(s: Services, url: string): Completion<DemoResult>
  {
    match Unshortened(s, url)
    case Raised => Raised
    case Returned(res) =>
      var o := s.analyze(res.finalUrl);
      var staged := Initial(url).(redirectChain := res.chain, finalUrl := res.finalUrl,
                                  stage1Verdict := Some(o.verdict), stage1Details := Some(o.details));
      match Decided(s, staged, o)
      case Raised => Raised
      case Returned(r) => Returned(Checked(s, r))
  }

  /** SecureQRLens.analyze: the result fields filled stage by stage. */
  method Analyze(s: Services, url: string) returns (outcome: Completion<DemoResult>)
    ensures outcome == Analysis(s, url)
  {
    var result := Initial(url);
    if Urls.IsWebUrl(url) && s.isShortened(url) {
      var redirect := s.resolve(url);
      if redirect.Raised? {
        return Raised;
      }
      result := result.(redirectChain := redirect.value.chain);
      result := result.(finalUrl := redirect.value.finalUrl);
    }
    var target := result.finalUrl;
    var heur := s.analyze(target);
    result := result.(stage1Verdict := Some(heur.verdict));
    result := result.(stage1Details := Some(heur.details));
    ghost var staged := result;

    if heur.verdict != Heuristics.Unknown {
      result := result.(finalVerdict := Some(heur.verdict.Name()));
      result := result.(finalDetails := Some(FromHeuristics(heur.details)));
    } else if s.classifier.Some? {
      var prediction := s.classifier.value(target);
      result := result.(stage2Used := true);
      result := result.(stage2 := Some(prediction));
      result := result.(finalVerdict := Some(Upper(prediction.verdict)));
      var maxProbability := MaxProbability(prediction.probabilities);
      if maxProbability.Raised? {
        return Raised;
      }
      result := result.(finalDetails := Some(FromModel(prediction.verdict, maxProbability.value)));
    } else {
      result := result.(finalVerdict := Some("UNKNOWN"));
      result := result.(finalDetails := Some(ModelNotLoaded));
    }
    assert Decided(s, staged, heur) == Returned(result);

    if s.apiKey != "" && Urls.IsWebUrl(target) {
      var report := s.safeBrowsing(target, s.apiKey);
      result := result.(reputation := Some(report));
    }
    return Returned(result);
  }

  /** Stage 1 is always the heuristics run on the URL the redirects end on. */
  lemma StageOneFromHeuristics(s: Services, url: string)
    requires ChainsFrom(s)
    ensures var a := Analysis(s, url);
      a.Returned? ==>
        Unshortened(s, url).Returned? && a.value.finalUrl == Unshortened(s, url).value.finalUrl &&
        a.value.redirectChain == Unshortened(s, url).value.chain &&
        a.value.redirectChain[0] == url && a.value.finalUrl == Redirects.Last(a.value.redirectChain) &&
        a.value.stage1Verdict == Some(s.analyze(a.value.finalUrl).verdict) &&
        a.value.stage1Details == Some(s.analyze(a.value.finalUrl).details)
  {
    UnshortenedChain(s, url);
  }

  /** The classifier is consulted exactly when stage 1 says UNKNOWN and a classifier is loaded. */
  lemma StageTwoUsedIff(s: Services, url: string)
    ensures var a := Analysis(s, url);
      a.Returned? ==>
        (a.value.stage2Used <==> a.value.stage1Verdict == Some(Heuristics.Unknown) && s.classifier.Some?) &&
        (a.value.stage2Used ==> a.value.stage2 == Some(s.classifier.value(a.value.finalUrl))) &&
        (!a.value.stage2Used ==> a.value.stage2.None?)
  {
  }

  /**
   * The final verdict: stage 1's when it is not UNKNOWN, else the
   * classifier's label upper-cased with its largest probability, else
   * UNKNOWN with no model loaded. An empty probability table makes max() raise.
   */
  lemma FinalVerdictCases(s: Services, url: string)
    ensures var a := Analysis(s, url);
      a.Returned? ==>
        var v := a.value.stage1Verdict.value;
        (v != Heuristics.Unknown ==>
          a.value.finalVerdict == Some(v.Name()) && a.value.finalDetails == Some(FromHeuristics(a.value.stage1Details.value))) &&
        (v == Heuristics.Unknown && s.classifier.Some? ==>
          var p := s.classifier.value(a.value.finalUrl);
          a.value.finalVerdict == Some(Upper(p.verdict)) &&
          a.value.finalDetails.value.FromModel? && a.value.finalDetails.value.verdict == p.verdict &&
          a.value.finalDetails.value.probability in p.probabilities &&
          forall q :: q in p.probabilities ==> q <= a.value.finalDetails.value.probability) &&
        (v == Heuristics.Unknown && s.classifier.None? ==>
          a.value.finalVerdict == Some("UNKNOWN") && a.value.finalDetails == Some(ModelNotLoaded))
    ensures var u := Unshortened(s, url);
      u.Returned? && s.analyze(u.value.finalUrl).verdict == Heuristics.Unknown && s.classifier.Some? ==>
        (Analysis(s, url).Raised? <==> s.classifier.value(u.value.finalUrl).probabilities == [])
  {
  }

  /** A resolution's result without its error. */
  function WithoutError(c: Completion<Redirects.Resolution>): Completion<Redirects.Resolution>
  {
    match c
    case Raised => Raised
    case Returned(res) => Returned(res.(error := None))
  }

  /** The resolver's error is not stored: a resolver that drops its errors gives the same result. */
  lemma ResolverErrorNotStored(s: Services, url: string)
    ensures Analysis(s.(resolve := u => WithoutError(s.resolve(u))), url) == Analysis(s, url)
  {
    var t := s.(resolve := u => WithoutError(s.resolve(u)));
    assert Unshortened(t, url) == WithoutError(Unshortened(s, url));
  }

  /** Redirects are resolved only for a shortened web link; any other link is analysed as scanned. */
  lemma NoResolutionUnlessShortened(s: Services, url: string)
    requires !ShouldResolve(s, url)
    ensures var a := Analysis(s, url);
      a.Returned? ==> a.value.redirectChain == [url] && a.value.finalUrl == url
  {
  }

  /** The Yandex lookup never changes the final verdict or any other field but its own. */
  lemma ReputationLeavesVerdict(s: Services, url: string, key: string, lookup: SafeBrowsing)
    ensures var a := Analysis(s, url);
      var b := Analysis(s.(apiKey := key, safeBrowsing := lookup), url);
      a.Raised? == b.Raised? &&
      (a.Returned? ==>
        b.value.(reputation := None) == a.value.(reputation := None) &&
        (b.value.reputation.Some? <==> key != "" && Urls.IsWebUrl(b.value.finalUrl)))
  {
    var t := s.(apiKey := key, safeBrowsing := lookup);
    assert Unshortened(t, url) == Unshortened(s, url);
    match Unshortened(s, url)
    case Raised =>
    case Returned(res) =>
      var o := s.analyze(res.finalUrl);
      var staged := Initial(url).(redirectChain := res.chain, finalUrl := res.finalUrl,
                                  stage1Verdict := Some(o.verdict), stage1Details := Some(o.details));
      assert Decided(t, staged, o) == Decided(s, staged, o);
  }

  /**
   * The demo and the bot agree: on the same services both complete or both
   * raise, and they report the same chain, analysed URL, verdict and
   * reputation.
   */
  lemma AgreesWithBot(s: Services, url: string)
    ensures var a := Analysis(s, url);
      var b := Handlers.Analysis(s, url);
      a.Raised? == b.Raised? &&
      (a.Returned? ==>
        a.value.redirectChain == b.value.redirectChain && a.value.finalUrl == b.value.finalUrl &&
        a.value.finalVerdict == b.value.verdict && a.value.reputation == b.value.reputation)
  {
    match Unshortened(s, url)
    case Raised =>
    case Returned(res) =>
      var r1 := Handlers.Initial(url).(redirectChain := res.chain, finalUrl := res.finalUrl,
                                       reasons := Handlers.Initial(url).reasons + Handlers.ErrorReasons(res.error));
      assert Handlers.Redirected(s, Handlers.Initial(url)) == Returned(r1);
  }
}
