/**
 * The services that the two orchestrators (the bot's analyze_url and the
 * demo's SecureQRLens.analyze) wire together. Each orchestrator sees its
 * stages as calls: the heuristics analyser, the redirect resolver, the
 * shortener test, the ML classifier when it loaded, and Yandex Safe Browsing.
 * Wire plugs in the heuristics and resolver modelled in their own modules;
 * the classifier and the Safe Browsing client stay opaque.
 */
module Oracles {
  import opened Wrappers
  import Urls
  import Heuristics
  import Redirects

  /** What MLClassifier.predict returns, without its timing: the predicted class label and one probability per class. */
  datatype Prediction = Prediction(verdict: string, probabilities: seq<real>)

  /** MLClassifier.predict: feature extraction, scaling and the pickled model behind one call. */
  type Classifier = string -> Prediction

  /** check_url_safety's result: `safe` is True, False or None, with the threat types and an error text. */
  datatype SafetyReport = SafetyReport(safe: Option<bool>, threats: seq<string>, error: Option<string>)

  /** check_url_safety(url, api_key). */
  type SafeBrowsing = (string, string) -> SafetyReport

  /**
   * The calls an analysis makes: heuristics.analyze, resolve_redirects with
   * its default depth, is_shortened_url, the classifier when it loaded, and
   * the Yandex key ("" when it is not configured) with the lookup it is
   * handed to.
   */
  datatype Services = Services(
    analyze: string -> Heuristics.Outcome,
    resolve: string -> Completion<Redirects.Resolution>,
    isShortened: string -> bool,
    classifier: Option<Classifier>,
    apiKey: string,
    safeBrowsing: SafeBrowsing)

  /** resolve_redirects is called with its default max_depth. */
  const MaxDepth: int := 5

  /** The services of the running system: the modelled heuristics analyser and resolver over a network. */
  function Wire(h: Heuristics.HeuristicsAnalyzer, log2: real -> real, net: Redirects.Network,
                classifier: Option<Classifier>, apiKey: string, safeBrowsing: SafeBrowsing): Services
  {
    Services(
      u => h.Decide(log2, u),
      u => Redirects.Resolve(net, Urls.Parse, u, MaxDepth),
      u => Redirects.IsShortenedUrl(u),
      classifier, apiKey, safeBrowsing)
  }

  /** Redirects are followed only for an http(s) link the shortener test accepts. */
  predicate ShouldResolve(s: Services, url: string)
  {
    Urls.IsWebUrl(url) && s.isShortened(url)
  }

  /** The redirect stage: the resolver's result for a shortened web link, the URL itself otherwise. */
  function Unshortened(s: Services, url: string): Completion<Redirects.Resolution>
  {
    if ShouldResolve(s, url) then s.resolve(url)
    else Returned(Redirects.Resolution([url], url, None))
  }

  /** A resolver that keeps the promises resolve_redirects makes about its chain. */
  ghost predicate ChainsFrom(s: Services)
  {
    forall u :: s.resolve(u).Returned? ==>
      1 <= |s.resolve(u).value.chain| && s.resolve(u).value.chain[0] == u &&
      s.resolve(u).value.finalUrl == Redirects.Last(s.resolve(u).value.chain)
  }

  /** The wired resolver keeps them: every chain starts at the URL given and ends on the final URL. */
  lemma WiredChains(h: Heuristics.HeuristicsAnalyzer, log2: real -> real, net: Redirects.Network,
                    classifier: Option<Classifier>, apiKey: string, safeBrowsing: SafeBrowsing)
    ensures ChainsFrom(Wire(h, log2, net, classifier, apiKey, safeBrowsing))
  {
    var s := Wire(h, log2, net, classifier, apiKey, safeBrowsing);
    forall u | s.resolve(u).Returned?
      ensures 1 <= |s.resolve(u).value.chain| && s.resolve(u).value.chain[0] == u &&
        s.resolve(u).value.finalUrl == Redirects.Last(s.resolve(u).value.chain)
    {
      Redirects.ResolveChain(net, Urls.Parse, u, MaxDepth);
    }
  }

  /** The redirect stage starts its chain at the scanned URL and ends on the URL that is analysed next. */
  lemma UnshortenedChain(s: Services, url: string)
    requires ChainsFrom(s)
    ensures var r := Unshortened(s, url);
      r.Returned? ==> 1 <= |r.value.chain| && r.value.chain[0] == url && r.value.finalUrl == Redirects.Last(r.value.chain)
  {
  }

  /** The largest of a non-empty sequence of probabilities. */
  function MaxOf(ps: seq<real>): (m: real)
    requires ps != []
    ensures exists i :: 0 <= i < |ps| && ps[i] == m
    ensures forall i :: 0 <= i < |ps| ==> ps[i] <= m
  {
    if |ps| == 1 then ps[0]
    else
      var t := MaxOf(ps[1..]);
      assert forall i :: 1 <= i < |ps| ==> ps[i] == ps[1..][i - 1];
      if ps[0] > t then ps[0] else t
  }

  /** max(probabilities.values()): the largest probability, or the ValueError max raises on an empty table. */
  function MaxProbability(ps: seq<real>): (r: Completion<real>)
    ensures r.Raised? <==> ps == []
    ensures r.Returned? ==> r.value in ps && forall p :: p in ps ==> p <= r.value
  {
    if ps == [] then Raised else Returned(MaxOf(ps))
  }
}
