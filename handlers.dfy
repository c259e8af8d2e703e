/**
 * The bot's analysis of one scanned URL and the reply it formats from it.
 * analyze_url fills a result record stage by stage: redirect resolution for
 * a shortened web link, the heuristics on the URL the redirects end on, the
 * ML classifier only when the heuristics cannot decide, and a Yandex Safe
 * Browsing lookup that is recorded beside the verdict. The timing field and
 * the Russian reason texts are left to the caller; reasons are values here.
 */
module Handlers {
  import opened Wrappers
  import opened Text
  import Urls
  import Heuristics
  import Redirects
  import opened Oracles

  /** One entry of result['reasons']. */
  datatype Reason =
    | RedirectFailure(error: Redirects.ResolveError)
    | Heuristic(details: Heuristics.Details)
    | MlScore(verdict: string, probability: real)
    | ModelUnavailable

  /** The result record of analyze_url, without time_sec. */
  datatype Report = Report(
    originalUrl: string,
    redirectChain: seq<string>,
    finalUrl: string,
    verdict: Option<string>,
    reasons: seq<Reason>,
    reputation: Option<SafetyReport>)

  /** The record analyze_url starts from. */
  function Initial(url: string): Report
  {
    Report(url, [url], url, None, [], None)
  }

  /**
   * `if redirect_result['error']`: the fixed error texts of the resolver are
   * never empty, but the text of a RequestException can be, and then nothing
   * is reported.
   */
  predicate Reported(e: Option<Redirects.ResolveError>)
  {
    e.Some? && (e.value.RequestError? ==> e.value.message != "")
  }

  function ErrorReasons(e: Option<Redirects.ResolveError>): seq<Reason>
  {
    if Reported(e) then [RedirectFailure(e.value)] else []
  }

  /** The redirect stage applied to the record. */
  function Redirected(s: Services, r: Report): Completion<Report>
  {
    match Unshortened(s, r.originalUrl)
    case Raised => Raised
    case Returned(res) =>
      Returned(r.(redirectChain := res.chain, finalUrl := res.finalUrl, reasons := r.reasons + ErrorReasons(res.error)))
  }

  /** The verdict stage: the heuristics decide unless they say UNKNOWN; then the classifier, when there is one. */
  function Judged(s: Services, r: Report): Completion<Report>
  {
    var o := s.analyze(r.finalUrl);
    if o.verdict != Heuristics.Unknown then
      Returned(r.(verdict := Some(o.verdict.Name()), reasons := r.reasons + [Heuristic(o.details)]))
    else
      match s.classifier
      case None => Returned(r.(verdict := Some("UNKNOWN"), reasons := r.reasons + [ModelUnavailable]))
      case Some(predict) =>
        var p := predict(r.finalUrl);
        match MaxProbability(p.probabilities)
        case Raised => Raised
        case Returned(m) => Returned(r.(verdict := Some(Upper(p.verdict)), reasons := r.reasons + [MlScore(p.verdict, m)]))
  }

  /** The reputation stage: a lookup of the analysed URL when a key is configured and the URL is a web URL. */
  function Checked(s: Services, r: Report): Report
  {
    if s.apiKey != "" && Urls.IsWebUrl(r.finalUrl) then r.(reputation := Some(s.safeBrowsing(r.finalUrl, s.apiKey)))
    else r
  }

  /** analyze_url(url) as a value: the three stages in order; an exception in any of them escapes. */
  function Analysis(s: Services, url: string): Completion<Report>
  {
    match Redirected(s, Initial(url))
    case Raised => Raised
    case Returned(r1) =>
      match Judged(s, r1)
      case Raised => Raised
      case Returned(r2) => Returned(Checked(s, r2))
  }

  /** analyze_url: the result record updated stage by stage. */
  method AnalyzeUrl(s: Services, url: string) returns (outcome: Completion<Report>)
    ensures outcome == Analysis(s, url)
  {
    var result := Initial(url);
    if Urls.IsWebUrl(url) && s.isShortened(url) {
      var redirect := s.resolve(url);
      if redirect.Raised? {
        return Raised;
      }
      result := result.(redirectChain := redirect.value.chain);
      result := result.(finalUrl := redirect.value.finalUrl);
      if Reported(redirect.value.error) {
        result := result.(reasons := result.reasons + [RedirectFailure(redirect.value.error.value)]);
      }
      assert result.reasons == Initial(url).reasons + ErrorReasons(redirect.value.error);
      assert Unshortened(s, url) == redirect;
    } else {
      assert Unshortened(s, url) == Returned(Redirects.Resolution([url], url, None));
      assert Initial(url).reasons + ErrorReasons(None) == [];
    }
    ghost var afterRedirects := result;
    assert Redirected(s, Initial(url)) == Returned(afterRedirects);

    var target := result.finalUrl;
    var heur := s.analyze(target);
    if heur.verdict != Heuristics.Unknown {
      result := result.(verdict := Some(heur.verdict.Name()));
      result := result.(reasons := result.reasons + [Heuristic(heur.details)]);
    } else if s.classifier.Some? {
      var prediction := s.classifier.value(target);
      result := result.(verdict := Some(Upper(prediction.verdict)));
      var maxProbability := MaxProbability(prediction.probabilities);
      if maxProbability.Raised? {
        return Raised;
      }
      result := result.(reasons := result.reasons + [MlScore(prediction.verdict, maxProbability.value)]);
    } else {
      result := result.(verdict := Some("UNKNOWN"));
      result := result.(reasons := result.reasons + [ModelUnavailable]);
    }
    assert Judged(s, afterRedirects) == Returned(result);

    if s.apiKey != "" && Urls.IsWebUrl(target) {
      var report := s.safeBrowsing(target, s.apiKey);
      result := result.(reputation := Some(report));
    }
    return Returned(result);
  }

  /** A link that is not a shortened web link is analysed as scanned: its chain is itself and one reason is given. */
  lemma NoResolutionUnlessShortened(s: Services, url: string)
    requires !ShouldResolve(s, url)
    ensures var a := Analysis(s, url);
      a.Returned? ==>
        a.value.originalUrl == url && a.value.redirectChain == [url] && a.value.finalUrl == url && |a.value.reasons| == 1
  {
  }

  /**
   * A shortened web link is analysed at the URL its redirects end on; the
   * chain is the resolver's, starting at the scanned URL, and a reported
   * resolver error comes first among exactly two reasons. An exception in the
   * resolver escapes.
   */
  lemma ResolutionFeedsAnalysis(s: Services, url: string)
    requires ShouldResolve(s, url) && ChainsFrom(s)
    ensures var res := s.resolve(url);
      var a := Analysis(s, url);
      (res.Raised? ==> a.Raised?) &&
      (res.Returned? && a.Returned? ==>
        a.value.redirectChain == res.value.chain && a.value.finalUrl == res.value.finalUrl &&
        a.value.redirectChain[0] == url && a.value.finalUrl == Redirects.Last(a.value.redirectChain) &&
        (|a.value.reasons| == 2 <==> Reported(res.value.error)) &&
        (Reported(res.value.error) ==> a.value.reasons[0] == RedirectFailure(res.value.error.value)))
  {
    UnshortenedChain(s, url);
  }

  /** The redirect stage ends on the URL the rest of the analysis looks at, and leaves verdict and reputation unset. */
  lemma RedirectStageShape(s: Services, url: string)
    requires ChainsFrom(s)
    ensures var red := Redirected(s, Initial(url));
      red.Returned? ==>
        red.value.verdict.None? && red.value.reputation.None? && red.value.originalUrl == url &&
        |red.value.redirectChain| >= 1 && red.value.redirectChain[0] == url &&
        red.value.finalUrl == Redirects.Last(red.value.redirectChain) && |red.value.reasons| <= 1
  {
    UnshortenedChain(s, url);
  }

  /**
   * When the heuristics decide, their verdict and details are the answer, and
   * whatever classifier is loaded (or none) the result is the same.
   */
  lemma HeuristicVerdictStands(s: Services, url: string, other: Option<Classifier>)
    ensures var red := Redirected(s, Initial(url));
      red.Returned? && s.analyze(red.value.finalUrl).verdict != Heuristics.Unknown ==>
        var o := s.analyze(red.value.finalUrl);
        var a := Analysis(s, url);
        a.Returned? && a.value.verdict == Some(o.verdict.Name()) &&
        a.value.reasons[|a.value.reasons| - 1] == Heuristic(o.details) &&
        Analysis(s.(classifier := other), url) == a
  {
    assert Redirected(s.(classifier := other), Initial(url)) == Redirected(s, Initial(url));
  }

  /**
   * When the heuristics say UNKNOWN, the classifier's label, upper-cased, is
   * the verdict; without a classifier the verdict stays UNKNOWN and the
   * reason says the model is unavailable. An empty probability table makes
   * max() raise.
   */
  lemma UnknownConsultsClassifier(s: Services, url: string)
    ensures var red := Redirected(s, Initial(url));
      red.Returned? && s.analyze(red.value.finalUrl).verdict == Heuristics.Unknown ==>
        var a := Analysis(s, url);
        var target := red.value.finalUrl;
        (s.classifier.None? ==>
          a.Returned? && a.value.verdict == Some("UNKNOWN") && a.value.reasons[|a.value.reasons| - 1] == ModelUnavailable) &&
        (s.classifier.Some? && s.classifier.value(target).probabilities == [] ==> a.Raised?) &&
        (s.classifier.Some? && s.classifier.value(target).probabilities != [] ==>
          var p := s.classifier.value(target);
          a.Returned? && a.value.verdict == Some(Upper(p.verdict)) &&
          a.value.reasons[|a.value.reasons| - 1].MlScore? &&
          a.value.reasons[|a.value.reasons| - 1].verdict == p.verdict &&
          a.value.reasons[|a.value.reasons| - 1].probability in p.probabilities &&
          forall q :: q in p.probabilities ==> q <= a.value.reasons[|a.value.reasons| - 1].probability)
  {
  }

  /** Every analysis that completes has a verdict, and names the stage that gave it in its last reason. */
  lemma VerdictAlwaysSet(s: Services, url: string)
    ensures var a := Analysis(s, url);
      a.Returned? ==>
        a.value.verdict.Some? && |a.value.reasons| >= 1 &&
        var last := a.value.reasons[|a.value.reasons| - 1];
        last.Heuristic? || last.MlScore? || last.ModelUnavailable?
  {
  }

  /**
   * The Yandex lookup changes nothing but the reputation field, whatever key
   * and lookup are configured; it is recorded exactly when the key is set and
   * the analysed URL is a web URL.
   */
  lemma ReputationLeavesVerdict(s: Services, url: string, key: string, lookup: SafeBrowsing)
    ensures var t := s.(apiKey := key, safeBrowsing := lookup);
      var a := Analysis(s, url);
      var b := Analysis(t, url);
      a.Raised? == b.Raised? &&
      (a.Returned? ==>
        b.value.(reputation := None) == a.value.(reputation := None) &&
        (b.value.reputation.Some? <==> key != "" && Urls.IsWebUrl(b.value.finalUrl)) &&
        (b.value.reputation.Some? ==> b.value.reputation.value == lookup(b.value.finalUrl, key)))
  {
    var t := s.(apiKey := key, safeBrowsing := lookup);
    assert Redirected(t, Initial(url)) == Redirected(s, Initial(url));
    match Redirected(s, Initial(url))
    case Raised =>
    case Returned(r1) =>
      assert Judged(t, r1) == Judged(s, r1);
      match Judged(s, r1)
      case Raised =>
      case Returned(r2) =>
        assert r2.reputation.None?;
  }

  /** One line of the reply format_response builds. */
  datatype Line =
    | Title
    | Extracted(url: string)
    | ChainHeader
    | ChainEntry(position: nat, url: string)
    | VerdictLine(text: string)
    | ReasonsHeader
    | ReasonEntry(reason: Reason)
    | NoThreats
    | Threats(types: seq<string>)
    | Unchecked(error: Option<string>)
    | Elapsed

  /** The verdicts format_response glosses. */
  const GlossedVerdicts: seq<string> := ["SAFE", "DANGER", "SUSPICIOUS"]

  /** The gloss after a known verdict. */
  function Gloss(name: string): string
  {
    if name == "SAFE" then " (безопасно)"
    else if name == "DANGER" then " (опасно)"
    else " (подозрительно)"
  }

  /** The verdict as shown to the user: SAFE, DANGER and SUSPICIOUS with a gloss, anything else as UNKNOWN. */
  function VerdictLabel(verdict: Option<string>): string
  {
    if verdict.Some? && verdict.value in GlossedVerdicts then verdict.value + Gloss(verdict.value) else "UNKNOWN"
  }

  /** The numbered chain, from 1. */
  function ChainEntries(chain: seq<string>): (ls: seq<Line>)
    ensures |ls| == |chain|
  {
    seq(|chain|, i requires 0 <= i < |chain| => ChainEntry(i + 1, chain[i]))
  }

  function ReasonEntries(reasons: seq<Reason>): (ls: seq<Line>)
    ensures |ls| == |reasons|
  {
    seq(|reasons|, i requires 0 <= i < |reasons| => ReasonEntry(reasons[i]))
  }

  function ChainBlock(chain: seq<string>): seq<Line>
  {
    if |chain| > 1 then [ChainHeader] + ChainEntries(chain) else []
  }

  function ReasonBlock(reasons: seq<Reason>): seq<Line>
  {
    if reasons != [] then [ReasonsHeader] + ReasonEntries(reasons) else []
  }

  /** The reputation line: `safe` True, False or None picks one of three. */
  function ReputationLine(sb: SafetyReport): Line
  {
    if sb.safe == Some(true) then NoThreats
    else if sb.safe == Some(false) then Threats(sb.threats)
    else Unchecked(sb.error)
  }

  function ReputationBlock(reputation: Option<SafetyReport>): seq<Line>
  {
    if reputation.Some? then [ReputationLine(reputation.value)] else []
  }

  /** The lines of the reply, in order. */
  function Formatted(r: Report): seq<Line>
  {
    Opening(r) + ChainBlock(r.redirectChain) + AfterChain(r)
  }

  /** The title and the extracted URL. */
  function Opening(r: Report): seq<Line>
  {
    [Title, Extracted(r.originalUrl)]
  }

  /** The lines after the chain block. */
  function AfterChain(r: Report): seq<Line>
  {
    [VerdictLine(VerdictLabel(r.verdict))] + Closing(r)
  }

  /** The lines after the verdict. */
  function Closing(r: Report): seq<Line>
  {
    ReasonBlock(r.reasons) + ReputationBlock(r.reputation) + [Elapsed]
  }

  /** format_response: the lines appended one by one ("\n".join and the text of each line are not modelled). */
  method FormatResponse(r: Report) returns (lines: seq<Line>)
    ensures lines == Formatted(r)
  {
    lines := [Title];
    lines := lines + [Extracted(r.originalUrl)];
    assert lines == Opening(r);
    lines := AppendChainBlock(lines, r.redirectChain);
    ghost var head := lines;
    lines := lines + [VerdictLine(VerdictLabel(r.verdict))];
    lines := AppendReasonBlock(lines, r.reasons);
    lines := AppendReputationBlock(lines, r.reputation);
    lines := lines + [Elapsed];
    Regroup(head, [VerdictLine(VerdictLabel(r.verdict))], ReasonBlock(r.reasons), ReputationBlock(r.reputation), [Elapsed]);
  }

  /** Appending five pieces one by one gives the same lines as grouping the last four. */
  lemma Regroup(h: seq<Line>, v: seq<Line>, a: seq<Line>, b: seq<Line>, e: seq<Line>)
    ensures h + v + a + b + e == h + (v + (a + b + e))
  {
  }

  /** The chain block: the header and the entries, only for a chain of more than one URL. */
  method AppendChainBlock(lines: seq<Line>, chain: seq<string>) returns (out: seq<Line>)
    ensures out == lines + ChainBlock(chain)
  {
    out := lines;
    if |chain| > 1 {
      out := out + [ChainHeader];
      out := AppendChain(out, chain);
    }
  }

  /** The reasons block: the header and the entries, only when there are reasons. */
  method AppendReasonBlock(lines: seq<Line>, reasons: seq<Reason>) returns (out: seq<Line>)
    ensures out == lines + ReasonBlock(reasons)
  {
    out := lines;
    if reasons != [] {
      out := out + [ReasonsHeader];
      out := AppendReasons(out, reasons);
    }
  }

  /** The reputation line, only when a reputation report is present. */
  method AppendReputationBlock(lines: seq<Line>, reputation: Option<SafetyReport>) returns (out: seq<Line>)
    ensures out == lines + ReputationBlock(reputation)
  {
    out := lines;
    if reputation.Some? {
      out := out + [ReputationLine(reputation.value)];
    }
  }

  /** The loop over enumerate(redirect_chain, 1). */
  method AppendChain(lines: seq<Line>, chain: seq<string>) returns (out: seq<Line>)
    ensures out == lines + ChainEntries(chain)
  {
    out := lines;
    for i := 0 to |chain|
      invariant out == lines + ChainEntries(chain)[..i]
    {
      assert ChainEntries(chain)[..i + 1] == ChainEntries(chain)[..i] + [ChainEntry(i + 1, chain[i])];
      out := out + [ChainEntry(i + 1, chain[i])];
    }
    assert ChainEntries(chain)[..|chain|] == ChainEntries(chain);
  }

  /** The loop over the reasons. */
  method AppendReasons(lines: seq<Line>, reasons: seq<Reason>) returns (out: seq<Line>)
    ensures out == lines + ReasonEntries(reasons)
  {
    out := lines;
    for i := 0 to |reasons|
      invariant out == lines + ReasonEntries(reasons)[..i]
    {
      assert ReasonEntries(reasons)[..i + 1] == ReasonEntries(reasons)[..i] + [ReasonEntry(reasons[i])];
      out := out + [ReasonEntry(reasons[i])];
    }
    assert ReasonEntries(reasons)[..|reasons|] == ReasonEntries(reasons);
  }

  /** The reply splits around the chain block, and no line outside it concerns the chain. */
  lemma ChainBlockPlace(r: Report)
    ensures |Formatted(r)| >= 2 + |ChainBlock(r.redirectChain)|
    ensures Formatted(r)[2..2 + |ChainBlock(r.redirectChain)|] == ChainBlock(r.redirectChain)
    ensures forall l :: l in Formatted(r) && (l.ChainEntry? || l.ChainHeader?) ==> l in ChainBlock(r.redirectChain)
  {
    var head := Opening(r);
    var block := ChainBlock(r.redirectChain);
    var tail := AfterChain(r);
    var f := Formatted(r);
    assert f[2..2 + |block|] == block by {
      forall t | 0 <= t < |block| ensures f[2..2 + |block|][t] == block[t] {
        assert f[2 + t] == (head + block)[2 + t];
      }
    }
    AfterChainHasNoChain(r);
    forall l | l in f && (l.ChainEntry? || l.ChainHeader?) ensures l in block {
      assert l in head || l in block || l in tail;
    }
  }

  lemma AfterChainHasNoChain(r: Report)
    ensures forall l :: l in AfterChain(r) ==> !l.ChainEntry? && !l.ChainHeader?
  {
    var reasons := ReasonBlock(r.reasons);
    assert forall l :: l in reasons ==> !l.ChainEntry? && !l.ChainHeader?;
    assert forall l :: l in Closing(r) ==> l in reasons || l in ReputationBlock(r.reputation) || l == Elapsed;
  }

  /** The chain header appears exactly when the chain has more than one URL. */
  lemma ChainListedOnlyAfterRedirect(r: Report)
    ensures ChainHeader in Formatted(r) <==> |r.redirectChain| > 1
  {
    ChainBlockPlace(r);
    if |r.redirectChain| > 1 {
      assert Formatted(r)[2] == ChainHeader;
    } else {
      assert ChainBlock(r.redirectChain) == [];
    }
  }

  /** Every chain line carries the URL of the chain at its position, counted from 1. */
  lemma ChainLinesFaithful(r: Report)
    ensures forall l :: l in Formatted(r) && l.ChainEntry? ==>
      |r.redirectChain| > 1 && 1 <= l.position <= |r.redirectChain| && l.url == r.redirectChain[l.position - 1]
  {
    ChainBlockPlace(r);
    EntriesFaithful(r.redirectChain);
    forall l | l in Formatted(r) && l.ChainEntry?
      ensures |r.redirectChain| > 1 && l in ChainEntries(r.redirectChain)
    {
      assert l in ChainBlock(r.redirectChain);
    }
  }

  /** Each numbered entry carries the URL at its position. */
  lemma EntriesFaithful(chain: seq<string>)
    ensures forall l :: l in ChainEntries(chain) ==> 1 <= l.position <= |chain| && l.url == chain[l.position - 1]
  {
    forall l | l in ChainEntries(chain) ensures 1 <= l.position <= |chain| && l.url == chain[l.position - 1] {
      var i :| 0 <= i < |chain| && ChainEntries(chain)[i] == l;
    }
  }

  /** A chain of more than one URL is listed in full, in order. */
  lemma ChainListedInFull(r: Report)
    requires |r.redirectChain| > 1
    ensures forall i :: 0 <= i < |r.redirectChain| ==> Formatted(r)[3 + i] == ChainEntry(i + 1, r.redirectChain[i])
  {
    ChainBlockPlace(r);
    var block := ChainBlock(r.redirectChain);
    var entries := ChainEntries(r.redirectChain);
    assert block == [ChainHeader] + entries;
    forall i | 0 <= i < |r.redirectChain| ensures Formatted(r)[3 + i] == ChainEntry(i + 1, r.redirectChain[i]) {
      assert Formatted(r)[3 + i] == Formatted(r)[2..2 + |block|][i + 1];
      assert block[i + 1] == entries[i];
    }
  }

  /** Exactly one verdict line, with the label of the verdict. */
  lemma OneVerdictLine(r: Report)
    ensures VerdictLine(VerdictLabel(r.verdict)) in Formatted(r)
    ensures forall l :: l in Formatted(r) && l.VerdictLine? ==> l == VerdictLine(VerdictLabel(r.verdict))
  {
    var head := Opening(r) + ChainBlock(r.redirectChain);
    var tail := Closing(r);
    assert forall l :: l in head ==> !l.VerdictLine?;
    assert forall l :: l in ReasonBlock(r.reasons) ==> !l.VerdictLine?;
    assert forall l :: l in tail ==> !l.VerdictLine?;
  }

  /**
   * The label names each verdict the heuristics give, the three alarming ones
   * with a gloss, so that none of them reads UNKNOWN.
   */
  lemma VerdictLabelNamesVerdict(v: Heuristics.Verdict)
    ensures StartsWith(VerdictLabel(Some(v.Name())), v.Name())
    ensures v != Heuristics.Unknown ==> VerdictLabel(Some(v.Name())) != "UNKNOWN"
  {
    var n := v.Name();
    if v == Heuristics.Unknown {
      assert VerdictLabel(Some(n)) == n + "";
      PrefixStartsWith(n, "");
    } else {
      assert n in GlossedVerdicts;
      PrefixStartsWith(n, Gloss(n));
      assert VerdictLabel(Some(n))[0] != 'U';
    }
  }

  /** Any other verdict, or none, is shown as UNKNOWN. */
  lemma OtherVerdictsUnknown(verdict: Option<string>)
    requires verdict.None? || verdict.value !in GlossedVerdicts
    ensures VerdictLabel(verdict) == "UNKNOWN"
  {
  }

  predicate IsReputationLine(l: Line)
  {
    l.NoThreats? || l.Threats? || l.Unchecked?
  }

  function CountReputationLines(ls: seq<Line>): nat
  {
    if ls == [] then 0
    else CountReputationLines(ls[..|ls| - 1]) + (if IsReputationLine(ls[|ls| - 1]) then 1 else 0)
  }

  lemma {:induction false} CountReputationAppend(a: seq<Line>, b: seq<Line>)
    ensures CountReputationLines(a + b) == CountReputationLines(a) + CountReputationLines(b)
    decreases |b|
  {
    if b != [] {
      assert (a + b)[..|a + b| - 1] == a + b[..|b| - 1];
      CountReputationAppend(a, b[..|b| - 1]);
    } else {
      assert a + b == a;
    }
  }

  lemma {:induction false} NoReputationLines(ls: seq<Line>)
    requires forall l :: l in ls ==> !IsReputationLine(l)
    ensures CountReputationLines(ls) == 0
  {
    if ls != [] {
      NoReputationLines(ls[..|ls| - 1]);
    }
  }

  /**
   * Exactly one reputation line when a lookup was recorded and none
   * otherwise: no threats when `safe` is True, the threat types when it is
   * False, the error when it is None.
   */
  lemma OneReputationLine(r: Report)
    ensures CountReputationLines(Formatted(r)) == if r.reputation.Some? then 1 else 0
    ensures r.reputation.Some? && r.reputation.value.safe == Some(true) ==> NoThreats in Formatted(r)
    ensures r.reputation.Some? && r.reputation.value.safe == Some(false) ==> Threats(r.reputation.value.threats) in Formatted(r)
    ensures r.reputation.Some? && r.reputation.value.safe.None? ==> Unchecked(r.reputation.value.error) in Formatted(r)
  {
    var head := Opening(r) + ChainBlock(r.redirectChain);
    var verdict := [VerdictLine(VerdictLabel(r.verdict))];
    var reasons := ReasonBlock(r.reasons);
    var rep := ReputationBlock(r.reputation);
    assert forall l :: l in head ==> !IsReputationLine(l);
    assert forall l :: l in reasons ==> !IsReputationLine(l);
    NoReputationLines(head);
    NoReputationLines(verdict);
    NoReputationLines(reasons);
    NoReputationLines([Elapsed]);
    CountReputationAppend(head, AfterChain(r));
    CountReputationAppend(verdict, Closing(r));
    CountReputationAppend(reasons + rep, [Elapsed]);
    CountReputationAppend(reasons, rep);
    if r.reputation.Some? {
      assert CountReputationLines(rep) == CountReputationLines([]) + 1;
    }
    assert Formatted(r) == head + (verdict + (reasons + rep + [Elapsed]));
  }
}
