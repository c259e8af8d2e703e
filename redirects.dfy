/**
 * The redirect resolver: a bounded walk along HTTP redirects that grows a
 * chain of URLs and stops on a repeat, and the shortener test that decides
 * whether the walk is worth taking. The network is a parameter: a function
 * from a URL to what a HEAD request for it yields.
 */
module Redirects {
  import opened Wrappers
  import opened Text
  import Urls

  /** The redirect status codes of section 15.4 of RFC 9110 that the resolver follows. */
  const RedirectCodes: set<int> := {301, 302, 303, 307, 308}

  const Shorteners: seq<string> := [
    "clck.ru", "vk.cc", "vk.me", "ok.me", "t.me", "ya.ru", "go.mail.ru",
    "bit.ly", "bitly.com", "goo.gl", "g.co", "t.co", "ow.ly",
    "tinyurl.com", "is.gd", "v.gd", "rebrand.ly", "short.io", "cutt.ly",
    "aka.ms", "amzn.to", "youtu.be", "fb.me", "instagr.am", "lnkd.in", "redd.it"]

  /** What one HEAD request yields: a response with its status and Location header, or the kind of failure raised. */
  datatype HopResponse =
    | Response(status: int, location: Option<string>)
    | Timeout
    | ConnectionFailure
    | RequestFailure(message: string)

  type Network = string -> HopResponse

  /** urlparse: the project's own model is Urls.Parse, which the pipeline passes in. */
  type Parser = string -> Option<Urls.Parsed>

  datatype ResolveError = CyclicRedirect | RequestTimeout | NetworkUnreachable | RequestError(message: string)

  /** The result dictionary: the chain, the final URL and the error, if any. */
  datatype Resolution = Resolution(chain: seq<string>, finalUrl: string, error: Option<ResolveError>)

  function Last(s: seq<string>): string
    requires |s| > 0
  {
    s[|s| - 1]
  }

  /** The next URL for a Location header: absolute http(s) as is, anything else appended to scheme://netloc. */
  function Join(p: Urls.Parsed, location: string): string
  {
    if Urls.IsWebUrl(location) then location
    else
      var base := p.scheme + "://" + p.netloc;
      if StartsWith(location, "/") then base + location else base + "/" + location
  }

  /** The HEAD request for `url`. */
  function Fetch(net: Network, url: string): HopResponse
  {
    net(url)
  }

  function ParseWith(parse: Parser, url: string): Option<Urls.Parsed>
  {
    parse(url)
  }

  /** `a` is fetched and answers with a redirect whose Location leads to `b`. */
  predicate Hop(net: Network, parse: Parser, a: string, b: string)
  {
    ParseWith(parse, a).Some? && ParseWith(parse, a).value.scheme in {"http", "https"} &&
    Fetch(net, a).Response? && Fetch(net, a).status in RedirectCodes &&
    Fetch(net, a).location.Some? && Fetch(net, a).location.value != "" &&
    b == Join(ParseWith(parse, a).value, Fetch(net, a).location.value)
  }

  /** What one iteration decides: stop with a result, or follow the redirect to `next`. */
  datatype Step = Stop(outcome: Completion<Resolution>) | Follow(next: string)

  /**
   * One iteration for the last URL of the chain, once it is known not to be a
   * repeat. Raised stands for the ValueError that urlparse raises and the
   * resolver does not catch; a response that is not a usable redirect ends
   * the loop with no error.
   */
  function Visit(net: Network, parse: Parser, chain: seq<string>): Step
    requires |chain| > 0
  {
    var current := Last(chain);
    match ParseWith(parse, current)
    case None => Stop(Raised)
    case Some(p) =>
      if p.scheme != "http" && p.scheme != "https" then Stop(Returned(Resolution(chain, current, None)))
      else
        match Fetch(net, current)
        case Timeout => Stop(Returned(Resolution(chain, current, Some(RequestTimeout))))
        case ConnectionFailure => Stop(Returned(Resolution(chain, current, Some(NetworkUnreachable))))
        case RequestFailure(m) => Stop(Returned(Resolution(chain, current, Some(RequestError(m)))))
        case Response(status, location) =>
          if status !in RedirectCodes || location.None? || location.value == "" then
            Stop(Returned(Resolution(chain, current, None)))
          else Follow(Join(p, location.value))
  }

  /** The rest of the walk with `fuel` iterations left, the chain so far and the URLs already requested. */
  function Run(net: Network, parse: Parser, fuel: nat, chain: seq<string>, visited: set<string>): Completion<Resolution>
    requires |chain| > 0
    decreases fuel
  {
    var current := Last(chain);
    if fuel == 0 then Returned(Resolution(chain, current, None))
    else if current in visited then Returned(Resolution(chain, current, Some(CyclicRedirect)))
    else
      match Visit(net, parse, chain)
      case Stop(outcome) => outcome
      case Follow(next) => Run(net, parse, fuel - 1, chain + [next], visited + {current})
  }

  function Budget(maxDepth: int): nat
  {
    if maxDepth > 0 then maxDepth else 0
  }

  /** resolve_redirects(url, max_depth) as a value. */
  function Resolve(net: Network, parse: Parser, url: string, maxDepth: int): Completion<Resolution>
  {
    Run(net, parse, Budget(maxDepth), [url], {})
  }

  /** resolve_redirects: the loop over depth; `requests` counts the HEAD requests it makes. */
  method ResolveRedirects(net: Network, parse: Parser, url: string, maxDepth: int) returns (r: Completion<Resolution>, ghost requests: nat)
    ensures r == Resolve(net, parse, url, maxDepth)
    ensures requests <= Budget(maxDepth)
  {
    var chain := [url];
    var currentUrl := url;
    var visited: set<string> := {};
    requests := 0;
    var depth := 0;
    ghost var fuel: nat := Budget(maxDepth);
    while depth < maxDepth
      invariant 0 <= depth <= Budget(maxDepth) && fuel == Budget(maxDepth) - depth
      invariant |chain| > 0 && currentUrl == Last(chain)
      invariant requests <= depth
      invariant Run(net, parse, fuel, chain, visited) == Resolve(net, parse, url, maxDepth)
    {
      if currentUrl in visited {
        r := Returned(Resolution(chain, Last(chain), Some(CyclicRedirect)));
        return;
      }
      ghost var requested := visited;
      visited := visited + {currentUrl};
      var step := VisitUrl(net, parse, chain);
      requests := requests + 1;
      match step {
        case Stop(outcome) =>
          r := outcome;
          return;
        case Follow(next) =>
          RunFollows(net, parse, fuel, chain, requested);
          chain := chain + [next];
          currentUrl := next;
      }
      depth := depth + 1;
      fuel := fuel - 1;
    }
    r := Returned(Resolution(chain, Last(chain), None));
  }

  /** The body of the loop for the last URL of the chain: parse, check the scheme, send HEAD, read the redirect. */
  method VisitUrl(net: Network, parse: Parser, chain: seq<string>) returns (step: Step)
    requires |chain| > 0
    ensures step == Visit(net, parse, chain)
  {
    var currentUrl := Last(chain);
    var parsed := ParseWith(parse, currentUrl);
    if parsed.None? {
      return Stop(Raised);
    }
    var p := parsed.value;
    if p.scheme != "http" && p.scheme != "https" {
      return Stop(Returned(Resolution(chain, currentUrl, None)));
    }
    var response := Fetch(net, currentUrl);
    match response {
      case Timeout =>
        return Stop(Returned(Resolution(chain, currentUrl, Some(RequestTimeout))));
      case ConnectionFailure =>
        return Stop(Returned(Resolution(chain, currentUrl, Some(NetworkUnreachable))));
      case RequestFailure(m) =>
        return Stop(Returned(Resolution(chain, currentUrl, Some(RequestError(m)))));
      case Response(status, location) =>
        if status in RedirectCodes && location.Some? && location.value != "" {
          var nextUrl := location.value;
          if !(StartsWith(nextUrl, "http://") || StartsWith(nextUrl, "https://")) {
            var base := p.scheme + "://" + p.netloc;
            nextUrl := if StartsWith(nextUrl, "/") then base + nextUrl else base + "/" + nextUrl;
          }
          return Follow(nextUrl);
        }
        return Stop(Returned(Resolution(chain, currentUrl, None)));
    }
  }

  /** A followed redirect: the walk goes on from the next URL with one iteration fewer. */
  lemma RunFollows(net: Network, parse: Parser, fuel: nat, chain: seq<string>, visited: set<string>)
    requires fuel > 0 && |chain| > 0 && Last(chain) !in visited && Visit(net, parse, chain).Follow?
    ensures Run(net, parse, fuel, chain, visited) == Run(net, parse, fuel - 1, chain + [Visit(net, parse, chain).next], visited + {Last(chain)})
  {
  }

  /** The URLs of the chain before its last one: exactly those a run has requested. */
  function Earlier(chain: seq<string>): set<string>
    requires |chain| > 0
  {
    set i | 0 <= i < |chain| - 1 :: chain[i]
  }

  /** No URL before the last one of the chain appears twice. */
  predicate NoRepeats(chain: seq<string>)
  {
    forall i, j :: 0 <= i < j < |chain| - 1 ==> chain[i] != chain[j]
  }

  /** Each URL of the chain redirects to the next. */
  predicate Hops(net: Network, parse: Parser, chain: seq<string>)
  {
    forall i :: 0 <= i < |chain| - 1 ==> Hop(net, parse, chain[i], chain[i + 1])
  }

  /** An iteration follows to `b` exactly when the last URL answers with a redirect to `b`. */
  lemma VisitFollowsIffHop(net: Network, parse: Parser, chain: seq<string>, b: string)
    requires |chain| > 0
    ensures Visit(net, parse, chain) == Follow(b) <==> Hop(net, parse, Last(chain), b)
  {
  }

  lemma EarlierStep(chain: seq<string>, next: string)
    requires |chain| > 0
    ensures Earlier(chain + [next]) == Earlier(chain) + {Last(chain)}
  {
    var c := chain + [next];
    forall u | u in Earlier(c) ensures u in Earlier(chain) + {Last(chain)} {
      var i :| 0 <= i < |c| - 1 && c[i] == u;
      if i < |chain| - 1 {
        assert chain[i] == u;
      }
    }
    forall u | u in Earlier(chain) + {Last(chain)} ensures u in Earlier(c) {
      if u == Last(chain) {
        assert c[|chain| - 1] == u;
      } else {
        var i :| 0 <= i < |chain| - 1 && chain[i] == u;
        assert c[i] == u;
      }
    }
  }

  /**
   * What any run returns: a chain that extends the one it started from by at
   * most one URL per iteration, each new URL reached by a redirect; the final
   * URL is the last of the chain; an error is reported only while iterations
   * remain, and a transport error names what the request for the last URL yielded.
   */
  lemma {:induction false} RunShape(net: Network, parse: Parser, fuel: nat, chain: seq<string>, visited: set<string>)
    requires |chain| > 0 && Hops(net, parse, chain)
    ensures var r := Run(net, parse, fuel, chain, visited);
      r.Returned? ==>
        var res := r.value;
        |chain| <= |res.chain| <= |chain| + fuel && res.chain[..|chain|] == chain &&
        res.finalUrl == Last(res.chain) && Hops(net, parse, res.chain) &&
        (res.error.Some? ==> |res.chain| < |chain| + fuel) &&
        (res.error == Some(RequestTimeout) ==> Fetch(net, Last(res.chain)) == Timeout) &&
        (res.error == Some(NetworkUnreachable) ==> Fetch(net, Last(res.chain)) == ConnectionFailure) &&
        (forall m :: res.error == Some(RequestError(m)) ==> Fetch(net, Last(res.chain)) == RequestFailure(m))
    decreases fuel
  {
    if fuel > 0 && Last(chain) !in visited && Visit(net, parse, chain).Follow? {
      var next := Visit(net, parse, chain).next;
      var c := chain + [next];
      VisitFollowsIffHop(net, parse, chain, next);
      assert Hops(net, parse, c) by {
        forall i | 0 <= i < |c| - 1 ensures Hop(net, parse, c[i], c[i + 1]) {
          if i < |chain| - 1 {
            assert c[i] == chain[i] && c[i + 1] == chain[i + 1];
          }
        }
      }
      RunShape(net, parse, fuel - 1, c, visited + {Last(chain)});
      var r := Run(net, parse, fuel - 1, c, visited + {Last(chain)});
      if r.Returned? {
        assert r.value.chain[..|chain|] == r.value.chain[..|c|][..|chain|];
      }
    }
  }

  /**
   * Started on a chain without repeats whose earlier URLs are the visited set,
   * a run requests no URL twice, and it reports a cyclic redirect exactly when
   * the last URL of its chain repeats an earlier one while iterations remain:
   * a repeat reached on the last iteration goes unreported.
   */
  lemma {:induction false} RunCycles(net: Network, parse: Parser, fuel: nat, chain: seq<string>, visited: set<string>)
    requires |chain| > 0 && visited == Earlier(chain) && NoRepeats(chain)
    ensures var r := Run(net, parse, fuel, chain, visited);
      r.Returned? && |r.value.chain| > 0 ==>
        var res := r.value;
        NoRepeats(res.chain) &&
        (res.error == Some(CyclicRedirect) <==>
          Last(res.chain) in Earlier(res.chain) && |res.chain| < |chain| + fuel)
    decreases fuel
  {
    RunShapeNoHops(net, parse, fuel, chain, visited);
    if fuel > 0 && Last(chain) !in visited && Visit(net, parse, chain).Follow? {
      var next := Visit(net, parse, chain).next;
      var c := chain + [next];
      EarlierStep(chain, next);
      assert NoRepeats(c) by {
        forall i, j | 0 <= i < j < |c| - 1 ensures c[i] != c[j] {
          if j < |chain| - 1 {
            assert c[i] == chain[i] && c[j] == chain[j];
          } else {
            assert c[j] == Last(chain) && c[i] == chain[i];
          }
        }
      }
      RunCycles(net, parse, fuel - 1, c, visited + {Last(chain)});
    }
  }

  /** The length and final-URL facts of RunShape, for chains of any origin. */
  lemma {:induction false} RunShapeNoHops(net: Network, parse: Parser, fuel: nat, chain: seq<string>, visited: set<string>)
    requires |chain| > 0
    ensures var r := Run(net, parse, fuel, chain, visited);
      r.Returned? ==>
        |chain| <= |r.value.chain| <= |chain| + fuel && r.value.finalUrl == Last(r.value.chain) &&
        (|r.value.chain| == |chain| + fuel ==> r.value.error.None?) &&
        (|r.value.chain| == |chain| ==> r.value.chain == chain)
    decreases fuel
  {
    if fuel > 0 && Last(chain) !in visited && Visit(net, parse, chain).Follow? {
      var next := Visit(net, parse, chain).next;
      RunShapeNoHops(net, parse, fuel - 1, chain + [next], visited + {Last(chain)});
    }
  }

  /**
   * resolve_redirects: the chain starts at the scanned URL, ends at the final
   * URL, holds at most max_depth + 1 URLs, each reached from the one before by
   * a redirect, and requests no URL twice; a cyclic redirect is reported
   * exactly when the last URL repeats an earlier one with iterations to spare,
   * and exhausting max_depth is not an error.
   */
  lemma ResolveChain(net: Network, parse: Parser, url: string, maxDepth: int)
    ensures var r := Resolve(net, parse, url, maxDepth);
      r.Returned? ==>
        var res := r.value;
        1 <= |res.chain| <= Budget(maxDepth) + 1 && res.chain[0] == url &&
        res.finalUrl == Last(res.chain) &&
        Hops(net, parse, res.chain) && NoRepeats(res.chain) &&
        (res.error == Some(CyclicRedirect) <==>
          Last(res.chain) in Earlier(res.chain) && |res.chain| <= Budget(maxDepth)) &&
        (|res.chain| == Budget(maxDepth) + 1 ==> res.error.None?)
  {
    assert Earlier([url]) == {};
    RunShape(net, parse, Budget(maxDepth), [url], {});
    RunShapeNoHops(net, parse, Budget(maxDepth), [url], {});
    RunCycles(net, parse, Budget(maxDepth), [url], {});
    var r := Resolve(net, parse, url, maxDepth);
    if r.Returned? {
      assert r.value.chain[0] == r.value.chain[..1][0];
    }
  }

  /** A transport error names what the HEAD request for the final URL yielded. */
  lemma ResolveErrors(net: Network, parse: Parser, url: string, maxDepth: int)
    ensures var r := Resolve(net, parse, url, maxDepth);
      r.Returned? ==>
        var res := r.value;
        (res.error == Some(RequestTimeout) ==> Fetch(net, res.finalUrl) == Timeout) &&
        (res.error == Some(NetworkUnreachable) ==> Fetch(net, res.finalUrl) == ConnectionFailure) &&
        (forall m :: res.error == Some(RequestError(m)) ==> Fetch(net, res.finalUrl) == RequestFailure(m))
  {
    RunShape(net, parse, Budget(maxDepth), [url], {});
  }

  /** A URL whose scheme is not http or https is its own chain, with no request made. */
  lemma NonWebUrlStaysPut(net: Network, parse: Parser, url: string, maxDepth: int)
    requires ParseWith(parse, url).Some? && ParseWith(parse, url).value.scheme !in {"http", "https"}
    ensures Resolve(net, parse, url, maxDepth) == Returned(Resolution([url], url, None))
  {
  }

  /** With max_depth at most 0 the loop never runs. */
  lemma NoDepthNoRequest(net: Network, parse: Parser, url: string, maxDepth: int)
    requires maxDepth <= 0
    ensures Resolve(net, parse, url, maxDepth) == Returned(Resolution([url], url, None))
  {
  }

  /** The ValueError of urlparse on the scanned URL leaves the resolver. */
  lemma UnparsableUrlRaises(net: Network, parse: Parser, url: string, maxDepth: int)
    requires maxDepth > 0 && ParseWith(parse, url).None?
    ensures Resolve(net, parse, url, maxDepth) == Raised
  {
  }

  /**
   * Two URLs that redirect to each other: with two iterations the walk comes
   * back to the first URL and stops without reporting the cycle; with three it
   * reports it on the same chain.
   */
  lemma CycleOnLastIterationUnreported(net: Network, parse: Parser, a: string, b: string)
    requires a != b && Hop(net, parse, a, b) && Hop(net, parse, b, a)
    ensures Resolve(net, parse, a, 2) == Returned(Resolution([a, b, a], a, None))
    ensures Resolve(net, parse, a, 3) == Returned(Resolution([a, b, a], a, Some(CyclicRedirect)))
  {
    VisitFollowsIffHop(net, parse, [a], b);
    VisitFollowsIffHop(net, parse, [a, b], a);
    assert [a] + [b] == [a, b] && [a, b] + [a] == [a, b, a];
    assert Run(net, parse, 2, [a], {}) == Run(net, parse, 1, [a, b], {a});
    assert Run(net, parse, 3, [a], {}) == Run(net, parse, 2, [a, b], {a});
    assert Run(net, parse, 2, [a, b], {a}) == Run(net, parse, 1, [a, b, a], {a, b});
  }

  /** any(s in host for s in shorteners[k:]). */
  predicate ShortenerFrom(host: string, k: nat)
    decreases |Shorteners| - k
  {
    k < |Shorteners| && (Contains(host, Shorteners[k]) || ShortenerFrom(host, k + 1))
  }

  lemma {:induction false} ShortenerFromMeaning(host: string, k: nat)
    ensures ShortenerFrom(host, k) <==> exists j :: k <= j < |Shorteners| && Contains(host, Shorteners[j])
    decreases |Shorteners| - k
  {
    if k < |Shorteners| {
      ShortenerFromMeaning(host, k + 1);
    }
  }

  /** The lowercased netloc holds one of the shorteners as a substring. */
  predicate IsShortenerHost(netloc: string)
  {
    ShortenerFrom(Lower(netloc), 0)
  }

  /** is_shortened_url: false when urlparse raises. */
  predicate IsShortenedUrl(url: string)
  {
    match Urls.Parse(url)
    case None => false
    case Some(p) => IsShortenerHost(p.netloc)
  }

  /** A URL counts as shortened exactly when it parses and its lowercased netloc contains a listed shortener. */
  lemma ShortenedMeaning(url: string)
    ensures IsShortenedUrl(url) <==>
      Urls.Parse(url).Some? && exists s :: s in Shorteners && Contains(Lower(Urls.Parse(url).value.netloc), s)
  {
    if Urls.Parse(url).Some? {
      var host := Lower(Urls.Parse(url).value.netloc);
      ShortenerFromMeaning(host, 0);
      if exists s :: s in Shorteners && Contains(host, s) {
        var s :| s in Shorteners && Contains(host, s);
        var j :| 0 <= j < |Shorteners| && Shorteners[j] == s;
      }
    }
  }

  /** A host containing the `n`-th shortener is a shortener host. */
  lemma ShortenerHostBy(host: string, n: nat)
    requires n < |Shorteners| && Contains(Lower(host), Shorteners[n])
    ensures IsShortenerHost(host)
  {
    ShortenerFromMeaning(Lower(host), 0);
  }

  /** The shortener hosts of the resolver's tests, in either case. */
  lemma ShortenerHosts(host: string)
    requires host in ["bit.ly", "clck.ru", "t.co", "tinyurl.com", "BIT.LY"]
    ensures IsShortenerHost(host)
  {
    if host == "bit.ly" || host == "BIT.LY" {
      assert Lower(host) == "bit.ly";
      ShortenerHostBy(host, 7);
    } else if host == "clck.ru" {
      ShortenerHostBy(host, 0);
    } else if host == "t.co" {
      ShortenerHostBy(host, 11);
    } else {
      ShortenerHostBy(host, 13);
    }
  }

  /** Matching is by substring, so a host that merely contains a shortener counts too. */
  lemma SubstringHosts(host: string)
    requires host in ["microsoft.com", "go.t.me.example"]
    ensures IsShortenerHost(host)
  {
    assert Lower(host) == host;
    if host == "microsoft.com" {
      assert OccursAt(host, "t.co", 8);
      ShortenerHostBy(host, 11);
    } else {
      assert OccursAt(host, "t.me", 3);
      ShortenerHostBy(host, 4);
    }
  }

  /** No two adjacent characters of `s` from index `k` on are `a` followed by `b`. */
  predicate NoPairFrom(s: string, a: char, b: char, k: nat)
    decreases |s| - k
  {
    k + 1 >= |s| || (!(s[k] == a && s[k + 1] == b) && NoPairFrom(s, a, b, k + 1))
  }

  lemma {:induction false} NoPairNowhere(s: string, a: char, b: char, k: nat, j: nat)
    requires NoPairFrom(s, a, b, k) && k <= j && j + 1 < |s|
    ensures !(s[j] == a && s[j + 1] == b)
    decreases j - k
  {
    if k < j {
      NoPairNowhere(s, a, b, k + 1, j);
    }
  }

  lemma NoPairAbsent(s: string, p: string, i: nat)
    requires i + 1 < |p| && NoPairFrom(s, p[i], p[i + 1], 0)
    ensures !Contains(s, p)
  {
    if Contains(s, p) {
      var k := IndexOf(s, p).value;
      OccursAtSlice(s, p, k);
      assert s[k + i] == p[i] && s[k + i + 1] == p[i + 1];
      NoPairNowhere(s, p[i], p[i + 1], 0, k + i);
    }
  }

  /** The shorteners from the `k`-th on are missing from the host when the `k`-th lacks a character of it and the rest are missing. */
  lemma SkipByChar(host: string, k: nat, i: nat)
    requires k < |Shorteners| && i < |Shorteners[k]| && Shorteners[k][i] !in host && !ShortenerFrom(host, k + 1)
    ensures !ShortenerFrom(host, k)
  {
    AbsentChar(host, Shorteners[k], i);
  }

  /** The same with a pair of adjacent characters of the `k`-th shortener that never stand side by side in the host. */
  lemma SkipByPair(host: string, k: nat, i: nat)
    requires k < |Shorteners| && i + 1 < |Shorteners[k]|
    requires NoPairFrom(host, Shorteners[k][i], Shorteners[k][i + 1], 0) && !ShortenerFrom(host, k + 1)
    ensures !ShortenerFrom(host, k)
  {
    NoPairAbsent(host, Shorteners[k], i);
  }

  /** Hosts of ordinary sites hold none of the shorteners. */
  lemma GoogleIsOrdinary(host: string)
    requires host == "google.com"
    ensures !IsShortenerHost(host)
  {
    assert Lower(host) == host;
    assert NoPairFrom(host, 'o', '.', 9) && NoPairFrom(host, 'g', '.', 9);
    assert NoPairFrom(host, 'o', '.', 8) && NoPairFrom(host, 'g', '.', 8);
    assert NoPairFrom(host, 'o', '.', 7) && NoPairFrom(host, 'g', '.', 7);
    assert NoPairFrom(host, 'o', '.', 6) && NoPairFrom(host, 'g', '.', 6);
    assert NoPairFrom(host, 'o', '.', 5) && NoPairFrom(host, 'g', '.', 5);
    assert NoPairFrom(host, 'o', '.', 4) && NoPairFrom(host, 'g', '.', 4);
    assert NoPairFrom(host, 'o', '.', 3) && NoPairFrom(host, 'g', '.', 3);
    assert NoPairFrom(host, 'o', '.', 2) && NoPairFrom(host, 'g', '.', 2);
    assert NoPairFrom(host, 'o', '.', 1) && NoPairFrom(host, 'g', '.', 1);
    assert NoPairFrom(host, 'o', '.', 0) && NoPairFrom(host, 'g', '.', 0);
    WithoutGoogleLetters(host);
  }

  lemma SberbankIsOrdinary(host: string)
    requires host == "sberbank.ru"
    ensures !IsShortenerHost(host)
  {
    assert Lower(host) == host;
    WithoutSberbankLetters(host);
  }

  lemma ExampleIsOrdinary(host: string)
    requires host == "example.com"
    ensures !IsShortenerHost(host)
  {
    assert Lower(host) == host;
    WithoutExampleLetters(host);
  }

  lemma WithoutGoogleLettersFrom23(host: string)
    requires 'k' !in host && 't' !in host && 'y' !in host && 'a' !in host && 'i' !in host && 'v' !in host && 'f' !in host
    ensures !ShortenerFrom(host, 23)
  {
    assert Shorteners[25][5] == 'i';
    SkipByChar(host, 25, 5);
    assert Shorteners[24][2] == 'k';
    SkipByChar(host, 24, 2);
    assert Shorteners[23][0] == 'i';
    SkipByChar(host, 23, 0);
  }

  lemma WithoutGoogleLettersFrom20(host: string)
    requires 'k' !in host && 't' !in host && 'y' !in host && 'a' !in host && 'i' !in host && 'v' !in host && 'f' !in host
    ensures !ShortenerFrom(host, 20)
  {
    WithoutGoogleLettersFrom23(host);
    assert Shorteners[22][0] == 'f';
    SkipByChar(host, 22, 0);
    assert Shorteners[21][0] == 'y';
    SkipByChar(host, 21, 0);
    assert Shorteners[20][0] == 'a';
    SkipByChar(host, 20, 0);
  }

  lemma WithoutGoogleLettersFrom17(host: string)
    requires 'k' !in host && 't' !in host && 'y' !in host && 'a' !in host && 'i' !in host && 'v' !in host && 'f' !in host
    ensures !ShortenerFrom(host, 17)
  {
    WithoutGoogleLettersFrom20(host);
    assert Shorteners[19][0] == 'a';
    SkipByChar(host, 19, 0);
    assert Shorteners[18][2] == 't';
    SkipByChar(host, 18, 2);
    assert Shorteners[17][4] == 't';
    SkipByChar(host, 17, 4);
  }

  lemma WithoutGoogleLettersFrom14(host: string)
    requires 'k' !in host && 't' !in host && 'y' !in host && 'a' !in host && 'i' !in host && 'v' !in host && 'f' !in host
    ensures !ShortenerFrom(host, 14)
  {
    WithoutGoogleLettersFrom17(host);
    assert Shorteners[16][4] == 'a';
    SkipByChar(host, 16, 4);
    assert Shorteners[15][0] == 'v';
    SkipByChar(host, 15, 0);
    assert Shorteners[14][0] == 'i';
    SkipByChar(host, 14, 0);
  }

  lemma WithoutGoogleLettersFrom11(host: string)
    requires 'k' !in host && 't' !in host && 'y' !in host && 'a' !in host && 'i' !in host && 'v' !in host && 'f' !in host
    ensures !ShortenerFrom(host, 11)
  {
    WithoutGoogleLettersFrom14(host);
    assert Shorteners[13][0] == 't';
    SkipByChar(host, 13, 0);
    assert Shorteners[12][4] == 'y';
    SkipByChar(host, 12, 4);
    assert Shorteners[11][0] == 't';
    SkipByChar(host, 11, 0);
  }

  lemma WithoutGoogleLettersFrom10(host: string)
    requires 'k' !in host && 't' !in host && 'y' !in host && 'a' !in host && 'i' !in host && 'v' !in host && 'f' !in host
    requires NoPairFrom(host, 'g', '.', 0)
    ensures !ShortenerFrom(host, 10)
  {
    WithoutGoogleLettersFrom11(host);
    assert Shorteners[10][0] == 'g' && Shorteners[10][1] == '.';
    SkipByPair(host, 10, 0);
  }

  lemma WithoutGoogleLettersFrom9(host: string)
    requires 'k' !in host && 't' !in host && 'y' !in host && 'a' !in host && 'i' !in host && 'v' !in host && 'f' !in host
    requires NoPairFrom(host, 'o', '.', 0) && NoPairFrom(host, 'g', '.', 0)
    ensures !ShortenerFrom(host, 9)
  {
    WithoutGoogleLettersFrom10(host);
    assert Shorteners[9][2] == 'o' && Shorteners[9][3] == '.';
    assert Shorteners[9][2] == 'o' && Shorteners[9][3] == '.';
    SkipByPair(host, 9, 2);
  }

  lemma WithoutGoogleLettersFrom6(host: string)
    requires 'k' !in host && 't' !in host && 'y' !in host && 'a' !in host && 'i' !in host && 'v' !in host && 'f' !in host
    requires NoPairFrom(host, 'o', '.', 0) && NoPairFrom(host, 'g', '.', 0)
    ensures !ShortenerFrom(host, 6)
  {
    WithoutGoogleLettersFrom9(host);
    assert Shorteners[8][2] == 't';
    SkipByChar(host, 8, 2);
    assert Shorteners[7][2] == 't';
    SkipByChar(host, 7, 2);
    assert Shorteners[6][4] == 'a';
    SkipByChar(host, 6, 4);
  }

  lemma WithoutGoogleLettersFrom3(host: string)
    requires 'k' !in host && 't' !in host && 'y' !in host && 'a' !in host && 'i' !in host && 'v' !in host && 'f' !in host
    requires NoPairFrom(host, 'o', '.', 0) && NoPairFrom(host, 'g', '.', 0)
    ensures !ShortenerFrom(host, 3)
  {
    WithoutGoogleLettersFrom6(host);
    assert Shorteners[5][0] == 'y';
    SkipByChar(host, 5, 0);
    assert Shorteners[4][0] == 't';
    SkipByChar(host, 4, 0);
    assert Shorteners[3][1] == 'k';
    SkipByChar(host, 3, 1);
  }

  /** A host without any of the letters k, t, y, a, i, v, f holds no shortener (the letters "google.com" lacks). */
  lemma WithoutGoogleLetters(host: string)
    requires 'k' !in host && 't' !in host && 'y' !in host && 'a' !in host && 'i' !in host && 'v' !in host && 'f' !in host
    requires NoPairFrom(host, 'o', '.', 0) && NoPairFrom(host, 'g', '.', 0)
    ensures !ShortenerFrom(host, 0)
  {
    WithoutGoogleLettersFrom3(host);
    assert Shorteners[2][1] == 'k';
    SkipByChar(host, 2, 1);
    assert Shorteners[1][1] == 'k';
    SkipByChar(host, 1, 1);
    assert Shorteners[0][3] == 'k';
    SkipByChar(host, 0, 3);
  }

  lemma WithoutSberbankLettersFrom23(host: string)
    requires 'c' !in host && 'v' !in host && 'o' !in host && 't' !in host && 'y' !in host && 'i' !in host && 'm' !in host
    ensures !ShortenerFrom(host, 23)
  {
    assert Shorteners[25][5] == 'i';
    SkipByChar(host, 25, 5);
    assert Shorteners[24][5] == 'i';
    SkipByChar(host, 24, 5);
    assert Shorteners[23][0] == 'i';
    SkipByChar(host, 23, 0);
  }

  lemma WithoutSberbankLettersFrom20(host: string)
    requires 'c' !in host && 'v' !in host && 'o' !in host && 't' !in host && 'y' !in host && 'i' !in host && 'm' !in host
    ensures !ShortenerFrom(host, 20)
  {
    WithoutSberbankLettersFrom23(host);
    assert Shorteners[22][3] == 'm';
    SkipByChar(host, 22, 3);
    assert Shorteners[21][0] == 'y';
    SkipByChar(host, 21, 0);
    assert Shorteners[20][1] == 'm';
    SkipByChar(host, 20, 1);
  }

  lemma WithoutSberbankLettersFrom17(host: string)
    requires 'c' !in host && 'v' !in host && 'o' !in host && 't' !in host && 'y' !in host && 'i' !in host && 'm' !in host
    ensures !ShortenerFrom(host, 17)
  {
    WithoutSberbankLettersFrom20(host);
    assert Shorteners[19][4] == 'm';
    SkipByChar(host, 19, 4);
    assert Shorteners[18][0] == 'c';
    SkipByChar(host, 18, 0);
    assert Shorteners[17][2] == 'o';
    SkipByChar(host, 17, 2);
  }

  lemma WithoutSberbankLettersFrom14(host: string)
    requires 'c' !in host && 'v' !in host && 'o' !in host && 't' !in host && 'y' !in host && 'i' !in host && 'm' !in host
    ensures !ShortenerFrom(host, 14)
  {
    WithoutSberbankLettersFrom17(host);
    assert Shorteners[16][9] == 'y';
    SkipByChar(host, 16, 9);
    assert Shorteners[15][0] == 'v';
    SkipByChar(host, 15, 0);
    assert Shorteners[14][0] == 'i';
    SkipByChar(host, 14, 0);
  }

  lemma WithoutSberbankLettersFrom11(host: string)
    requires 'c' !in host && 'v' !in host && 'o' !in host && 't' !in host && 'y' !in host && 'i' !in host && 'm' !in host
    ensures !ShortenerFrom(host, 11)
  {
    WithoutSberbankLettersFrom14(host);
    assert Shorteners[13][0] == 't';
    SkipByChar(host, 13, 0);
    assert Shorteners[12][0] == 'o';
    SkipByChar(host, 12, 0);
    assert Shorteners[11][0] == 't';
    SkipByChar(host, 11, 0);
  }

  lemma WithoutSberbankLettersFrom8(host: string)
    requires 'c' !in host && 'v' !in host && 'o' !in host && 't' !in host && 'y' !in host && 'i' !in host && 'm' !in host
    ensures !ShortenerFrom(host, 8)
  {
    WithoutSberbankLettersFrom11(host);
    assert Shorteners[10][2] == 'c';
    SkipByChar(host, 10, 2);
    assert Shorteners[9][1] == 'o';
    SkipByChar(host, 9, 1);
    assert Shorteners[8][2] == 't';
    SkipByChar(host, 8, 2);
  }

  lemma WithoutSberbankLettersFrom5(host: string)
    requires 'c' !in host && 'v' !in host && 'o' !in host && 't' !in host && 'y' !in host && 'i' !in host && 'm' !in host
    ensures !ShortenerFrom(host, 5)
  {
    WithoutSberbankLettersFrom8(host);
    assert Shorteners[7][2] == 't';
    SkipByChar(host, 7, 2);
    assert Shorteners[6][1] == 'o';
    SkipByChar(host, 6, 1);
    assert Shorteners[5][0] == 'y';
    SkipByChar(host, 5, 0);
  }

  lemma WithoutSberbankLettersFrom2(host: string)
    requires 'c' !in host && 'v' !in host && 'o' !in host && 't' !in host && 'y' !in host && 'i' !in host && 'm' !in host
    ensures !ShortenerFrom(host, 2)
  {
    WithoutSberbankLettersFrom5(host);
    assert Shorteners[4][0] == 't';
    SkipByChar(host, 4, 0);
    assert Shorteners[3][0] == 'o';
    SkipByChar(host, 3, 0);
    assert Shorteners[2][0] == 'v';
    SkipByChar(host, 2, 0);
  }

  /** A host without any of the letters c, v, o, t, y, i, m holds no shortener (the letters "sberbank.ru" lacks). */
  lemma WithoutSberbankLetters(host: string)
    requires 'c' !in host && 'v' !in host && 'o' !in host && 't' !in host && 'y' !in host && 'i' !in host && 'm' !in host
    ensures !ShortenerFrom(host, 0)
  {
    WithoutSberbankLettersFrom2(host);
    assert Shorteners[1][3] == 'c';
    SkipByChar(host, 1, 3);
    assert Shorteners[0][0] == 'c';
    SkipByChar(host, 0, 0);
  }

  lemma WithoutExampleLettersFrom23(host: string)
    requires 'k' !in host && 't' !in host && 'y' !in host && 'g' !in host && 'f' !in host
    ensures !ShortenerFrom(host, 23)
  {
    assert Shorteners[25][6] == 't';
    SkipByChar(host, 25, 6);
    assert Shorteners[24][2] == 'k';
    SkipByChar(host, 24, 2);
    assert Shorteners[23][3] == 't';
    SkipByChar(host, 23, 3);
  }

  lemma WithoutExampleLettersFrom20(host: string)
    requires 'k' !in host && 't' !in host && 'y' !in host && 'g' !in host && 'f' !in host
    ensures !ShortenerFrom(host, 20)
  {
    WithoutExampleLettersFrom23(host);
    assert Shorteners[22][0] == 'f';
    SkipByChar(host, 22, 0);
    assert Shorteners[21][0] == 'y';
    SkipByChar(host, 21, 0);
    assert Shorteners[20][5] == 't';
    SkipByChar(host, 20, 5);
  }

  lemma WithoutExampleLettersFrom17(host: string)
    requires 'k' !in host && 't' !in host && 'y' !in host && 'g' !in host && 'f' !in host
    ensures !ShortenerFrom(host, 17)
  {
    WithoutExampleLettersFrom20(host);
    assert Shorteners[19][1] == 'k';
    SkipByChar(host, 19, 1);
    assert Shorteners[18][2] == 't';
    SkipByChar(host, 18, 2);
    assert Shorteners[17][4] == 't';
    SkipByChar(host, 17, 4);
  }

  lemma WithoutExampleLettersFrom14(host: string)
    requires 'k' !in host && 't' !in host && 'y' !in host && 'g' !in host && 'f' !in host
    ensures !ShortenerFrom(host, 14)
  {
    WithoutExampleLettersFrom17(host);
    assert Shorteners[16][9] == 'y';
    SkipByChar(host, 16, 9);
    assert Shorteners[15][2] == 'g';
    SkipByChar(host, 15, 2);
    assert Shorteners[14][3] == 'g';
    SkipByChar(host, 14, 3);
  }

  lemma WithoutExampleLettersFrom11(host: string)
    requires 'k' !in host && 't' !in host && 'y' !in host && 'g' !in host && 'f' !in host
    ensures !ShortenerFrom(host, 11)
  {
    WithoutExampleLettersFrom14(host);
    assert Shorteners[13][0] == 't';
    SkipByChar(host, 13, 0);
    assert Shorteners[12][4] == 'y';
    SkipByChar(host, 12, 4);
    assert Shorteners[11][0] == 't';
    SkipByChar(host, 11, 0);
  }

  lemma WithoutExampleLettersFrom8(host: string)
    requires 'k' !in host && 't' !in host && 'y' !in host && 'g' !in host && 'f' !in host
    ensures !ShortenerFrom(host, 8)
  {
    WithoutExampleLettersFrom11(host);
    assert Shorteners[10][0] == 'g';
    SkipByChar(host, 10, 0);
    assert Shorteners[9][0] == 'g';
    SkipByChar(host, 9, 0);
    assert Shorteners[8][2] == 't';
    SkipByChar(host, 8, 2);
  }

  lemma WithoutExampleLettersFrom5(host: string)
    requires 'k' !in host && 't' !in host && 'y' !in host && 'g' !in host && 'f' !in host
    ensures !ShortenerFrom(host, 5)
  {
    WithoutExampleLettersFrom8(host);
    assert Shorteners[7][2] == 't';
    SkipByChar(host, 7, 2);
    assert Shorteners[6][0] == 'g';
    SkipByChar(host, 6, 0);
    assert Shorteners[5][0] == 'y';
    SkipByChar(host, 5, 0);
  }

  lemma WithoutExampleLettersFrom2(host: string)
    requires 'k' !in host && 't' !in host && 'y' !in host && 'g' !in host && 'f' !in host
    ensures !ShortenerFrom(host, 2)
  {
    WithoutExampleLettersFrom5(host);
    assert Shorteners[4][0] == 't';
    SkipByChar(host, 4, 0);
    assert Shorteners[3][1] == 'k';
    SkipByChar(host, 3, 1);
    assert Shorteners[2][1] == 'k';
    SkipByChar(host, 2, 1);
  }

  /** A host without any of the letters k, t, y, g, f holds no shortener (the letters "example.com" lacks). */
  lemma WithoutExampleLetters(host: string)
    requires 'k' !in host && 't' !in host && 'y' !in host && 'g' !in host && 'f' !in host
    ensures !ShortenerFrom(host, 0)
  {
    WithoutExampleLettersFrom2(host);
    assert Shorteners[1][1] == 'k';
    SkipByChar(host, 1, 1);
    assert Shorteners[0][3] == 'k';
    SkipByChar(host, 0, 3);
  }
}
