/**
 * The domain that both the feature extractor and the heuristics analyser pull
 * out of a scanned URL, and the first label of that domain. The two classes
 * carry identical copies of this logic, so it is defined once here.
 */
module Domains {
  import opened Wrappers
  import opened Text
  import Urls

  /** The mobile deep-link schemes, in the order they are tried. */
  const DeepLinkSchemes: seq<string> :=
    ["tg://", "sber://", "bank://", "ton://", "whatsapp://", "tinkoff://", "alfa://", "vtb://", "sberpay://"]

  /** The first index at or after `k` of an entry of `ps` that `s` starts with. */
  function FirstPrefixFrom(s: string, ps: seq<string>, k: nat): (r: Option<nat>)
    ensures r.Some? ==> k <= r.value < |ps| && StartsWith(s, ps[r.value])
    ensures r.Some? ==> forall j :: k <= j < r.value ==> !StartsWith(s, ps[j])
    ensures r.None? ==> forall j :: k <= j < |ps| ==> !StartsWith(s, ps[j])
    decreases |ps| - k
  {
    if k >= |ps| then None
    else if StartsWith(s, ps[k]) then Some(k)
    else FirstPrefixFrom(s, ps, k + 1)
  }

  /**
   * The deep-link scheme the lowercased URL starts with, the first one in
   * list order; None when the URL is not a deep link.
   */
  function DeepLinkScheme(url: string): (r: Option<string>)
    ensures r.Some? ==> r.value in DeepLinkSchemes && StartsWith(Lower(url), r.value)
    ensures r.None? <==> forall j :: 0 <= j < |DeepLinkSchemes| ==> !StartsWith(Lower(url), DeepLinkSchemes[j])
  {
    match FirstPrefixFrom(Lower(url), DeepLinkSchemes, 0)
    case None => None
    case Some(n) => Some(DeepLinkSchemes[n])
  }

  /** url.split('://')[1], given that the first "://" stands at `i`. */
  function SecondPiece(url: string, i: nat): string
    requires i + 3 <= |url|
  {
    match IndexFrom(url, "://", i + 3)
    case None => url[i + 3..]
    case Some(j) => url[i + 3..j]
  }

  /**
   * The domain of a URL. A deep link keeps the text after its "://" up to the
   * first '/' or '?', with its case as written. Any other URL is parsed: its
   * netloc, or failing that the first segment of its path, cut at ':' and
   * lowercased. Where the parse raises, the text before the first '/' is
   * lowercased instead.
   */
  function ExtractDomain(url: string): string
  {
    if DeepLinkScheme(url).Some? then
      match IndexOf(url, "://")
      case Some(i) => BeforeFirst(BeforeFirst(SecondPiece(url, i), "/"), "?")
      case None => Lower(BeforeFirst(url, "/"))
    else
      match Urls.Parse(url)
      case None => Lower(BeforeFirst(url, "/"))
      case Some(p) =>
        var d := if p.netloc != "" then p.netloc else BeforeFirst(p.path, "/");
        Lower(if Contains(d, ":") then BeforeFirst(d, ":") else d)
  }

  /** The first label of a domain: the text before its first dot. */
  function FirstLabel(domain: string): string
  {
    var parts := Split(domain, '.');
    if |parts| > 1 then parts[0] else domain
  }

  /** A character that lowering neither produces nor changes. */
  predicate Caseless(c: char)
  {
    LowerChar(c) == c && forall d :: LowerChar(d) == c ==> d == c
  }

  lemma PunctuationCaseless()
    ensures Caseless(':') && Caseless('/') && Caseless('?') && Caseless('.')
  {
  }

  /**
   * A URL recognised as a deep link always holds "://", so the IndexError
   * handler of the split never runs for it.
   */
  lemma DeepLinkHasSeparator(url: string)
    requires DeepLinkScheme(url).Some?
    ensures IndexOf(url, "://").Some?
  {
    var sch := DeepLinkScheme(url).value;
    var n :| 0 <= n < |DeepLinkSchemes| && DeepLinkSchemes[n] == sch;
    SchemeEndsWithSeparator(n);
    SeparatorSurvivesLowering(url, sch);
  }

  /** A "://" that ends a prefix of the lowered URL stands at the same place in the URL itself. */
  lemma SeparatorSurvivesLowering(url: string, sch: string)
    requires |sch| >= 3 && sch[|sch| - 3..] == "://" && StartsWith(Lower(url), sch)
    ensures IndexOf(url, "://").Some?
  {
    var k := |sch| - 3;
    OccursAtSlice(Lower(url), sch, 0);
    PunctuationCaseless();
    var w := url[k..k + 3];
    forall t | 0 <= t < 3 ensures w[t] == "://"[t] {
      assert Lower(url)[k + t] == sch[k + t];
      assert sch[k + t] == sch[k..][t];
    }
    assert w == "://";
    OccursAtSlice(url, "://", k);
  }

  /** Every deep-link scheme ends with "://". */
  lemma SchemeEndsWithSeparator(n: nat)
    requires n < |DeepLinkSchemes|
    ensures |DeepLinkSchemes[n]| >= 3 && DeepLinkSchemes[n][|DeepLinkSchemes[n]| - 3..] == "://"
  {
  }

  /**
   * The domain of a deep link is the text of the URL itself, case as written,
   * from right after its first "://" up to the first '/', '?' or further
   * "://", or to the end of the URL.
   */
  lemma DeepLinkDomainEnd(url: string)
    requires DeepLinkScheme(url).Some?
    ensures IndexOf(url, "://").Some?
    ensures var i := IndexOf(url, "://").value; var d := ExtractDomain(url); var e := i + 3 + |d|;
      e <= |url| && d == url[i + 3..e] &&
      (forall k :: i + 3 <= k < e ==> url[k] != '/' && url[k] != '?' && !OccursAt(url, "://", k)) &&
      (e == |url| || url[e] == '/' || url[e] == '?' || OccursAt(url, "://", e))
  {
    DeepLinkHasSeparator(url);
    var i := IndexOf(url, "://").value;
    assert ExtractDomain(url) == BeforeFirst(BeforeFirst(SecondPiece(url, i), "/"), "?");
    PieceEnd(url, i);
  }

  /** The second piece cut at '/' and then at '?' ends where the first of the three separators stands. */
  lemma PieceEnd(url: string, i: nat)
    requires i + 3 <= |url|
    ensures var d := BeforeFirst(BeforeFirst(SecondPiece(url, i), "/"), "?"); var e := i + 3 + |d|;
      e <= |url| && d == url[i + 3..e] &&
      (forall k :: i + 3 <= k < e ==> url[k] != '/' && url[k] != '?' && !OccursAt(url, "://", k)) &&
      (e == |url| || url[e] == '/' || url[e] == '?' || OccursAt(url, "://", e))
  {
    var piece := SecondPiece(url, i);
    var d := BeforeFirst(BeforeFirst(piece, "/"), "?");
    var e := i + 3 + |d|;
    PieceSpan(url, i);
    CutEnds(piece);
    forall k | i + 3 <= k < e ensures url[k] == d[k - (i + 3)] && url[k] != '/' && url[k] != '?' {
      var t := k - (i + 3);
      assert d[t] == piece[t] == url[k];
      assert d[t] in d;
    }
    assert d == url[i + 3..e];
    if |d| < |piece| {
      assert url[e] == piece[|d|];
    }
  }

  /** The second piece runs from right after the separator to the next "://" or the end of the URL. */
  lemma PieceSpan(url: string, i: nat)
    requires i + 3 <= |url|
    ensures var piece := SecondPiece(url, i); var j := i + 3 + |piece|;
      j <= |url| && piece == url[i + 3..j] &&
      (forall k :: i + 3 <= k < j ==> !OccursAt(url, "://", k)) &&
      (j == |url| || OccursAt(url, "://", j))
  {
    match IndexFrom(url, "://", i + 3) {
      case None =>
        assert SecondPiece(url, i) == url[i + 3..];
      case Some(m) =>
        assert SecondPiece(url, i) == url[i + 3..m];
    }
  }

  /** Cutting at '/' and then at '?' keeps the prefix that stops at the first of the two. */
  lemma CutEnds(piece: string)
    ensures var d := BeforeFirst(BeforeFirst(piece, "/"), "?");
      |d| <= |piece| && d == piece[..|d|] && '/' !in d && '?' !in d &&
      (|d| == |piece| || piece[|d|] == '/' || piece[|d|] == '?')
  {
    var a := BeforeFirst(piece, "/");
    var d := BeforeFirst(a, "?");
    BeforeFirstEnds(piece, '/');
    BeforeFirstEnds(a, '?');
    assert forall t :: 0 <= t < |d| ==> d[t] == a[t];
    if |d| < |a| {
      assert piece[|d|] == a[|d|];
    }
  }

  /**
   * The domain of any other URL is lowercased and holds no '/'; when the URL
   * parses, it holds no ':' either (the port is cut off).
   */
  lemma WebDomainShape(url: string)
    requires DeepLinkScheme(url).None?
    ensures Lower(ExtractDomain(url)) == ExtractDomain(url)
    ensures '/' !in ExtractDomain(url)
    ensures Urls.Parse(url).Some? ==> ':' !in ExtractDomain(url)
  {
    PunctuationCaseless();
    match Urls.Parse(url)
    case None =>
      BeforeFirstFree(url, '/');
      LowerIdempotent(BeforeFirst(url, "/"));
      LowerKeepsAbsent(BeforeFirst(url, "/"), '/');
    case Some(p) =>
      var d := if p.netloc != "" then p.netloc else BeforeFirst(p.path, "/");
      assert '/' !in d by {
        if p.netloc != "" {
          Urls.NetlocHasNoDelimiter(url);
        } else {
          BeforeFirstFree(p.path, '/');
        }
      }
      var e := if Contains(d, ":") then BeforeFirst(d, ":") else d;
      assert '/' !in e && ':' !in e by {
        ContainsChar(d, ':');
        BeforeFirstFree(d, ':');
        BeforeFirstPrefix(d, ":");
      }
      LowerIdempotent(e);
      LowerKeepsAbsent(e, '/');
      LowerKeepsAbsent(e, ':');
  }

  /**
   * When urlparse succeeds, the domain of a URL that is not a deep link is the
   * netloc, or failing that the first segment of the path, up to its first
   * ':' or its end, lowercased.
   */
  lemma WebDomainValue(url: string)
    requires DeepLinkScheme(url).None? && Urls.Parse(url).Some?
    ensures var p := Urls.Parse(url).value;
      var n := if p.netloc != "" then p.netloc else BeforeFirst(p.path, "/");
      var d := ExtractDomain(url);
      |d| <= |n| && d == Lower(n[..|d|]) && ':' !in n[..|d|] && (|d| == |n| || n[|d|] == ':')
  {
    var p := Urls.Parse(url).value;
    var n := if p.netloc != "" then p.netloc else BeforeFirst(p.path, "/");
    var e := if Contains(n, ":") then BeforeFirst(n, ":") else n;
    assert ExtractDomain(url) == Lower(e);
    if Contains(n, ":") {
      BeforeFirstEnds(n, ':');
    } else {
      ContainsChar(n, ':');
      assert n[..|n|] == n;
    }
  }

  /**
   * When urlparse raises, the domain is the URL up to its first '/' or its
   * end, lowercased.
   */
  lemma UnparsedDomainValue(url: string)
    requires DeepLinkScheme(url).None? && Urls.Parse(url).None?
    ensures var d := ExtractDomain(url);
      |d| <= |url| && d == Lower(url[..|d|]) && '/' !in url[..|d|] && (|d| == |url| || url[|d|] == '/')
  {
    assert ExtractDomain(url) == Lower(BeforeFirst(url, "/"));
    BeforeFirstEnds(url, '/');
  }

  /** The first label is the text before the first dot, and holds no dot. */
  lemma FirstLabelIsBeforeDot(domain: string)
    ensures FirstLabel(domain) == BeforeFirst(domain, ".")
    ensures '.' !in FirstLabel(domain)
  {
    SplitHead(domain, '.');
    ContainsChar(domain, '.');
    BeforeFirstFree(domain, '.');
  }
}
