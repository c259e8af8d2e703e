/**
 * The part of Python's urllib.parse.urlparse that the pipeline reads:
 * scheme, netloc and path. The steps follow urlsplit of recent Python 3
 * releases: leading C0 controls and spaces are stripped, tab/CR/LF removed,
 * the scheme is split off at the first ':' when every character before it is
 * a scheme character, a "//" introduces a netloc that ends at the first '/',
 * '?' or '#', fragment and query are cut off the path, and ";params" are cut
 * off the last path segment for the schemes that use them. A netloc with a '['
 * but no ']' (or the reverse) makes urlparse raise ValueError: that is `None`.
 */
module Urls {
  import opened Wrappers
  import opened Text

  datatype Parsed = Parsed(scheme: string, netloc: string, path: string)

  predicate IsAsciiLetter(c: char) { 'a' <= c <= 'z' || 'A' <= c <= 'Z' }

  predicate IsAsciiDigit(c: char) { '0' <= c <= '9' }

  predicate IsSchemeChar(c: char) { IsAsciiLetter(c) || IsAsciiDigit(c) || c == '+' || c == '-' || c == '.' }

  /** Schemes whose last path segment may carry ";params". */
  const UsesParams: seq<string> := ["", "ftp", "hdl", "prospero", "http", "imap", "https", "shttp",
                                    "rtsp", "rtsps", "rtspu", "sip", "sips", "mms", "sftp", "tel"]

  /** The index of the first character of s[k..] above U+0020 (url.lstrip of C0 controls and space). */
  function FirstVisible(s: string, k: nat): (r: nat)
    requires k <= |s|
    ensures k <= r <= |s|
    decreases |s| - k
  {
    if k < |s| && s[k] <= ' ' then FirstVisible(s, k + 1) else k
  }

  predicate IsUnsafeByte(c: char) { c == '\t' || c == '\r' || c == '\n' }

  /** The index of the first tab, carriage return or line feed at or after `k`. */
  function NextUnsafe(s: string, k: nat): (r: Option<nat>)
    requires k <= |s|
    ensures r.Some? ==> k <= r.value < |s| && IsUnsafeByte(s[r.value])
    ensures r.Some? ==> forall j :: k <= j < r.value ==> !IsUnsafeByte(s[j])
    ensures r.None? ==> forall j :: k <= j < |s| ==> !IsUnsafeByte(s[j])
    decreases |s| - k
  {
    if k == |s| then None
    else if IsUnsafeByte(s[k]) then Some(k)
    else NextUnsafe(s, k + 1)
  }

  /** s[k..] without its tabs, carriage returns and line feeds. */
  function RemoveUnsafeBytes(s: string, k: nat): (r: string)
    requires k <= |s|
    ensures forall c :: c in r ==> !IsUnsafeByte(c)
    decreases |s| - k
  {
    match NextUnsafe(s, k)
    case None => s[k..]
    case Some(j) => s[k..j] + RemoveUnsafeBytes(s, j + 1)
  }

  /** Every character of s[k..i] may appear in a scheme. */
  predicate AllSchemeChars(s: string, k: nat, i: nat)
    requires k <= i <= |s|
    decreases i - k
  {
    k == i || (IsSchemeChar(s[k]) && AllSchemeChars(s, k + 1, i))
  }

  /** The scheme (lowercased) and the rest, or an empty scheme and the whole input. */
  function SplitScheme(url: string): (string, string)
  {
    match IndexOf(url, ":")
    case Some(i) =>
      if i > 0 && IsAsciiLetter(url[0]) && AllSchemeChars(url, 0, i)
      then (Lower(url[..i]), url[i + 1..])
      else ("", url)
    case None => ("", url)
  }

  /** _splitnetloc(rest, 2): the index of the first '/', '?' or '#' at or after position k, else |rest|. */
  function NetlocEnd(rest: string, k: nat): (e: nat)
    requires k <= |rest|
    ensures k <= e <= |rest|
    decreases |rest| - k
  {
    if k == |rest| || rest[k] == '/' || rest[k] == '?' || rest[k] == '#' then k else NetlocEnd(rest, k + 1)
  }

  /** The index of the last occurrence of `c` in s[..k]. */
  function LastIndexBefore(s: string, c: char, k: nat): (r: Option<nat>)
    requires k <= |s|
    ensures r.Some? ==> r.value < k && s[r.value] == c
  {
    if k == 0 then None
    else if s[k - 1] == c then Some(k - 1)
    else LastIndexBefore(s, c, k - 1)
  }

  /** _splitparams: the path without ";params" in its last segment. */
  function StripParams(path: string): string
  {
    match LastIndexBefore(path, '/', |path|)
    case Some(j) =>
      (match IndexFrom(path, ";", j)
       case None => path
       case Some(k) => path[..k])
    case None => BeforeFirst(path, ";")
  }

  /** urlparse(url), or None where urlparse raises ValueError. */
  function Parse(url: string): Option<Parsed>
  {
    var u := RemoveUnsafeBytes(url, FirstVisible(url, 0));
    var (scheme, rest) := SplitScheme(u);
    var (netloc, tail) :=
      if StartsWith(rest, "//") then
        var e := NetlocEnd(rest, 2);
        (rest[2..e], rest[e..])
      else ("", rest);
    if Contains(netloc, "[") != Contains(netloc, "]") then None
    else
      var path := BeforeFirst(BeforeFirst(tail, "#"), "?");
      var path' := if scheme in UsesParams && Contains(path, ";") then StripParams(path) else path;
      Some(Parsed(scheme, netloc, path'))
  }

  /** A parsed netloc never contains a path, query or fragment delimiter. */
  lemma NetlocHasNoDelimiter(url: string)
    requires Parse(url).Some?
    ensures forall c :: c in Parse(url).value.netloc ==> c !in "/?#"
  {
    var u := RemoveUnsafeBytes(url, FirstVisible(url, 0));
    var (scheme, rest) := SplitScheme(u);
    if StartsWith(rest, "//") {
      NetlocEndIsFirst(rest, 2);
    }
  }

  lemma {:induction false} NetlocEndIsFirst(rest: string, k: nat)
    requires k <= |rest|
    ensures forall i :: k <= i < NetlocEnd(rest, k) ==> rest[i] != '/' && rest[i] != '?' && rest[i] != '#'
    decreases |rest| - k
  {
    if k < |rest| && rest[k] != '/' && rest[k] != '?' && rest[k] != '#' {
      NetlocEndIsFirst(rest, k + 1);
    }
  }

  /** A web URL in the source's sense: it starts with "http://" or "https://" (case-sensitive). */
  predicate IsWebUrl(url: string)
  {
    StartsWith(url, "http://") || StartsWith(url, "https://")
  }
}
