# SecureQRLens URL verdict pipeline, in Dafny

SecureQRLens scans a QR code and judges the URL inside it. This project models
the part of SecureQRLens that decides the verdict:

- **Heuristic rule engine** (`Heuristics`).
  - It extracts a domain (`Domains`).
  - It then tries six checks in a fixed order, and the first that fires decides the verdict: SBP whitelist (SAFE), malware extension (DANGER), deep-link scheme (SUSPICIOUS), punycode homograph (DANGER), typosquatting within distance 2 of a brand (DANGER), and first-label entropy above 4.5 (SUSPICIOUS).
  - Otherwise the verdict is UNKNOWN.
- **Lexical feature extractor** (`Features`). It computes the classifier's six-number vector.
- **Shared algorithms**: the pure Levenshtein fallback (`Levenshtein`) and the Shannon entropy counting pass (`Shannon`). Both the analyser and the extractor carry the same copy of each.
- **Redirect resolver** (`Redirects`). It makes a bounded, cycle-detecting walk along HTTP redirects over a network given as a function. It also holds the shortener test.
- **The bot's `analyze_url` and `format_response`** (`Handlers`), and the demo pipeline's `SecureQRLens.analyze` (`Demo`).
  - Both run the stages given in `Oracles`: resolve, then heuristics, then ML only on UNKNOWN, then an optional Yandex Safe Browsing lookup.
- **Offline evaluation** (`Evaluation`): `SystemTester.analyze`, `run_tests` and `calculate_metrics`.

The modelling choices:

- **Imperative code stays imperative.** Each loop of the source is a
  method, proved equal to a specification function or proved to meet a
  property directly. These are the Levenshtein rows, the entropy count, the
  typosquatting scan, the brand-distance scan, `resolve_redirects`,
  `analyze_url`, `format_response`, `SecureQRLens.analyze`, `run_tests` and
  `calculate_metrics`. The properties are then proved about the functions.
- **Result dictionaries become datatypes.** Errors that escape to the caller
  are a `Completion` that is `Raised`: the `ValueError` of `urlparse` inside
  `resolve_redirects`, and `max()` over an empty probability table.
- **Outside services become parameters.**
  - `math.log2` is passed in as a function.
  - The IDNA codec, the ML classifier, Yandex Safe Browsing and the network are passed in as functions too.
  - In the orchestrators, the heuristics, the resolver and the shortener test are calls in `Oracles.Services`. `Oracles.Wire` connects them to this model's own analyser, resolver and shortener test.
- **One definition for duplicated logic.** The analyser and the extractor
  have identical `_extract_domain` code (`modules/feature_extractor.py`
  lines 45-57 and `modules/heuristics.py` lines 54-65). It is defined once, as
  `Domains.ExtractDomain`. The same holds for the Levenshtein fallback (lines
  9-23 and 15-29) and the entropy (lines 59-70 and 67-78).

Behaviour of the code a reader might not expect, which the model keeps:

- A deep link's domain keeps its case; it is not compared case-insensitively.
- `replace('www.', '')` removes every `www.`, not only a leading one.
- The homograph rule looks for Cyrillic letters only, not any non-Latin script.
- `\d` in `IP_PATTERN` is Python's Unicode digit class, so a dotted quad written in Arabic-Indic digits also sets has_ip.
- The malware-extension rule tests the end of the whole lowercased URL, query included, not the end of the path.
- Input malformation does propagate in two places: a `ValueError` from `urlparse` inside `resolve_redirects`, and `max()` of an empty probability table in both orchestrators. The model returns `Raised` there.

One detail of the code is visible in the model:

- `analyze_url` appends a redirect reason only when `redirect_result['error']` is truthy.
- The resolver's fixed error texts are never empty, but `str(e)` of a `RequestException` can be.
- An empty error text therefore adds no reason (`Handlers.Reported`).

## Model

| member | source | states |
|---|---|---|
| Levenshtein.LevenshteinDistance | modules/heuristics.py:15-29 | the fallback returns the edit distance of its arguments (the textbook recursive definition); an empty second string gives the first one's length |
| Levenshtein.NextRow | modules/heuristics.py:21-28 | one pass of the outer loop turns the row of distances from s1[..i] to every prefix of s2 into the row for s1[..i+1] |
| Levenshtein.CellValue | modules/heuristics.py:24-27 | min(insertions, deletions, substitutions) is the distance between the two prefixes |
| Levenshtein.DistanceEdges | modules/heuristics.py:18-22 | the first row (`range`) and the first column (`i + 1`) are the distances to the empty prefix |
| Levenshtein.DistanceStep | modules/heuristics.py:24-27 | each table cell is the minimum of the three neighbouring cells plus their edit costs |
| Levenshtein.DistanceSymmetric | modules/heuristics.py:16-17 | the distance is symmetric, so swapping the arguments to put the shorter one second changes nothing |
| Levenshtein.DistanceToSelf | modules/heuristics.py:122-123 | a string is at distance 0 from itself |
| Levenshtein.DistanceZeroIffEqual | modules/heuristics.py:122-128 | distance 0 holds exactly for equal strings |
| Levenshtein.DistanceAtMostLonger | modules/heuristics.py:15-29 | the distance is at most the longer length |
| Levenshtein.NearestIsFirstMinimum | modules/heuristics.py:121-127 | the scan's minimum is at most every brand's distance, and the kept brand is the first in list order that reaches it (strict `<`) |
| Levenshtein.MinDistanceZeroIffListed | modules/feature_extractor.py:78-83 | the least distance to the list is 0 exactly when the string is an entry |
| Shannon.CountCharacters | modules/heuristics.py:70-72 | the counting loop builds the frequency table of the text and its keys in first-appearance order |
| Shannon.CalculateEntropy | modules/heuristics.py:67-78 | the method returns the entropy of the text, 0.0 when it is empty, subtracting p·log2(p) once per distinct character |
| Shannon.FrequenciesCount | modules/heuristics.py:70-72 | the table holds exactly the characters of the text, each with its number of occurrences |
| Shannon.KeysAreDistinctChars | modules/heuristics.py:75 | `freq.values()` is visited once per distinct character |
| Shannon.CountsSumToLength | modules/heuristics.py:74-76 | the counts add up to `len(text)`, so the p values sum to 1 |
| Shannon.EntropyNonNegative | modules/heuristics.py:73-77 | the entropy is never negative when log2 is non-positive on (0, 1] |
| Shannon.EntropyOfOneSymbol | modules/heuristics.py:73-77 | a text of one repeated character has entropy 0 when log2(1) is 0 |
| Urls.NetlocHasNoDelimiter | modules/heuristics.py:59-60 | the netloc urlparse gives never holds '/', '?' or '#' |
| Domains.FirstPrefixFrom | modules/heuristics.py:95-97 | the index found is the first scheme in list order that the lowered URL starts with, or none starts with any |
| Domains.DeepLinkScheme | modules/heuristics.py:56-57 | a scheme is found exactly when the lowered URL starts with one of the nine listed schemes |
| Domains.SchemeEndsWithSeparator | modules/heuristics.py:34-37 | every listed deep-link scheme ends with "://" |
| Domains.DeepLinkHasSeparator | modules/heuristics.py:57-58 | a recognised deep link always holds "://", so `split('://')[1]` never raises there |
| Domains.DeepLinkDomainEnd | modules/heuristics.py:56-58 | a deep link's domain is the URL's own text, case as written, from right after its first "://" up to the first '/', '?' or further "://" (none of which it holds), or to the end of the URL |
| Domains.PieceEnd | modules/heuristics.py:58 | `url.split('://')[1].split('/')[0].split('?')[0]` stops exactly at the first '/', '?' or "://" after the separator, or at the end |
| Domains.PieceSpan | modules/heuristics.py:58 | `url.split('://')[1]` runs from right after the first "://" to the next "://" or the end of the URL |
| Domains.CutEnds | modules/heuristics.py:58 | `.split('/')[0].split('?')[0]` keeps the prefix that stops at the first '/' or '?', or the whole piece |
| Domains.WebDomainValue | modules/heuristics.py:59-63 | when urlparse succeeds, the domain is the netloc, or if that is empty the first segment of the path, up to its first ':' or its end, lowercased |
| Domains.UnparsedDomainValue | modules/heuristics.py:64-65 | when urlparse raises, the domain is the URL up to its first '/' or its end, lowercased |
| Domains.WebDomainShape | modules/heuristics.py:59-65 | any other URL's domain is lower case and holds no '/'; when urlparse succeeds it holds no ':' (the port is cut off) |
| Domains.FirstLabelIsBeforeDot | modules/heuristics.py:133-134 | `parts[0] if len(parts) > 1 else domain` is the text before the first dot, and holds no dot |
| Features.FeatureExtractor.Extract | modules/feature_extractor.py:72-91 | `extract` returns the feature vector of the URL, component by component |
| Features.FeatureExtractor.MinBrandDistance | modules/feature_extractor.py:77-83 | the scan returns the least distance from the cleaned domain to a brand, or 10 when there are no brands |
| Features.FeatureNamesMatchVector | modules/feature_extractor.py:84-94 | the vector always has six components, one for each of the six names |
| Features.CountingFeatures | modules/feature_extractor.py:86-88 | dots_count counts the dots of the domain; special_chars counts the positions of the whole URL holding one of `- _ @ & = ? %`; has_ip is 1 exactly when the IP pattern (with Python's Unicode `\d`) matches, else 0 |
| Features.CharCountIsPositions | modules/feature_extractor.py:86 | `str.count` of one character is its number of positions |
| Features.SpecialCountIsPositions | modules/feature_extractor.py:87 | summing the counts of the seven distinct characters counts the positions holding any of them |
| Features.LengthFeatureUncapped | modules/feature_extractor.py:85 | url_length times 200 is the length, and it exceeds 1 for URLs longer than 200 |
| Features.BrandDistanceFeature | modules/feature_extractor.py:77-90 | levenshtein_min is 10 without brands; otherwise it is the distance to some listed brand and at most every brand's distance (the minimum), and it is 0 exactly when the cleaned domain is a brand (no early exit) |
| Features.EntropyFeature | modules/feature_extractor.py:74-75 | the entropy component is the entropy of the text before the first dot of the domain, and is non-negative |
| Features.CleanDomainRemovesEveryWww | modules/feature_extractor.py:77 | `replace('www.', '')` removes an inner "www." as well as the leading one |
| Features.GroupsFromIsSplit | modules/feature_extractor.py:28 | matching `\d{1,3}` groups separated by dots agrees with splitting at the dots and checking each part |
| Features.GroupsAreDottedQuad | modules/feature_extractor.py:28 | the four-group match is exactly "four parts of one to three decimal digits" |
| Features.IpPatternIsDottedQuad | modules/feature_extractor.py:28 | IP_PATTERN matches a dotted quad of decimal digits of any script, or one followed by a single final newline (`$`), and nothing else |
| Features.IpPatternAcceptsDottedQuads | modules/feature_extractor.py:88 | "192.168.1.1" gets has_ip |
| Features.IpPatternIgnoresGroupValues | modules/feature_extractor.py:28 | "999.999.999.999" matches: the group values are not range-checked |
| Features.IpPatternAcceptsFinalNewline | modules/feature_extractor.py:28 | "10.0.0.1\n" matches |
| Features.IpPatternRejectsGroupCounts | modules/feature_extractor.py:28 | three or five groups do not match |
| Features.IpPatternRejectsWideGroups | modules/feature_extractor.py:28 | a four-digit group does not match |
| Features.IpPatternRejectsNames | modules/feature_extractor.py:88 | "sberbank.ru" does not match |
| Features.IpPatternAcceptsOtherDigits | modules/feature_extractor.py:28 | a dotted quad of Arabic-Indic digits (U+0661 . U+0662 . U+0663 . U+0664) matches |
| Features.IpPatternRejectsDigitLookalikes | modules/feature_extractor.py:28 | the Arabic percent sign U+066A, next to the Arabic-Indic nine, is no digit, so a quad ending in it does not match |
| Heuristics.HeuristicsAnalyzer.SbpFrom | modules/heuristics.py:80-84 | the whitelist check is true exactly when some entry equals the domain or is a dot-suffix of it |
| Heuristics.FirstSuffixFrom | modules/heuristics.py:88-90 | the extension found is the first in list order that the text ends with |
| Heuristics.HeuristicsAnalyzer.CheckMalwareExtension | modules/heuristics.py:86-91 | an extension is reported exactly when the lowercased whole URL ends with one of .apk .exe .scr .bat .vbs, and it is one the URL ends with |
| Heuristics.HeuristicsAnalyzer.CheckTyposquatting | modules/heuristics.py:117-130 | the scan, which returns at an exact brand and keeps the first strictly closer one, reports what Typosquat specifies |
| Heuristics.HeuristicsAnalyzer.ScanDone | modules/heuristics.py:128-130 | after a full scan with no exact match, the 0 < min_distance <= 2 test gives Typosquat's answer |
| Heuristics.ScanStep | modules/heuristics.py:121-127 | one iteration keeps the scan state: no exact match so far, the minimum, and the first brand reaching it |
| Heuristics.NearestStep | modules/heuristics.py:124-127 | how the minimum and the first nearest brand change when one more brand is considered |
| Heuristics.HeuristicsAnalyzer.CheckHighEntropy | modules/heuristics.py:132-138 | the method returns the first label's entropy exactly when it exceeds 4.5 |
| Heuristics.HeuristicsAnalyzer.Analyze | modules/heuristics.py:140-195 | the guarded early returns give the outcome of the six checks in order |
| Heuristics.PunycodeReportNonEmpty | modules/heuristics.py:167-168 | a decoded domain holding a Cyrillic letter is non-empty, so `if decoded` never drops it |
| Heuristics.PunycodeIgnoresLatin | modules/heuristics.py:100-115 | the punycode check reports the decoded domain exactly when the lowered URL holds "xn--", the codec exists, decoding succeeds and the result holds a Cyrillic letter; the Latin test changes nothing |
| Heuristics.MalwareExtensionReported | modules/heuristics.py:151-157 | a URL ending in a listed extension is reported with that extension, and unless whitelisted is DANGER; so a deep link ending in .apk is DANGER |
| Heuristics.SafeIffWhitelisted | modules/heuristics.py:142-149 | SAFE is given exactly when the domain is, or is a subdomain of, an SBP entry, whatever the later checks say |
| Heuristics.UnknownIffNoCheckFires | modules/heuristics.py:140-195 | UNKNOWN is given exactly when none of the six checks fires |
| Heuristics.DeepLinkIsSuspicious | modules/heuristics.py:159-165 | a deep link is never UNKNOWN; unless whitelisted or a malware download, it is SUSPICIOUS with its scheme |
| Heuristics.TyposquatMeaning | modules/heuristics.py:117-130 | typosquatting fires exactly when the www-stripped domain is no brand but is within distance 2 of one; the brand reported is at the least distance, first in list order |
| Heuristics.TyposquatZeroGuardRedundant | modules/heuristics.py:122-128 | with no exact brand the minimum is above 0, so the `0 <` guard never excludes anything |
| Heuristics.HighEntropyMeaning | modules/heuristics.py:132-138 | high entropy is reported exactly when the entropy of the text before the first dot exceeds 4.5, and the report carries that entropy |
| Heuristics.HomographPath | modules/heuristics.py:167-173 | a homograph outcome carries the extracted domain and the punycode check's result |
| Heuristics.HomographIsDanger | modules/heuristics.py:167-173 | with the first three checks silent, a URL holding "xn--" whose domain decodes to text with a Cyrillic letter is DANGER, reported with the domain and its decoding |
| Heuristics.TyposquatIsDanger | modules/heuristics.py:175-181 | with the first four checks silent, a cleaned domain that is no brand but within distance 2 of one is DANGER, reported with a listed brand at the least distance (1 or 2) |
| Heuristics.HighEntropyIsSuspicious | modules/heuristics.py:183-189 | with the first five checks silent, a first label of entropy above 4.5 makes the URL SUSPICIOUS, reported with that entropy |
| Heuristics.HomographMeaning | modules/heuristics.py:100-173 | a homograph report names the extracted domain together with the codec's decoding of it, which holds a Cyrillic letter, for a URL holding "xn--" |
| Redirects.ResolveRedirects | modules/redirect_resolver.py:25-97 | the loop over depth returns what the walk specifies and makes at most max_depth HEAD requests |
| Redirects.VisitUrl | modules/redirect_resolver.py:40-91 | one loop body: urlparse (raising), non-http(s) stop, HEAD, the three exception tags, a redirect code with a non-empty Location followed (joined with scheme://netloc when relative), anything else a stop with no error |
| Redirects.RunFollows | modules/redirect_resolver.py:65-66 | a followed redirect appends the next URL and uses one iteration |
| Redirects.VisitFollowsIffHop | modules/redirect_resolver.py:56-66 | an iteration follows to b exactly when the URL answers with a 301/302/303/307/308 whose non-empty Location leads to b |
| Redirects.EarlierStep | modules/redirect_resolver.py:38 | the visited set grows by exactly the URL just requested |
| Redirects.RunShape | modules/redirect_resolver.py:29-97 | a run extends its chain by at most one redirect-reached URL per iteration, ends with final_url = last of the chain, reports an error only with iterations to spare, and a transport error names what the request for the last URL yielded |
| Redirects.RunShapeNoHops | modules/redirect_resolver.py:29-97 | the length and final-URL facts, for chains of any origin |
| Redirects.RunCycles | modules/redirect_resolver.py:29-38 | no URL is requested twice, and the cycle error is reported exactly when the chain's last URL repeats an earlier one with iterations to spare |
| Redirects.ResolveChain | modules/redirect_resolver.py:9-97 | chain[0] is the input, final_url is the last element, the chain has at most max_depth + 1 URLs, each reached from the one before by a redirect; exhausting max_depth gives no error |
| Redirects.ResolveErrors | modules/redirect_resolver.py:71-91 | the timeout, unreachable and request-error results each name the failure of the request for the final URL |
| Redirects.NonWebUrlStaysPut | modules/redirect_resolver.py:41-47 | a URL whose scheme is not http or https returns chain [url], final_url url and no error |
| Redirects.NoDepthNoRequest | modules/redirect_resolver.py:29 | with max_depth at most 0 the loop never runs |
| Redirects.UnparsableUrlRaises | modules/redirect_resolver.py:40-41 | a ValueError from urlparse is not caught by the resolver |
| Redirects.CycleOnLastIterationUnreported | modules/redirect_resolver.py:29-36 | two URLs redirecting to each other: with max_depth 2 the chain [a, b, a] comes back without the cycle error, with 3 the error is reported |
| Redirects.ShortenerFromMeaning | modules/redirect_resolver.py:115 | the `any(...)` over the list holds exactly when some listed shortener is a substring of the host |
| Redirects.ShortenedMeaning | modules/redirect_resolver.py:113-117 | a URL is shortened exactly when urlparse succeeds and its lowercased netloc contains a listed shortener |
| Redirects.ShortenerHostBy | modules/redirect_resolver.py:115 | a host containing any listed shortener is a shortener host |
| Redirects.ShortenerHosts | tests/test_redirect_resolver.py:13-18 | the hosts bit.ly, clck.ru, t.co and tinyurl.com (and BIT.LY) are shortener hosts |
| Redirects.SubstringHosts | modules/redirect_resolver.py:115 | substring matching also accepts hosts that merely contain a shortener (microsoft.com contains t.co) |
| Redirects.GoogleIsOrdinary | tests/test_redirect_resolver.py:21 | google.com is no shortener host |
| Redirects.SberbankIsOrdinary | tests/test_redirect_resolver.py:22 | sberbank.ru is no shortener host |
| Redirects.ExampleIsOrdinary | tests/test_redirect_resolver.py:23 | example.com is no shortener host |
| Oracles.WiredChains | telegram_bot/handlers.py:55-57 | the modelled resolver, as wired, always returns a chain starting at the URL given and ending on the final URL |
| Oracles.UnshortenedChain | telegram_bot/handlers.py:54-61 | the redirect stage starts its chain at the scanned URL and ends on the URL analysed next |
| Oracles.MaxOf | telegram_bot/handlers.py:71 | the maximum of a non-empty table is one of its values and at least all of them |
| Oracles.MaxProbability | telegram_bot/handlers.py:71 | `max()` raises exactly on an empty table, and otherwise returns its largest value |
| Handlers.AnalyzeUrl | telegram_bot/handlers.py:41-82 | the result record updated stage by stage is the staged analysis |
| Handlers.NoResolutionUnlessShortened | telegram_bot/handlers.py:44-61 | a link that is not a shortened web link keeps chain [url] and final_url url, and gets exactly one reason |
| Handlers.ResolutionFeedsAnalysis | telegram_bot/handlers.py:54-61 | a shortened web link is analysed at the resolver's final URL, with the resolver's chain; a reported resolver error is the first of exactly two reasons and does not stop the analysis |
| Handlers.RedirectStageShape | telegram_bot/handlers.py:44-59 | after the redirect stage the verdict and reputation are unset, the chain starts at the URL and ends on final_url, and at most one reason is recorded |
| Handlers.HeuristicVerdictStands | telegram_bot/handlers.py:63-67 | a non-UNKNOWN heuristic verdict is the verdict, with its details as the last reason, and the result is the same whatever classifier is loaded |
| Handlers.UnknownConsultsClassifier | telegram_bot/handlers.py:68-75 | on UNKNOWN the verdict is the classifier's label upper-cased with its largest probability, or UNKNOWN with "model unavailable" without a classifier; an empty probability table raises |
| Handlers.VerdictAlwaysSet | telegram_bot/handlers.py:65-75 | every completed analysis has a verdict, and its last reason names the stage that gave it |
| Handlers.ReputationLeavesVerdict | telegram_bot/handlers.py:77-79 | the Yandex lookup changes only the reputation field, and is recorded exactly when a key is set and the analysed URL is a web URL |
| Handlers.FormatResponse | telegram_bot/handlers.py:85-123 | the lines appended one by one are the reply's lines in order |
| Handlers.AppendChainBlock | telegram_bot/handlers.py:90-93 | the chain header and numbered lines are appended exactly when the chain holds more than one URL |
| Handlers.AppendReasonBlock | telegram_bot/handlers.py:107-110 | the reasons header and one line per reason are appended exactly when there are reasons |
| Handlers.AppendReputationBlock | telegram_bot/handlers.py:112-119 | one reputation line is appended exactly when a Yandex result is present |
| Handlers.AppendChain | telegram_bot/handlers.py:92-93 | the `enumerate(chain, 1)` loop appends one numbered line per chain URL |
| Handlers.AppendReasons | telegram_bot/handlers.py:109-110 | the reasons loop appends one line per reason |
| Handlers.ChainBlockPlace | telegram_bot/handlers.py:87-93 | the chain block comes right after the title and the URL, and no chain line appears elsewhere |
| Handlers.ChainListedOnlyAfterRedirect | telegram_bot/handlers.py:90-91 | the chain header appears exactly when the chain has more than one URL |
| Handlers.ChainLinesFaithful | telegram_bot/handlers.py:92-93 | every chain line carries the chain URL at its 1-based position |
| Handlers.EntriesFaithful | telegram_bot/handlers.py:92-93 | each numbered entry holds the URL at its position |
| Handlers.ChainListedInFull | telegram_bot/handlers.py:90-93 | a chain of more than one URL is listed in full, in order, numbered from 1 |
| Handlers.OneVerdictLine | telegram_bot/handlers.py:95-105 | the reply holds exactly one verdict line, with the label of the verdict |
| Handlers.VerdictLabelNamesVerdict | telegram_bot/handlers.py:96-101 | each heuristic verdict's label starts with its name, and SAFE, DANGER and SUSPICIOUS never read UNKNOWN |
| Handlers.OtherVerdictsUnknown | telegram_bot/handlers.py:102-103 | any other verdict, or none, is labelled UNKNOWN |
| Handlers.OneReputationLine | telegram_bot/handlers.py:112-119 | there is exactly one reputation line when a lookup was recorded and none otherwise: no threats for True, the threat list for False, the error for anything else |
| Demo.Analyze | scripts/demo_full_pipeline.py:24-76 | the record filled field by field across the stages is the staged analysis |
| Demo.StageOneFromHeuristics | scripts/demo_full_pipeline.py:48-53 | the stage-1 verdict and details are the heuristics' on the URL the redirects end on |
| Demo.StageTwoUsedIff | scripts/demo_full_pipeline.py:55-66 | stage2_used is set exactly when stage 1 says UNKNOWN and a classifier is loaded, and then the prediction is stored |
| Demo.FinalVerdictCases | scripts/demo_full_pipeline.py:55-69 | the final verdict is stage 1's when it is not UNKNOWN, else the classifier's label upper-cased with the largest probability of its table, else UNKNOWN with "model not loaded"; with a classifier on UNKNOWN the analysis raises exactly when the table is empty |
| Demo.ResolverErrorNotStored | scripts/demo_full_pipeline.py:40-46 | the resolver's error is only printed: dropping it changes no field of the result |
| Demo.NoResolutionUnlessShortened | scripts/demo_full_pipeline.py:40-48 | a link that is not a shortened web link is analysed as scanned |
| Demo.ReputationLeavesVerdict | scripts/demo_full_pipeline.py:71-73 | the lookup runs only with a key and a web URL, and leaves every other field unchanged |
| Demo.AgreesWithBot | scripts/demo_full_pipeline.py:24-76 | on the same services the demo and the bot both complete or both raise, with the same chain, analysed URL, verdict and reputation |
| Evaluation.PredictMatchesBot | tests/test_system.py:19-25 | on a link not unshortened, the tester's prediction is the bot's verdict up to case: lowered heuristic verdict, 'unknown' without a classifier, the raw label otherwise |
| Evaluation.RunTests | tests/test_system.py:27-41 | one result per row, in order, with the expected label lowered and `correct` meaning expected == predicted |
| Evaluation.CellMeaning | tests/test_system.py:46-55 | tn: both safe; fp: expected safe only; tp: neither safe, whatever the threat classes; fn: predicted safe only |
| Evaluation.CellsPartition | tests/test_system.py:44-57 | each result bumps exactly one counter, so tp + tn + fp + fn = total |
| Evaluation.CorrectAtMostTotal | tests/test_system.py:57-58 | correct <= total |
| Evaluation.CorrectAreTrue | tests/test_system.py:39-58 | when `correct` means expected == predicted, the correct count is at most tp + tn: a correct result is never a false positive or negative |
| Evaluation.CalculateMetrics | tests/test_system.py:43-68 | the counting loop and the ratios give the metrics of the results |
| Evaluation.RatioBounds | tests/test_system.py:59-61 | a ratio of a count to one at least as large, guarded against a zero denominator, lies in [0, 1] |
| Evaluation.F1Bounds | tests/test_system.py:62 | f1 of two values in [0, 1] lies in [0, 1] |
| Evaluation.MetricsSound | tests/test_system.py:57-68 | the counts add up to the total, correct <= total, every ratio lies in [0, 1], and each is 0 when its denominator is 0 |

## Left out

- **Transport, I/O and timing are not modelled.** This covers:
  - the async Telegram handlers, telegram_bot/bot.py and telegram_bot/config.py;
  - QR image decoding;
  - whitelist file loading (the lists are given as fields);
  - CSV reading and writing in `run_tests` and `save_results`;
  - logging, printing, and every `time_ms`, `time_sec` and `total_time_ms` field.
- **Floating point is not modelled.** `math.log2` is a parameter, and reals stand in for Python floats. The `.2f`, `.1%` and rounding of reported numbers are not modelled.
- **`urlparse` is simplified.**
  - `Urls.Parse` keeps scheme, netloc and path.
  - It raises only on an unbalanced '[' or ']' in the netloc.
  - Python's NFKC check of non-ASCII netlocs and its IPv6 address validation are not modelled.
- **Lower and Upper** cover ASCII and basic Cyrillic letters only.
- **The decimal digits of `\d`** are those of Unicode 15.0 (the Unicode version of Python 3.12); other Python versions (other Unicode versions) are not modelled.
- **IDNA decoding** (`idna.decode`), the ML classifier (`MLClassifier.predict`, with its feature scaling and pickled model) and Yandex Safe Browsing (`check_url_safety`) are opaque functions. The model assumes the classifier never raises.
- **The network, its timeout and the User-Agent header** are not modelled. The network is a function from URL to what a HEAD request yields.
- **Reason and reply texts are values, not text.**
  - Reasons and details are datatypes rather than Russian format strings.
  - `format_response` produces a sequence of line values; the text of each line and `"\n".join` are left out.
- **Repeated calls.** `analyze` running twice gives identical answers because every function here is deterministic; no separate lemma states it.
- **The orchestrators take their stages as service calls.** Handlers, Demo and Evaluation see the heuristics, resolver and shortener test through `Oracles.Services`. `Oracles.Wire` connects these to the modelled analyser and resolver. Their lemmas hold for every such service set.
- Redirects.ShortenerHosts: states the test's shortened URLs on their hosts, not on the full URLs of tests/test_redirect_resolver.py. The link from URL to host is `Redirects.ShortenedMeaning`.
- Redirects.GoogleIsOrdinary: states google.com on its host, not on its full test URL, for the same reason.
- Redirects.SberbankIsOrdinary: states sberbank.ru on its host, not on its full test URL, for the same reason.
- Redirects.ExampleIsOrdinary: states example.com on its host, not on its full test URL, for the same reason.
- **Concrete example URLs** (`https://pay.sbp.ru/x`, `sberrbank.ru` and so on) are not evaluated; the general lemmas on the analyser cover their cases.
- **models/train_model.py and the demo scripts' printing** are not part of this model.
