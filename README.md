# SEO scripts: a verified model

This project models the decision logic of three small SEO scripts:

- **On-page SEO analysis** (`seo_analysis.py`). It gives one record of on-page signals per URL, or an error record. The signals are the title, the meta description, keywords and robots, the word and `h1` counts, internal and external links, images without `alt` or `title`, JSON-LD blocks, hreflang links, and Open Graph and Twitter Card keys.
- **Website status code checker** (`status_code_checker.py`). It crawls each seed URL for links. For each link it records the status code, the redirect chain, the final URL, three headers, the IP address and the SSL label.
- **Backlink monitor** (`backlink_monitor.py`). For each backlink it classifies the page as `Noindex` or `Indexed`, keeps its status code, and adds the Moz domain authority, page authority and spam score.

The network and the HTML parser are not modelled; their results are inputs to the model:

- A parsed page is its tags in document order plus its visible text (`Html.Page`). Each tag has a name, an attribute map and an optional `.string`.
- The outcome of an HTTP request is `Html.Fetched`: either the message of a raised request exception, or a response record. The record holds the status, the lower-cased header map, the redirect-history status codes, the final URL, the parsed page and the measured time.
- Each script's `main` is given the lines of `urls.txt` and functions from a URL to its outcome. These are `fetch` and `moz`, plus `resolve` for the host-name lookup. The same URL always gives the same outcome (see "Left out").

Files and modules:

- `wrappers.dfy` declares `Option` and `Result`. `Result` is the shape a raised exception takes.
- `text.dfy` declares the parts of Python's `str` that the scripts use: `strip` and `split()` (with Python's whitespace set), the substring test `in`, `str(int)`, `join`, the blank-line filter and ASCII lower case.
- `collections.dfy` declares filters (list comprehensions), maps, duplicate-freedom and `list(set)`.
- `html.dfy` declares the page, reply and value types, and BeautifulSoup's `find`, `find_all`, `tag.get` and `tag[key]`.
- `seo_analysis.dfy`, `status_code_checker.dfy` and `backlink_monitor.dfy` declare one module per script.

Well-formed pieces are functions with lemmas about them. The parts of the source that loop and accumulate are methods proved against those functions:

- each `main`;
- the anchor loop of `crawl_website`;
- the field-by-field filling of `get_metrics`.

Some behaviour of the code that the model keeps as written:

- A site-relative `href` becomes the whole base URL followed by the `href` (`status_code_checker.py:63`), so a seed with a path keeps that path in front of it.
- JSON-LD blocks are only counted (`seo_analysis.py:60-61`). Their contents are not read, and no canonical link is extracted.
- The SEO `main` analyses every line, blank ones included (`seo_analysis.py:119-123`); the other two `main`s skip blank lines.
- A failed host-name lookup (`status_code_checker.py:35`) is not a request exception, so the handler at `status_code_checker.py:44` does not catch it. It escapes `get_metrics` and ends the status checker's run.

## Model

| member | source | states |
|---|---|---|
| Html.Find | On-PageSEOAnalysisTool/seo_analysis.py:27 | `soup.find` gives the first tag with the name and the wanted attribute values, and nothing exactly when no tag matches |
| Html.FindAll | On-PageSEOAnalysisTool/seo_analysis.py:42 | `soup.find_all` keeps exactly the matching tags and never more tags than the page has |
| Html.FindAllOccurrences | On-PageSEOAnalysisTool/seo_analysis.py:42-43 | `find_all` keeps every occurrence of a matching tag, so two identical `<h1>` tags count twice, and no occurrence of another tag |
| SeoAnalysis.MetaContent | On-PageSEOAnalysisTool/seo_analysis.py:27-36 | reading a meta tag's content either succeeds or raises the KeyError for 'content' |
| SeoAnalysis.MetaContentOutcome | On-PageSEOAnalysisTool/seo_analysis.py:27-36 | without a `<meta name=...>` the sentinel is used; with one, `content` is read from the first such tag and fails exactly when that tag has none; a failure is the KeyError of a named meta tag without `content` |
| SeoAnalysis.TitleValue | On-PageSEOAnalysisTool/seo_analysis.py:24 | the title column: the first title tag's `.string` (None without one), or "No title found" without a title tag; `TitleOutcome` states it |
| SeoAnalysis.TitleOutcome | On-PageSEOAnalysisTool/seo_analysis.py:24 | no title tag gives "No title found"; otherwise the first title tag's `.string` (None when absent) |
| SeoAnalysis.Sentinels | On-PageSEOAnalysisTool/seo_analysis.py:24-36 | in a successful record, absent title, description, keywords and robots give their "No … found" sentinels, and a present title gives the first title tag's `.string` |
| SeoAnalysis.MetaValues | On-PageSEOAnalysisTool/seo_analysis.py:27-36 | in a successful record, a present description, keywords or robots tag gives the `content` of the first `<meta name=...>` of its kind |
| SeoAnalysis.DictKeys | On-PageSEOAnalysisTool/seo_analysis.py:67-68 | the dictionary comprehension has no more keys than meta tags, and its only failure is the KeyError for 'content' |
| SeoAnalysis.DictKeysOutcome | On-PageSEOAnalysisTool/seo_analysis.py:67-68 | the comprehension raises exactly when a qualifying tag lacks `content`; otherwise its keys are the distinct non-empty values of the key |
| SeoAnalysis.DictKeysOfPage | On-PageSEOAnalysisTool/seo_analysis.py:67-68 | over a whole page a value is a key exactly when some meta tag of the page carries it, non-empty, under that attribute, and there are at most as many keys as meta tags |
| SeoAnalysis.CountSignals | On-PageSEOAnalysisTool/seo_analysis.py:39-64 | the ten counts of a page, none of which can raise: words, h1 tags, anchors and their internal/external split, images and those without alt or title, JSON-LD scripts and hreflang links; `LinkCounts`, `CountValues` and `WordCountOfText` state each cell's value |
| SeoAnalysis.Extract | On-PageSEOAnalysisTool/seo_analysis.py:21-68 | the extraction steps in source order, where the first KeyError ends the analysis; `ExtractSteps`, `ExtractOutcome` and `ExtractedSignals` state it |
| SeoAnalysis.Analyze | On-PageSEOAnalysisTool/seo_analysis.py:21-105 | the extraction followed by the success dictionary; `AnalyzeOutcome` states it |
| SeoAnalysis.ExtractSteps | On-PageSEOAnalysisTool/seo_analysis.py:27-68 | the analysis fails exactly when one of the five content reads fails |
| SeoAnalysis.ExtractError | On-PageSEOAnalysisTool/seo_analysis.py:27-68 | every failure of the analysis carries the KeyError message for 'content' |
| SeoAnalysis.ExtractOutcome | On-PageSEOAnalysisTool/seo_analysis.py:27-68 | the analysis raises exactly when a meta tag with a non-empty `name` or `property` has no `content` |
| SeoAnalysis.AnalyzeOutcome | On-PageSEOAnalysisTool/seo_analysis.py:21-105 | a 200 page fails as its extraction does; otherwise the record has every field and a None Error |
| SeoAnalysis.ToRecord | On-PageSEOAnalysisTool/seo_analysis.py:86-105 | the success dictionary has all eighteen keys, the URL and `"Error": None` |
| SeoAnalysis.ToRecordTexts | On-PageSEOAnalysisTool/seo_analysis.py:86-91 | title, description, keywords and robots land in their columns |
| SeoAnalysis.ToRecordCounts | On-PageSEOAnalysisTool/seo_analysis.py:92-103 | each count lands in its column |
| SeoAnalysis.ExtractedSignals | On-PageSEOAnalysisTool/seo_analysis.py:21-105 | a successful extraction holds the title, the three meta contents, the counts and the two key counts, each from its own step |
| SeoAnalysis.SeoAnalysis | On-PageSEOAnalysisTool/seo_analysis.py:10-109 | every outcome is a record that names the URL and has an Error key |
| SeoAnalysis.RecordOutcome | On-PageSEOAnalysisTool/seo_analysis.py:13-18 | a raised request, a non-200 status ("Failed to retrieve") and a missing content each give exactly the two-key error record; otherwise the record is exactly the successful analysis of the page, with every field and a None Error; Error is None exactly in the last case |
| SeoAnalysis.LinkCounts | On-PageSEOAnalysisTool/seo_analysis.py:46-51 | internal and external links add up to all links; an anchor is internal exactly when the URL is a substring of its `href`, a missing `href` reading as '' |
| SeoAnalysis.CountValues | On-PageSEOAnalysisTool/seo_analysis.py:39-64 | Total Images, Images Without Alt/Title, Word Count, H1 Count, Schema Count and Hreflang Tags are the lengths of the lists they count; an image is "without" an attribute exactly when it is missing or empty; every count is bounded by what it counts over |
| SeoAnalysis.WordCountOfText | On-PageSEOAnalysisTool/seo_analysis.py:39 | the word count is the number of positions of the page text where a word begins, and the counted words put together are the text's non-whitespace characters |
| SeoAnalysis.SocialTagCounts | On-PageSEOAnalysisTool/seo_analysis.py:102-103 | the Open Graph and Twitter Card counts are the numbers of distinct non-empty `property` and `name` values over all meta tags |
| SeoAnalysis.AnalyzeUrls | On-PageSEOAnalysisTool/seo_analysis.py:115-123 | `main` gives the record of each stripped line, one per line, in file order |
| SeoAnalysis.AnalyzedUrls | On-PageSEOAnalysisTool/seo_analysis.py:119-123 | there are as many records as lines, and each record's URL is its stripped line |
| Text.Split | On-PageSEOAnalysisTool/seo_analysis.py:39 | `str.split()` with no separator: the maximal runs of non-whitespace characters, in order. `SplitWords`, `SplitConcat` and `SplitCount` fix how many pieces there are and which characters they hold, and `SplitJoinWords` fixes the pieces of single-space-joined words; where pieces break between words separated by several spaces is fixed by the definition alone. The source uses only `len(split())`, which `SplitCount` determines |
| Text.Contains | On-PageSEOAnalysisTool/seo_analysis.py:50-51 | Python's substring test `url in href`; `ContainsIff` states it |
| Text.NonBlankLines | WebsiteStatusCodeChecker/status_code_checker.py:80-83 | the stripped lines that are not blank, in file order; `NonBlankLinesFilter` and `NoSeeds` state it |
| Text.Strip | WebsiteStatusCodeChecker/status_code_checker.py:81 | `strip()` gives the slice of the line left once its all-whitespace ends are cut off; it has no whitespace at either end, and is '' exactly for a blank line |
| Text.StripIdempotent | WebsiteStatusCodeChecker/status_code_checker.py:81 | stripping twice is stripping once |
| Text.SplitWords | On-PageSEOAnalysisTool/seo_analysis.py:39 | every piece of `split()` is a non-empty, whitespace-free word |
| Text.SplitJoinWords | On-PageSEOAnalysisTool/seo_analysis.py:39 | splitting words joined with single spaces gives the words back |
| Text.SplitConcat | On-PageSEOAnalysisTool/seo_analysis.py:39 | the pieces of `split()` put together are the string's non-whitespace characters, in order |
| Text.SplitCount | On-PageSEOAnalysisTool/seo_analysis.py:39 | `split()` has one piece per position where a word begins (a non-whitespace character at the start or after whitespace) |
| Text.ContainsIff | On-PageSEOAnalysisTool/seo_analysis.py:50-51 | `needle in hay` holds exactly when the needle starts at some position of the string |
| Text.NonBlankLinesFilter | WebsiteStatusCodeChecker/status_code_checker.py:80-83 | the seeds a `main` processes are the stripped lines with the empty ones dropped, in file order |
| Text.NoSeeds | WebsiteStatusCodeChecker/status_code_checker.py:80-83 | there are no seeds exactly when every line is blank |
| Text.NatToStringRoundTrip | WebsiteStatusCodeChecker/status_code_checker.py:21 | `str(n)` reads back as n |
| Collections.Filter | On-PageSEOAnalysisTool/seo_analysis.py:50-51 | a list comprehension keeps exactly the elements that pass and never grows |
| Collections.FilterOccurrences | On-PageSEOAnalysisTool/seo_analysis.py:50-57 | a list comprehension keeps every occurrence of an element that passes and none of one that does not |
| Collections.FilterPartition | On-PageSEOAnalysisTool/seo_analysis.py:50-51 | a condition and its negation split a list between them |
| Collections.ListOf | WebsiteStatusCodeChecker/status_code_checker.py:69 | `list(set)` lists each element exactly once |
| Collections.DistinctCard | WebsiteStatusCodeChecker/status_code_checker.py:69 | a list without repeats is as long as its set of elements |
| StatusCodeChecker.RedirectChain | WebsiteStatusCodeChecker/status_code_checker.py:21 | the " -> " join of the history codes followed by the final code; `ParseJoinedCodes` reads it back |
| StatusCodeChecker.Header | WebsiteStatusCodeChecker/status_code_checker.py:28-32 | `response.headers.get(name, 'N/A')` on the case-insensitive header map; `HeaderLookup` states it |
| StatusCodeChecker.ResponseMetrics | WebsiteStatusCodeChecker/status_code_checker.py:7-47 | the metrics dictionary of one link given its reply and its host-name lookup, or the escaping lookup error; `ResponseRecord`, `RequestErrorMetrics`, `LookupFailureEscapes`, `ResponseColumns` and `RedirectionColumns` state it |
| StatusCodeChecker.ParseJoinedCodes | WebsiteStatusCodeChecker/status_code_checker.py:21 | the " -> " joined status codes read back as the codes |
| StatusCodeChecker.ResponseRecord | WebsiteStatusCodeChecker/status_code_checker.py:10-42 | a response's metrics have exactly the nine columns other than URL |
| StatusCodeChecker.GetMetrics | WebsiteStatusCodeChecker/status_code_checker.py:7-47 | filling the dictionary field by field gives the metrics of the reply, or the lookup error |
| StatusCodeChecker.RequestErrorMetrics | WebsiteStatusCodeChecker/status_code_checker.py:44-45 | a request exception leaves the single key Status Code, whose value starts with "Error: " |
| StatusCodeChecker.LookupFailureEscapes | WebsiteStatusCodeChecker/status_code_checker.py:35-45 | `get_metrics` fails exactly when a response was received and the host-name lookup failed, with the lookup's error |
| StatusCodeChecker.ResponseColumns | WebsiteStatusCodeChecker/status_code_checker.py:14-36 | with a response and an address the metrics hold every column but URL: the status code, the time, the address, and Content Type, Content Length and Server Type read from the response's headers |
| StatusCodeChecker.RedirectionColumns | WebsiteStatusCodeChecker/status_code_checker.py:20-25 | Redirection is 'None' exactly without history, and otherwise reads back as the history codes followed by the final code; Final URL is the input URL without history and `response.url` with it |
| StatusCodeChecker.HeaderLookup | WebsiteStatusCodeChecker/status_code_checker.py:28-32 | a header lookup gives the header's value whatever the case of the name asked for, and 'N/A' when it is missing; `ResponseColumns` places the three lookups in their columns |
| StatusCodeChecker.HeaderCaseInsensitive | WebsiteStatusCodeChecker/status_code_checker.py:28-32 | on a header map whose keys are lower case, as the case-insensitive dictionary compares them, a header is found under any name equal up to case, and 'N/A' is given when there is none |
| StatusCodeChecker.SslLabel | WebsiteStatusCodeChecker/status_code_checker.py:39-42 | SSL/TLS Status is "Valid" exactly for URLs starting with "https://", and "N/A" otherwise |
| StatusCodeChecker.Normalize | WebsiteStatusCodeChecker/status_code_checker.py:62-67 | an href starting with "/" becomes base URL + href, other hrefs starting with "http" are kept, the rest are skipped; `CrawledLinks` states it |
| StatusCodeChecker.CrawlSet | WebsiteStatusCodeChecker/status_code_checker.py:49-72 | the set of links a seed's crawl collects: empty after an exception or a non-200 reply; `CrawledLinks` and `DiscoveredIff` state it |
| StatusCodeChecker.Hrefs | WebsiteStatusCodeChecker/status_code_checker.py:60-61 | there are no more hrefs than tags |
| StatusCodeChecker.HrefsIff | WebsiteStatusCodeChecker/status_code_checker.py:60-61 | an href is visited exactly when some `a` tag carries it |
| StatusCodeChecker.DiscoveredIff | WebsiteStatusCodeChecker/status_code_checker.py:60-67 | a link is in the set exactly when some visited href normalises to it |
| StatusCodeChecker.CrawledLinks | WebsiteStatusCodeChecker/status_code_checker.py:49-72 | a link is found exactly when the seed came back with 200 and some anchor's href starts with "/" (with the link being the base URL followed by it) or with "http" (with the link being the href itself) |
| StatusCodeChecker.CrawlWebsite | WebsiteStatusCodeChecker/status_code_checker.py:49-72 | the anchor loop lists, without repeats, exactly the found links; an exception or a non-200 seed gives [] |
| StatusCodeChecker.StatusRows | WebsiteStatusCodeChecker/status_code_checker.py:85-89 | the rows of a list of links, one `{URL: link, **metrics}` per link, stopped by the first escaping lookup error; `StatusRowsSnoc`, `StatusRowsStop`, `StatusRowsFailure` and `StatusRowsSuccess` state it |
| StatusCodeChecker.StatusRowsSnoc | WebsiteStatusCodeChecker/status_code_checker.py:87-89 | checking one more link appends its row, or stops the run |
| StatusCodeChecker.StatusRowsStop | WebsiteStatusCodeChecker/status_code_checker.py:87-89 | once a lookup error escapes, later links change nothing |
| StatusCodeChecker.RowUrl | WebsiteStatusCodeChecker/status_code_checker.py:89 | a row's URL is its own link |
| StatusCodeChecker.StatusRowsFailure | WebsiteStatusCodeChecker/status_code_checker.py:85-89 | the run stops exactly when some checked link got a response and its host-name lookup failed |
| StatusCodeChecker.StatusRowsSuccess | WebsiteStatusCodeChecker/status_code_checker.py:87-89 | a completed run has one row per link, holding that link as URL and its metrics |
| StatusCodeChecker.FlattenCount | WebsiteStatusCodeChecker/status_code_checker.py:85-89 | the links of all seeds together are as many as the seeds yield |
| StatusCodeChecker.CheckLinks | WebsiteStatusCodeChecker/status_code_checker.py:87-89 | the inner loop appends the rows of the found links, or stops at the first escaping error |
| StatusCodeChecker.RowCount | WebsiteStatusCodeChecker/status_code_checker.py:80-89 | a completed run has as many rows as links were found from the seeds |
| StatusCodeChecker.CheckLine | WebsiteStatusCodeChecker/status_code_checker.py:81-89 | one pass of the outer loop skips a blank line, or crawls the stripped line and checks its links after the earlier rows |
| StatusCodeChecker.FlattenElements | WebsiteStatusCodeChecker/status_code_checker.py:85-89 | the links listed for the seeds crawled so far are exactly the links those seeds find |
| StatusCodeChecker.RunFailure | WebsiteStatusCodeChecker/status_code_checker.py:35-89 | the run stops exactly when some link found from the seeds got a response whose host-name lookup failed, whatever order the links were listed in |
| StatusCodeChecker.CheckSites | WebsiteStatusCodeChecker/status_code_checker.py:80-89 | `main` crawls every non-blank seed in order and checks every found link; a completed run has one row per found link; the run stops exactly when a found link's host-name lookup fails after a response |
| BacklinkMonitor.GetMozMetrics | BacklinkMonitoringSystem/backlink_monitor.py:10-35 | a 200 reply whose first result has the three fields gives them; anything else gives (None, None, None); a value other than None comes only from a 200 reply |
| BacklinkMonitor.IndexedStatus | BacklinkMonitoringSystem/backlink_monitor.py:44-49 | "Noindex" when `soup.find` finds the robots/noindex meta tag, "Indexed" otherwise; `NoindexIff` states it |
| BacklinkMonitor.NoindexIff | BacklinkMonitoringSystem/backlink_monitor.py:44-49 | the page is "Noindex" exactly when a meta tag has `name` "robots" and `content` exactly "noindex", and "Indexed" otherwise |
| BacklinkMonitor.NoindexNofollowIsIndexed | BacklinkMonitoringSystem/backlink_monitor.py:44 | a robots content of "noindex, nofollow" does not count as noindex |
| BacklinkMonitor.CheckBacklinkStatus | BacklinkMonitoringSystem/backlink_monitor.py:37-56 | the six-column row of one backlink given the outcome of its request and of its Moz request; `CheckOutcome` states it |
| BacklinkMonitor.CheckOutcome | BacklinkMonitoringSystem/backlink_monitor.py:37-56 | a request exception gives (backlink, "Error", message, None, None, None); a response gives its status code, the indexing status of its page and the Moz metrics; Status is "Error" exactly for an exception and "Noindex" exactly when the page has a meta tag with `name` "robots" and `content` exactly "noindex" |
| BacklinkMonitor.MonitorBacklinks | BacklinkMonitoringSystem/backlink_monitor.py:66-71 | `main` gives the six-column row of each non-blank stripped line, one per such line, in file order |

## Left out

- Network I/O is not modelled. This covers `requests.get`, `requests.post` and `socket.gethostbyname`. Their results are inputs: `fetch`, `moz` and `resolve`.
- The HTML parse is not modelled. BeautifulSoup's tag sequence, `.string` and `get_text()` are given as a `Page`.
- Reading `urls.txt` is not modelled; its lines are the input. pandas and the CSV file, logging and `print` are also left out.
- The order of a seed's links is not modelled, because `list(set)` does not fix it. `CheckSites` therefore exposes the order it used as a ghost `crawled` listing and states the rows relative to it.
- The column order of the output frames is not modelled. The model keeps each row's keys and values but not the order in which pandas lays out the columns.
- Response time is not modelled beyond being carried: the clock reading and its rounding to two decimals arrive as the real `elapsedMs` of the response.
- Moz JSON decoding and the credentials are not modelled. A reply is a status plus the `results` list, or None when the body has no such list.
- `rel` is matched as a whitespace-separated list that contains `alternate`. This reflects how BeautifulSoup treats multi-valued attributes, which is not itself modelled.
- The lower-case keys of a response's `headers` (`Html.LowerCaseKeys`) are a convention of the model, not a constraint of the type, and only `HeaderCaseInsensitive` assumes it. A header map with a mixed-case key stands for no reply of `requests`.
- StatusCodeChecker.HeaderLookup: folds header names to ASCII lower case only, whereas `requests` folds with Python's full Unicode `lower()`. Header names are ASCII.
- StatusCodeChecker.CheckSites: a failed host-name lookup ends the run as a `Failure`, and no CSV is written. The rows collected so far are not kept, because the source writes nothing in that case.
- A URL's outcome depends on the URL alone. `get_metrics`' request with a 10-second timeout (`status_code_checker.py:11`) and `crawl_website`'s untimed request (`status_code_checker.py:51`) for the same URL share one outcome, and a seed listed twice is crawled the same way both times. Real requests can differ from one call to the next.
- `Raised` stands for a `requests.exceptions.RequestException`. `get_metrics` (`status_code_checker.py:44`) and `check_backlink_status` (`backlink_monitor.py:55`) catch only that class. Any other exception from `requests.get` would escape them, and the model does not represent it.
- Exceptions inside the parser or pandas, and a `None` host name (which makes `gethostbyname` raise), are not modelled separately. The latter is one more failed `resolve`.
