/** Website status-code checker: crawl each seed page for links, then record HTTP
    metrics for every link found. */
module StatusCodeChecker {
  import opened Wrappers
  import opened Text
  import opened Collections
  import opened Html

  /** The keys of a result row; `Key` gives each its column name. */
  datatype Column =
    | Url | ResponseTime | StatusCode | Redirection | FinalUrl | ContentType | ContentLength
    | ServerType | IpAddress | SslStatus
  {
    function Key(): string {
      match this
      case Url => "URL"
      case ResponseTime => "Response Time (ms)"
      case StatusCode => "Status Code"
      case Redirection => "Redirection"
      case FinalUrl => "Final URL"
      case ContentType => "Content Type"
      case ContentLength => "Content Length (bytes)"
      case ServerType => "Server Type"
      case IpAddress => "IP Address"
      case SslStatus => "SSL/TLS Status"
    }
  }

  /** A metrics dictionary, or a result row. */
  type Metrics = map<Column, Value>

  const ARROW := " -> "
  const NOT_AVAILABLE := "N/A"

  /** The header names `get_metrics` reads. */
  const CONTENT_TYPE := "Content-Type"
  const CONTENT_LENGTH := "Content-Length"
  const SERVER := "Server"

  /** The keys of the metrics of a response. */
  const RESPONSE_COLUMNS: set<Column> := {
    ResponseTime, StatusCode, Redirection, FinalUrl, ContentType, ContentLength,
    ServerType, IpAddress, SslStatus
  }

  /** `[str(c) for c in codes]`. */
  function CodeStrings(codes: seq<nat>): (r: seq<string>)
    ensures |r| == |codes|
  {
    if codes == [] then [] else [NatToString(codes[0])] + CodeStrings(codes[1..])
  }

  /** The Redirection column: the history's status codes and the final one, joined by " -> ". */
  function RedirectChain(history: seq<nat>, final: nat): string {
    Join(CodeStrings(history + [final]), ARROW)
  }

  /** Reads a Redirection value back into its status codes. */
  function ParseChain(s: string): Option<seq<nat>>
    decreases |s|
  {
    var d := TakeDigits(s);
    if d == [] then None
    else
      var rest := s[|d|..];
      if rest == [] then Some([DigitsValue(d)])
      else if ARROW <= rest then
        match ParseChain(rest[|ARROW|..])
        case None => None
        case Some(codes) => Some([DigitsValue(d)] + codes)
      else None
  }

  /** A last code reads back alone. */
  lemma ParseLastCode(d: string)
    requires d != [] && forall k :: 0 <= k < |d| ==> IsDigit(d[k])
    ensures ParseChain(d) == Some([DigitsValue(d)])
  {
    assert d + [] == d;
    TakeDigitsOfDigits(d, []);
  }

  /** A code followed by the arrow reads back before the rest of the chain. */
  lemma ParseCodeAndArrow(d: string, tail: string)
    requires d != [] && forall k :: 0 <= k < |d| ==> IsDigit(d[k])
    ensures ParseChain(d + (ARROW + tail)) ==
      match ParseChain(tail)
      case None => None
      case Some(codes) => Some([DigitsValue(d)] + codes)
  {
    var s := d + (ARROW + tail);
    TakeDigitsOfDigits(d, ARROW + tail);
    assert s[|d|..] == ARROW + tail;
    assert (ARROW + tail)[|ARROW|..] == tail;
  }

  /** A single code joins to its own digits. */
  lemma JoinOneCode(codes: seq<nat>)
    requires |codes| == 1
    ensures Join(CodeStrings(codes), ARROW) == NatToString(codes[0])
  {
  }

  /** Further codes join after the first one and the arrow. */
  lemma JoinCodesCons(codes: seq<nat>)
    requires |codes| > 1
    ensures Join(CodeStrings(codes), ARROW) ==
      NatToString(codes[0]) + (ARROW + Join(CodeStrings(codes[1..]), ARROW))
  {
    assert CodeStrings(codes)[1..] == CodeStrings(codes[1..]);
  }

  /** The joined status codes can be read back: the chain loses nothing. */
  lemma {:induction false} ParseJoinedCodes(codes: seq<nat>)
    requires |codes| > 0
    ensures ParseChain(Join(CodeStrings(codes), ARROW)) == Some(codes)
  {
    var d := NatToString(codes[0]);
    NatToStringRoundTrip(codes[0]);
    if |codes| == 1 {
      JoinOneCode(codes);
      ParseLastCode(d);
      assert codes == [codes[0]];
    } else {
      var tail := Join(CodeStrings(codes[1..]), ARROW);
      JoinCodesCons(codes);
      ParseCodeAndArrow(d, tail);
      ParseJoinedCodes(codes[1..]);
      assert [codes[0]] + codes[1..] == codes;
    }
  }

  /** `response.headers.get(name, 'N/A')` on the case-insensitive header dictionary. */
  function Header(headers: map<string, string>, name: string): string {
    var key := Lower(name);
    if key in headers then headers[key] else NOT_AVAILABLE
  }

  /** The Redirection column. */
  function RedirectionLabel(resp: Response): string {
    if resp.history == [] then "None" else RedirectChain(resp.history, resp.status)
  }

  /** The Final URL column. */
  function FinalUrlOf(url: string, resp: Response): string {
    if resp.history == [] then url else resp.url
  }

  /** The SSL/TLS Status column. */
  function SslLabelOf(url: string): string {
    if "https://" <= url then "Valid" else NOT_AVAILABLE
  }

  /** The metrics of a response whose host name resolved to `ip`. */
  function ResponseRecord(url: string, resp: Response, ip: string): (m: Metrics)
    ensures m.Keys == RESPONSE_COLUMNS
  {
    map[
      ResponseTime := Real(resp.elapsedMs),
      StatusCode := Int(resp.status),
      Redirection := Str(RedirectionLabel(resp)),
      FinalUrl := Str(FinalUrlOf(url, resp)),
      ContentType := Str(Header(resp.headers, CONTENT_TYPE)),
      ContentLength := Str(Header(resp.headers, CONTENT_LENGTH)),
      ServerType := Str(Header(resp.headers, SERVER)),
      IpAddress := Str(ip),
      SslStatus := Str(SslLabelOf(url))
    ]
  }

  /** `get_metrics(url)`, given the outcome of `requests.get(url)` and of the host-name
      lookup. A Failure is a lookup error, which the RequestException handler does not catch. */
  function ResponseMetrics(url: string, reply: Fetched, address: Result<string, string>): Result<Metrics, string> {
    match reply
    case Raised(message) => Success(map[StatusCode := Str("Error: " + message)])
    case Got(resp) =>
      if address.Failure? then Failure(address.error)
      else Success(ResponseRecord(url, resp, address.value))
  }

  /** `get_metrics`, filling the dictionary field by field. */
  method GetMetrics(url: string, reply: Fetched, address: Result<string, string>) returns (m: Result<Metrics, string>)
    ensures m == ResponseMetrics(url, reply, address)
  {
    var metrics: Metrics := map[];
    match reply {
      case Raised(message) =>
        metrics := metrics[StatusCode := Str("Error: " + message)];
      case Got(resp) =>
        metrics := metrics[ResponseTime := Real(resp.elapsedMs)];
        metrics := metrics[StatusCode := Int(resp.status)];
        if resp.history != [] {
          metrics := metrics[Redirection := Str(RedirectChain(resp.history, resp.status))];
          metrics := metrics[FinalUrl := Str(resp.url)];
        } else {
          metrics := metrics[Redirection := Str("None")];
          metrics := metrics[FinalUrl := Str(url)];
        }
        metrics := metrics[ContentType := Str(Header(resp.headers, CONTENT_TYPE))];
        metrics := metrics[ContentLength := Str(Header(resp.headers, CONTENT_LENGTH))];
        metrics := metrics[ServerType := Str(Header(resp.headers, SERVER))];
        if address.Failure? {
          return Failure(address.error);
        }
        metrics := metrics[IpAddress := Str(address.value)];
        if "https://" <= url {
          metrics := metrics[SslStatus := Str("Valid")];
        } else {
          metrics := metrics[SslStatus := Str(NOT_AVAILABLE)];
        }
    }
    return Success(metrics);
  }

  /** A request error leaves exactly the Status Code entry, holding the error text. */
  lemma RequestErrorMetrics(url: string, message: string, address: Result<string, string>)
    ensures var m := ResponseMetrics(url, Raised(message), address);
      m.Success? && m.value.Keys == {StatusCode} &&
      m.value[StatusCode].Str? && "Error: " <= m.value[StatusCode].s
  {
  }

  /** Only a failed host-name lookup after a response escapes `get_metrics`. */
  lemma LookupFailureEscapes(url: string, reply: Fetched, address: Result<string, string>)
    ensures ResponseMetrics(url, reply, address).Failure? <==> reply.Got? && address.Failure?
    ensures ResponseMetrics(url, reply, address).Failure? ==> ResponseMetrics(url, reply, address).error == address.error
  {
  }

  /** The metrics of a response have every column but URL, with the status code, the address,
      the time and the three headers read from the response. */
  lemma ResponseColumns(url: string, resp: Response, ip: string)
    ensures ResponseMetrics(url, Got(resp), Success(ip)) == Success(ResponseRecord(url, resp, ip))
    ensures var m := ResponseRecord(url, resp, ip);
      m.Keys == RESPONSE_COLUMNS && Url !in m.Keys &&
      m[StatusCode] == Int(resp.status) && m[IpAddress] == Str(ip) &&
      m[ResponseTime] == Real(resp.elapsedMs) &&
      m[ContentType] == Str(Header(resp.headers, CONTENT_TYPE)) &&
      m[ContentLength] == Str(Header(resp.headers, CONTENT_LENGTH)) &&
      m[ServerType] == Str(Header(resp.headers, SERVER))
  {
  }

  /** Redirection is "None" exactly when there were no redirects; otherwise it reads back as
      every status code of the history followed by the final one. */
  lemma RedirectionColumns(url: string, resp: Response, ip: string)
    ensures var m := ResponseRecord(url, resp, ip);
      m[Redirection].Str? &&
      (m[Redirection] == Str("None") <==> resp.history == []) &&
      (resp.history != [] ==> ParseChain(m[Redirection].s) == Some(resp.history + [resp.status])) &&
      m[FinalUrl] == Str(if resp.history == [] then url else resp.url)
  {
    if resp.history != [] {
      var chain := RedirectChain(resp.history, resp.status);
      ParseJoinedCodes(resp.history + [resp.status]);
      assert TakeDigits("None") == [];
      assert ParseChain("None") == None;
      assert chain != "None";
    }
  }

  /** The SSL/TLS column is "Valid" exactly for https URLs, and "N/A" otherwise. */
  lemma SslLabel(url: string, resp: Response, ip: string)
    ensures var m := ResponseRecord(url, resp, ip);
      (m[SslStatus] == Str("Valid") <==> "https://" <= url) &&
      (m[SslStatus] != Str("Valid") ==> m[SslStatus] == Str(NOT_AVAILABLE))
  {
  }

  /** A header column holds the header's value whatever the case of its name, and "N/A"
      when the response does not carry it. */
  lemma HeaderLookup(headers: map<string, string>, name: string, other: string)
    requires Lower(other) == Lower(name)
    ensures Header(headers, other) == Header(headers, name)
    ensures Lower(name) !in headers ==> Header(headers, name) == NOT_AVAILABLE
    ensures Lower(name) in headers ==> Header(headers, name) == headers[Lower(name)]
  {
  }

  /** On a header map that keeps the convention, the lookup is case-insensitive: it finds the
      header stored under any name equal to `name` up to case, and gives "N/A" when there is none. */
  lemma HeaderCaseInsensitive(headers: map<string, string>, name: string)
    requires LowerCaseKeys(headers)
    ensures (exists k :: k in headers && Lower(k) == Lower(name)) ==> Header(headers, name) == headers[Lower(name)]
    ensures (forall k :: k in headers ==> Lower(k) != Lower(name)) ==> Header(headers, name) == NOT_AVAILABLE
  {
    if Lower(name) in headers {
      LowerIdempotent(name);
    }
  }

  /** Lower-casing twice is lower-casing once. */
  lemma LowerIdempotent(s: string)
    ensures Lower(Lower(s)) == Lower(s)
  {
  }

  /** Turns an `href` into an absolute link as `crawl_website` does; other hrefs are dropped. */
  function Normalize(baseUrl: string, href: string): Option<string> {
    if "/" <= href then Some(baseUrl + href)
    else if "http" <= href then Some(href)
    else None
  }

  /** The `href` of every `a` tag that has one, in document order. */
  function Hrefs(tags: seq<Tag>): (hrefs: seq<string>)
    ensures |hrefs| <= |tags|
  {
    if tags == [] then []
    else
      (if tags[0].name == "a" && "href" in tags[0].attrs then [tags[0].attrs["href"]] else [])
      + Hrefs(tags[1..])
  }

  lemma {:induction false} HrefsIff(tags: seq<Tag>, href: string)
    ensures href in Hrefs(tags) <==>
      exists t :: t in tags && t.name == "a" && "href" in t.attrs && t.attrs["href"] == href
  {
    if tags != [] {
      HrefsIff(tags[1..], href);
      assert forall t :: t in tags <==> t == tags[0] || t in tags[1..];
    }
  }

  /** The links of the set `crawl_website` builds from the first hrefs. */
  function Discovered(baseUrl: string, hrefs: seq<string>): set<string> {
    if hrefs == [] then {}
    else
      Discovered(baseUrl, hrefs[..|hrefs| - 1]) +
      match Normalize(baseUrl, hrefs[|hrefs| - 1])
      case None => {}
      case Some(link) => {link}
  }

  lemma {:induction false} DiscoveredIff(baseUrl: string, hrefs: seq<string>, link: string)
    ensures link in Discovered(baseUrl, hrefs) <==>
      exists href :: href in hrefs && Normalize(baseUrl, href) == Some(link)
  {
    if hrefs != [] {
      var init := hrefs[..|hrefs| - 1];
      DiscoveredIff(baseUrl, init, link);
      assert hrefs == init + [hrefs[|hrefs| - 1]];
      assert forall href :: href in hrefs <==> href in init || href == hrefs[|hrefs| - 1];
    }
  }

  /** The links `crawl_website(base_url)` returns, as a set: none when the request fails
      or the status is not 200. */
  function CrawlSet(baseUrl: string, reply: Fetched): set<string> {
    match reply
    case Raised(_) => {}
    case Got(resp) => if resp.status == 200 then Discovered(baseUrl, Hrefs(resp.page.tags)) else {}
  }

  /** A link is found exactly when the page was retrieved with status 200 and holds an anchor
      whose href is either site-relative (then the link is the base URL followed by it) or
      starts with "http" (then the link is the href itself). */
  lemma CrawledLinks(baseUrl: string, reply: Fetched, link: string)
    ensures link in CrawlSet(baseUrl, reply) <==>
      reply.Got? && reply.response.status == 200 &&
      exists t :: t in reply.response.page.tags && t.name == "a" && "href" in t.attrs &&
        (("/" <= t.attrs["href"] && link == baseUrl + t.attrs["href"]) ||
         (!("/" <= t.attrs["href"]) && "http" <= t.attrs["href"] && link == t.attrs["href"]))
  {
    if reply.Got? && reply.response.status == 200 {
      var tags := reply.response.page.tags;
      DiscoveredIff(baseUrl, Hrefs(tags), link);
      forall href | href in Hrefs(tags) && Normalize(baseUrl, href) == Some(link)
        ensures exists t :: (t in tags && t.name == "a" && "href" in t.attrs &&
          (("/" <= t.attrs["href"] && link == baseUrl + t.attrs["href"]) ||
           (!("/" <= t.attrs["href"]) && "http" <= t.attrs["href"] && link == t.attrs["href"])))
      {
        HrefsIff(tags, href);
      }
      forall t | t in tags && t.name == "a" && "href" in t.attrs &&
          (("/" <= t.attrs["href"] && link == baseUrl + t.attrs["href"]) ||
           (!("/" <= t.attrs["href"]) && "http" <= t.attrs["href"] && link == t.attrs["href"]))
        ensures link in CrawlSet(baseUrl, reply)
      {
        HrefsIff(tags, t.attrs["href"]);
      }
    }
  }

  /** `crawl_website`: the loop over the anchors builds the set, which is then listed in some
      order the set does not fix. */
  method CrawlWebsite(baseUrl: string, reply: Fetched) returns (links: seq<string>)
    ensures Distinct(links)
    ensures Elements(links) == CrawlSet(baseUrl, reply)
    ensures |links| == |CrawlSet(baseUrl, reply)|
  {
    if reply.Raised? || reply.response.status != 200 {
      return [];
    }
    var hrefs := Hrefs(reply.response.page.tags);
    var found: set<string> := {};
    for i := 0 to |hrefs|
      invariant found == Discovered(baseUrl, hrefs[..i])
    {
      assert hrefs[..i + 1][..i] == hrefs[..i];
      var href := hrefs[i];
      if "/" <= href {
        href := baseUrl + href;
      } else if !("http" <= href) {
        continue;
      }
      found := found + {href};
    }
    assert hrefs[..|hrefs|] == hrefs;
    links := ListOf(found);
  }

  /** The row of one link: its URL, then its metrics. */
  function Row(link: string, metrics: Metrics): Metrics {
    map[Url := Str(link)] + metrics
  }

  /** The rows of the links in turn, or the error that stops the run. */
  function StatusRows(links: seq<string>, fetch: string -> Fetched, resolve: string -> Result<string, string>): Result<seq<Metrics>, string> {
    if links == [] then Success([])
    else
      var rows :- StatusRows(links[..|links| - 1], fetch, resolve);
      var link := links[|links| - 1];
      var metrics :- ResponseMetrics(link, fetch(link), resolve(link));
      Success(rows + [Row(link, metrics)])
  }

  /** Checking one more link extends the rows, or stops the run. */
  lemma StatusRowsSnoc(links: seq<string>, link: string, fetch: string -> Fetched, resolve: string -> Result<string, string>)
    ensures StatusRows(links + [link], fetch, resolve) ==
      match StatusRows(links, fetch, resolve)
      case Failure(e) => Failure(e)
      case Success(rows) =>
        match ResponseMetrics(link, fetch(link), resolve(link))
        case Failure(e) => Failure(e)
        case Success(metrics) => Success(rows + [Row(link, metrics)])
  {
    assert (links + [link])[..|links|] == links;
  }

  /** Once a link stops the run, later links change nothing. */
  lemma {:induction false} StatusRowsStop(links: seq<string>, more: seq<string>, fetch: string -> Fetched, resolve: string -> Result<string, string>)
    requires StatusRows(links, fetch, resolve).Failure?
    ensures StatusRows(links + more, fetch, resolve) == StatusRows(links, fetch, resolve)
    decreases |more|
  {
    if more != [] {
      var init := more[..|more| - 1];
      assert (links + more)[..|links + more| - 1] == links + init;
      StatusRowsStop(links, init, fetch, resolve);
    } else {
      assert links + more == links;
    }
  }

  /** The metrics never carry a URL entry, so a row names its own link. */
  lemma RowUrl(link: string, reply: Fetched, address: Result<string, string>)
    requires ResponseMetrics(link, reply, address).Success?
    ensures Row(link, ResponseMetrics(link, reply, address).value)[Url] == Str(link)
  {
    if reply.Got? {
      ResponseColumns(link, reply.response, address.value);
    } else {
      RequestErrorMetrics(link, reply.message, address);
    }
  }

  /** The run stops exactly when some link got a response whose host-name lookup failed. */
  lemma {:induction false} StatusRowsFailure(links: seq<string>, fetch: string -> Fetched, resolve: string -> Result<string, string>)
    ensures StatusRows(links, fetch, resolve).Failure? <==>
      exists i :: 0 <= i < |links| && fetch(links[i]).Got? && resolve(links[i]).Failure?
  {
    if links != [] {
      var init := links[..|links| - 1];
      var link := links[|links| - 1];
      StatusRowsFailure(init, fetch, resolve);
      LookupFailureEscapes(link, fetch(link), resolve(link));
      assert forall i :: 0 <= i < |init| ==> init[i] == links[i];
    }
  }

  /** A run that completes has one row per link, holding that link's URL and metrics. */
  lemma {:induction false} StatusRowsSuccess(links: seq<string>, fetch: string -> Fetched, resolve: string -> Result<string, string>)
    requires StatusRows(links, fetch, resolve).Success?
    ensures var rows := StatusRows(links, fetch, resolve).value;
      |rows| == |links| &&
      forall i :: 0 <= i < |links| ==>
        ResponseMetrics(links[i], fetch(links[i]), resolve(links[i])).Success? &&
        rows[i] == Row(links[i], ResponseMetrics(links[i], fetch(links[i]), resolve(links[i])).value) &&
        rows[i][Url] == Str(links[i])
  {
    if links != [] {
      var init := links[..|links| - 1];
      var link := links[|links| - 1];
      StatusRowsSuccess(init, fetch, resolve);
      RowUrl(link, fetch(link), resolve(link));
      assert forall i :: 0 <= i < |init| ==> init[i] == links[i];
    }
  }

  /** The found links of every seed, in seed order. */
  function Flatten(lists: seq<seq<string>>): (r: seq<string>) {
    if lists == [] then [] else Flatten(lists[..|lists| - 1]) + lists[|lists| - 1]
  }

  lemma FlattenSnoc(lists: seq<seq<string>>, last: seq<string>)
    ensures Flatten(lists + [last]) == Flatten(lists) + last
  {
    assert (lists + [last])[..|lists|] == lists;
  }

  /** The number of links the seeds yield. */
  function TotalDiscovered(seeds: seq<string>, fetch: string -> Fetched): nat {
    if seeds == [] then 0
    else TotalDiscovered(seeds[..|seeds| - 1], fetch) + |CrawlSet(seeds[|seeds| - 1], fetch(seeds[|seeds| - 1]))|
  }

  /** Lists of the seeds' links, flattened, have as many links as the seeds yield. */
  lemma {:induction false} FlattenCount(lists: seq<seq<string>>, seeds: seq<string>, fetch: string -> Fetched)
    requires |lists| == |seeds|
    requires forall k :: 0 <= k < |seeds| ==> |lists[k]| == |CrawlSet(seeds[k], fetch(seeds[k]))|
    ensures |Flatten(lists)| == TotalDiscovered(seeds, fetch)
  {
    if lists != [] {
      FlattenCount(lists[..|lists| - 1], seeds[..|seeds| - 1], fetch);
    }
  }

  /** The inner loop of `main`: the metrics of each found link in turn, after the rows
      of the links checked before. */
  method CheckLinks(ghost done: seq<string>, rows: seq<Metrics>, found: seq<string>,
                    fetch: string -> Fetched, resolve: string -> Result<string, string>)
    returns (run: Result<seq<Metrics>, string>)
    requires StatusRows(done, fetch, resolve) == Success(rows)
    ensures run == StatusRows(done + found, fetch, resolve)
  {
    var results := rows;
    assert done + found[..0] == done;
    for j := 0 to |found|
      invariant StatusRows(done + found[..j], fetch, resolve) == Success(results)
    {
      var link := found[j];
      ConcatSnoc(done, found, j);
      StatusRowsSnoc(done + found[..j], link, fetch, resolve);
      var metrics := GetMetrics(link, fetch(link), resolve(link));
      if metrics.Failure? {
        ConcatSplit(done, found, j + 1);
        StatusRowsStop(done + found[..j + 1], found[j + 1..], fetch, resolve);
        return Failure(metrics.error);
      }
      results := results + [Row(link, metrics.value)];
    }
    assert found[..|found|] == found;
    return Success(results);
  }

  /** `crawled[k]` lists, without repeats, the links `crawl_website` finds from `seeds[k]`. */
  predicate CrawledFrom(crawled: seq<seq<string>>, seeds: seq<string>, fetch: string -> Fetched) {
    |crawled| <= |seeds| &&
    forall k :: 0 <= k < |crawled| ==>
      Distinct(crawled[k]) && Elements(crawled[k]) == CrawlSet(seeds[k], fetch(seeds[k]))
  }

  lemma CrawledFromPrefix(crawled: seq<seq<string>>, seeds: seq<string>, more: seq<string>, fetch: string -> Fetched)
    requires CrawledFrom(crawled, seeds, fetch) && seeds <= more
    ensures CrawledFrom(crawled, more, fetch)
  {
    assert forall k :: 0 <= k < |seeds| ==> seeds[k] == more[k];
  }

  lemma CrawledFromStep(crawled: seq<seq<string>>, seeds: seq<string>, found: seq<string>, seed: string, fetch: string -> Fetched)
    requires CrawledFrom(crawled, seeds, fetch) && |crawled| == |seeds|
    requires Distinct(found) && Elements(found) == CrawlSet(seed, fetch(seed))
    ensures CrawledFrom(crawled + [found], seeds + [seed], fetch)
  {
  }

  /** A complete run has one row per link found from the seeds. */
  lemma RowCount(crawled: seq<seq<string>>, seeds: seq<string>, fetch: string -> Fetched, resolve: string -> Result<string, string>)
    requires CrawledFrom(crawled, seeds, fetch) && |crawled| == |seeds|
    requires StatusRows(Flatten(crawled), fetch, resolve).Success?
    ensures |StatusRows(Flatten(crawled), fetch, resolve).value| == TotalDiscovered(seeds, fetch)
  {
    StatusRowsSuccess(Flatten(crawled), fetch, resolve);
    forall k | 0 <= k < |crawled|
      ensures |crawled[k]| == |CrawlSet(seeds[k], fetch(seeds[k]))|
    {
      DistinctCard(crawled[k]);
    }
    FlattenCount(crawled, seeds, fetch);
  }

  /** Every link found from the seeds. */
  function FoundLinks(seeds: seq<string>, fetch: string -> Fetched): set<string> {
    if seeds == [] then {}
    else FoundLinks(seeds[..|seeds| - 1], fetch) + CrawlSet(seeds[|seeds| - 1], fetch(seeds[|seeds| - 1]))
  }

  /** The first seeds find no more links than all of them. */
  lemma {:induction false} FoundLinksPrefix(seeds: seq<string>, n: nat, fetch: string -> Fetched)
    requires n <= |seeds|
    ensures FoundLinks(seeds[..n], fetch) <= FoundLinks(seeds, fetch)
    decreases |seeds|
  {
    if n < |seeds| {
      var init := seeds[..|seeds| - 1];
      assert init[..n] == seeds[..n];
      FoundLinksPrefix(init, n, fetch);
    } else {
      assert seeds[..n] == seeds;
    }
  }

  /** The listed links of the first seeds, together, are the links those seeds find. */
  lemma {:induction false} FlattenElements(crawled: seq<seq<string>>, seeds: seq<string>, fetch: string -> Fetched)
    requires CrawledFrom(crawled, seeds, fetch)
    ensures Elements(Flatten(crawled)) == FoundLinks(seeds[..|crawled|], fetch)
    decreases |crawled|
  {
    if crawled != [] {
      var n := |crawled|;
      var init := crawled[..n - 1];
      assert forall k :: 0 <= k < n - 1 ==> init[k] == crawled[k];
      assert CrawledFrom(init, seeds, fetch);
      FlattenElements(init, seeds, fetch);
      ElementsConcat(Flatten(init), crawled[n - 1]);
      assert seeds[..n][..n - 1] == seeds[..n - 1];
    }
  }

  /** The run stops exactly when some link found from the seeds got a response whose
      host-name lookup failed, whatever order the links were listed in. */
  lemma RunFailure(crawled: seq<seq<string>>, seeds: seq<string>, fetch: string -> Fetched, resolve: string -> Result<string, string>)
    requires CrawledFrom(crawled, seeds, fetch)
    requires StatusRows(Flatten(crawled), fetch, resolve).Success? ==> |crawled| == |seeds|
    ensures StatusRows(Flatten(crawled), fetch, resolve).Failure? <==>
      exists link :: link in FoundLinks(seeds, fetch) && fetch(link).Got? && resolve(link).Failure?
  {
    var links := Flatten(crawled);
    StatusRowsFailure(links, fetch, resolve);
    FlattenElements(crawled, seeds, fetch);
    FoundLinksPrefix(seeds, |crawled|, fetch);
    if StatusRows(links, fetch, resolve).Success? {
      assert seeds[..|crawled|] == seeds;
      forall link | link in FoundLinks(seeds, fetch) && fetch(link).Got?
        ensures resolve(link).Success?
      {
        assert link in Elements(links);
        var i :| 0 <= i < |links| && links[i] == link;
      }
    } else {
      var i :| 0 <= i < |links| && fetch(links[i]).Got? && resolve(links[i]).Failure?;
      assert links[i] in Elements(links);
    }
  }

  lemma CrawledFromLines(crawled: seq<seq<string>>, lines: seq<string>, i: nat, fetch: string -> Fetched)
    requires i <= |lines| && CrawledFrom(crawled, NonBlankLines(lines[..i]), fetch)
    ensures CrawledFrom(crawled, NonBlankLines(lines), fetch)
  {
    NonBlankLinesPrefix(lines, i);
    CrawledFromPrefix(crawled, NonBlankLines(lines[..i]), NonBlankLines(lines), fetch);
  }

  /** One pass of `main`'s outer loop: a blank line is skipped; any other line is stripped,
      crawled, and every link found is checked after the links checked before. */
  method CheckLine(line: string, ghost seeds: seq<string>, ghost crawled: seq<seq<string>>, rows: seq<Metrics>,
                   fetch: string -> Fetched, resolve: string -> Result<string, string>)
    returns (next: Result<seq<Metrics>, string>, ghost after: seq<seq<string>>)
    requires CrawledFrom(crawled, seeds, fetch) && |crawled| == |seeds|
    requires StatusRows(Flatten(crawled), fetch, resolve) == Success(rows)
    ensures var more := if Strip(line) == "" then [] else [Strip(line)];
      CrawledFrom(after, seeds + more, fetch) && |after| == |seeds + more|
    ensures next == StatusRows(Flatten(after), fetch, resolve)
  {
    var baseUrl := Strip(line);
    if baseUrl == "" {
      return Success(rows), crawled;
    }
    var found := CrawlWebsite(baseUrl, fetch(baseUrl));
    next := CheckLinks(Flatten(crawled), rows, found, fetch, resolve);
    FlattenSnoc(crawled, found);
    CrawledFromStep(crawled, seeds, found, baseUrl, fetch);
    after := crawled + [found];
  }

  /** `main`: crawl every non-blank line's URL and check every link found. `crawled` records
      the order in which each seed's links were listed; a failed host-name lookup stops the run. */
  method CheckSites(lines: seq<string>, fetch: string -> Fetched, resolve: string -> Result<string, string>)
    returns (run: Result<seq<Metrics>, string>, ghost crawled: seq<seq<string>>)
    ensures CrawledFrom(crawled, NonBlankLines(lines), fetch)
    ensures run == StatusRows(Flatten(crawled), fetch, resolve)
    ensures run.Success? ==> |crawled| == |NonBlankLines(lines)|
    ensures run.Success? ==> |run.value| == TotalDiscovered(NonBlankLines(lines), fetch)
    ensures run.Failure? <==>
      exists link :: link in FoundLinks(NonBlankLines(lines), fetch) && fetch(link).Got? && resolve(link).Failure?
  {
    var rows: seq<Metrics> := [];
    crawled := [];
    for i := 0 to |lines|
      invariant |crawled| == |NonBlankLines(lines[..i])|
      invariant CrawledFrom(crawled, NonBlankLines(lines[..i]), fetch)
      invariant StatusRows(Flatten(crawled), fetch, resolve) == Success(rows)
    {
      NonBlankLinesStep(lines, i);
      var next;
      next, crawled := CheckLine(lines[i], NonBlankLines(lines[..i]), crawled, rows, fetch, resolve);
      if next.Failure? {
        CrawledFromLines(crawled, lines, i + 1, fetch);
        RunFailure(crawled, NonBlankLines(lines), fetch, resolve);
        return next, crawled;
      }
      rows := next.value;
    }
    assert lines[..|lines|] == lines;
    run := Success(rows);
    RowCount(crawled, NonBlankLines(lines), fetch, resolve);
    RunFailure(crawled, NonBlankLines(lines), fetch, resolve);
  }
}
