/** Backlink monitor: for each backlink, whether its page asks not to be indexed, its HTTP
    status, and the domain authority, page authority and spam score reported by the Moz API. */
module BacklinkMonitor {
  import opened Wrappers
  import opened Text
  import opened Html
  import opened Collections

  /** One entry of the `results` list of a Moz reply: its fields by name. */
  type MozEntry = map<string, Value>

  /** The outcome of the Moz `url_metrics` request: a raised exception, or a reply with its
      status and its `results` list (None when the body is not JSON holding such a list). */
  datatype MozReply =
    | MozRaised(message: string)
    | MozResponded(status: nat, results: Option<seq<MozEntry>>)

  /** Domain authority, page authority and spam score; Null stands for Python's None. */
  datatype MozMetrics = MozMetrics(domainAuthority: Value, pageAuthority: Value, spamScore: Value)

  const NO_METRICS := MozMetrics(Null, Null, Null)

  const DOMAIN_AUTHORITY := "domain_authority"
  const PAGE_AUTHORITY := "page_authority"
  const SPAM_SCORE := "spam_score"

  /** The reply holds a first entry with all three fields. */
  predicate HasFirstEntry(reply: MozReply) {
    reply.MozResponded? && reply.status == 200 && reply.results.Some? && |reply.results.value| > 0 &&
    var entry := reply.results.value[0];
    DOMAIN_AUTHORITY in entry && PAGE_AUTHORITY in entry && SPAM_SCORE in entry
  }

  /** `get_moz_metrics(url)`: the first entry's three fields from a 200 reply that has them;
      the three Nones for any other status, any exception, a missing list, an empty list or a
      missing field. A value other than None can only come from a 200 reply. */
  function GetMozMetrics(reply: MozReply): (m: MozMetrics)
    ensures HasFirstEntry(reply) ==>
      var entry := reply.results.value[0];
      m == MozMetrics(entry[DOMAIN_AUTHORITY], entry[PAGE_AUTHORITY], entry[SPAM_SCORE])
    ensures !HasFirstEntry(reply) ==> m == NO_METRICS
    ensures m != NO_METRICS ==> reply.MozResponded? && reply.status == 200
  {
    match reply
    case MozRaised(_) => NO_METRICS
    case MozResponded(status, results) =>
      if status != 200 then NO_METRICS
      else match results
        case None => NO_METRICS
        case Some(entries) =>
          if |entries| == 0 then NO_METRICS
          else
            var entry := entries[0];
            if DOMAIN_AUTHORITY in entry && PAGE_AUTHORITY in entry && SPAM_SCORE in entry then
              MozMetrics(entry[DOMAIN_AUTHORITY], entry[PAGE_AUTHORITY], entry[SPAM_SCORE])
            else NO_METRICS
  }

  /** The `attrs` of the noindex search. */
  const NOINDEX_ATTRS: map<string, string> := map["name" := "robots", "content" := "noindex"]

  /** The Status column of a retrieved page. */
  function IndexedStatus(tags: seq<Tag>): string {
    if Find(tags, "meta", NOINDEX_ATTRS).Some? then "Noindex" else "Indexed"
  }

  /** The page is "Noindex" exactly when one of its meta tags has `name` "robots" and `content`
      exactly "noindex", and "Indexed" otherwise. */
  lemma NoindexIff(tags: seq<Tag>)
    ensures IndexedStatus(tags) == "Noindex" || IndexedStatus(tags) == "Indexed"
    ensures IndexedStatus(tags) == "Noindex" <==>
      exists t :: t in tags && t.name == "meta" && "name" in t.attrs && t.attrs["name"] == "robots" &&
        "content" in t.attrs && t.attrs["content"] == "noindex"
  {
    var want := NOINDEX_ATTRS;
    assert "name" in want && want["name"] == "robots";
    assert "content" in want && want["content"] == "noindex";
    match Find(tags, "meta", want)
    case Some(i) =>
      assert tags[i] in tags;
    case None =>
      forall t | t in tags
        ensures !(t.name == "meta" && "name" in t.attrs && t.attrs["name"] == "robots" &&
                  "content" in t.attrs && t.attrs["content"] == "noindex")
      {
        var j :| 0 <= j < |tags| && tags[j] == t;
        assert !Matches(tags[j], "meta", want);
        assert forall k :: k in want ==> k == "name" || k == "content";
      }
  }

  /** A robots directive that lists more than `noindex` does not count. */
  lemma NoindexNofollowIsIndexed()
    ensures IndexedStatus([Tag("meta", map["name" := "robots", "content" := "noindex, nofollow"], None)]) == "Indexed"
  {
    var t := Tag("meta", map["name" := "robots", "content" := "noindex, nofollow"], None);
    assert "content" in NOINDEX_ATTRS && NOINDEX_ATTRS["content"] == "noindex";
    assert t.attrs["content"] != "noindex" by {
      assert |t.attrs["content"]| != |"noindex"|;
    }
    assert !Matches(t, "meta", NOINDEX_ATTRS);
  }

  /** A row of the output: Backlink, Status, Response Code, Domain Authority, Page Authority
      and Spam Score. */
  datatype Row = Row(backlink: string, status: string, responseCode: Value,
                     domainAuthority: Value, pageAuthority: Value, spamScore: Value)

  /** `check_backlink_status(backlink)`, given the outcome of its request and of the Moz request. */
  function CheckBacklinkStatus(backlink: string, reply: Fetched, moz: MozReply): Row {
    match reply
    case Raised(message) => Row(backlink, "Error", Str(message), Null, Null, Null)
    case Got(resp) =>
      var metrics := GetMozMetrics(moz);
      Row(backlink, IndexedStatus(resp.page.tags), Int(resp.status),
          metrics.domainAuthority, metrics.pageAuthority, metrics.spamScore)
  }

  /** A failed request gives the error row without metrics; a response gives its status code,
      the indexing status of its page and the Moz metrics. The Status is "Error" exactly for a
      failed request, and "Noindex" exactly when the page has a meta tag with `name` "robots"
      and `content` exactly "noindex". */
  lemma CheckOutcome(backlink: string, reply: Fetched, moz: MozReply)
    ensures var row := CheckBacklinkStatus(backlink, reply, moz);
      row.backlink == backlink &&
      (row.status == "Error" <==> reply.Raised?) &&
      (reply.Raised? ==> row == Row(backlink, "Error", Str(reply.message), Null, Null, Null)) &&
      (reply.Got? ==>
        row.responseCode == Int(reply.response.status) &&
        row.status == IndexedStatus(reply.response.page.tags) &&
        (row.status == "Noindex" || row.status == "Indexed") &&
        (row.status == "Noindex" <==>
          exists t :: t in reply.response.page.tags && t.name == "meta" && "name" in t.attrs &&
            t.attrs["name"] == "robots" && "content" in t.attrs && t.attrs["content"] == "noindex") &&
        MozMetrics(row.domainAuthority, row.pageAuthority, row.spamScore) == GetMozMetrics(moz))
  {
    if reply.Got? {
      NoindexIff(reply.response.page.tags);
    }
  }

  /** The row of one backlink. */
  function CheckWith(fetch: string -> Fetched, moz: string -> MozReply): string -> Row {
    backlink => CheckBacklinkStatus(backlink, fetch(backlink), moz(backlink))
  }

  /** `main`: one row per line that is not blank once stripped, in file order. */
  method MonitorBacklinks(lines: seq<string>, fetch: string -> Fetched, moz: string -> MozReply)
    returns (rows: seq<Row>)
    ensures rows == MapSeq(CheckWith(fetch, moz), NonBlankLines(lines))
  {
    rows := [];
    for i := 0 to |lines|
      invariant rows == MapSeq(CheckWith(fetch, moz), NonBlankLines(lines[..i]))
    {
      NonBlankLinesStep(lines, i);
      var backlink := Strip(lines[i]);
      if backlink != "" {
        MapSeqAppend(CheckWith(fetch, moz), NonBlankLines(lines[..i]), backlink);
        var result := CheckBacklinkStatus(backlink, fetch(backlink), moz(backlink));
        rows := rows + [result];
      }
    }
    assert lines[..|lines|] == lines;
  }
}
