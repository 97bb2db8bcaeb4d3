/** On-page SEO analysis: one record of on-page signals per URL, or an error record. */
module SeoAnalysis {
  import opened Wrappers
  import opened Text
  import opened Collections
  import opened Html

  /** The keys a result dictionary can have; `Key` gives each its column name. */
  datatype Field =
    | Url | Title | MetaDescription | MetaKeywords | RobotsTag | WordCount | H1Count
    | TotalLinks | InternalLinkCount | ExternalLinkCount | TotalImages | ImagesWithoutAlt
    | ImagesWithoutTitle | SchemaCount | HreflangTags | OpenGraphTags | TwitterCardTags | Error
  {
    function Key(): string {
      match this
      case Url => "URL"
      case Title => "Title"
      case MetaDescription => "Meta Description"
      case MetaKeywords => "Meta Keywords"
      case RobotsTag => "Robots Tag"
      case WordCount => "Word Count"
      case H1Count => "H1 Count"
      case TotalLinks => "Total Links"
      case InternalLinkCount => "Internal Links"
      case ExternalLinkCount => "External Links"
      case TotalImages => "Total Images"
      case ImagesWithoutAlt => "Images Without Alt"
      case ImagesWithoutTitle => "Images Without Title"
      case SchemaCount => "Schema Count"
      case HreflangTags => "Hreflang Tags"
      case OpenGraphTags => "Open Graph Tags"
      case TwitterCardTags => "Twitter Card Tags"
      case Error => "Error"
    }
  }

  /** A result dictionary. */
  type Record = map<Field, Value>

  const NO_TITLE := "No title found"
  const NO_DESCRIPTION := "No meta description found"
  const NO_KEYWORDS := "No meta keywords found"
  const NO_ROBOTS := "No robots tag found"
  const FAILED_TO_RETRIEVE := "Failed to retrieve"

  /** The keys of a successful record: all of them. */
  const FIELDS: set<Field> := {
    Url, Title, MetaDescription, MetaKeywords, RobotsTag, WordCount, H1Count, TotalLinks,
    InternalLinkCount, ExternalLinkCount, TotalImages, ImagesWithoutAlt, ImagesWithoutTitle,
    SchemaCount, HreflangTags, OpenGraphTags, TwitterCardTags, Error
  }

  /** `{"URL": url, "Error": message}`. */
  function ErrorRecord(url: string, message: string): Record {
    map[Url := Str(url), Error := Str(message)]
  }

  /** Python's value for an optional string: the string, or None. */
  function StringValue(o: Option<string>): Value {
    if o.Some? then Str(o.value) else Null
  }

  /** `soup.title.string if soup.title else "No title found"`. */
  function TitleValue(tags: seq<Tag>): Value {
    match Find(tags, "title", map[])
    case None => Str(NO_TITLE)
    case Some(i) => StringValue(tags[i].str)
  }

  /** `tag['content'] if tag else sentinel` for `tag = soup.find('meta', attrs={'name': metaName})`. */
  function MetaContent(tags: seq<Tag>, metaName: string, sentinel: string): (r: Result<string, string>)
    ensures r.Failure? ==> r.error == KeyErrorMessage("content")
  {
    match Find(tags, "meta", map["name" := metaName])
    case None => Success(sentinel)
    case Some(i) => Index(tags[i], "content")
  }

  /** An anchor is internal when the page URL occurs in its `href` (a missing `href` reads as ''). */
  predicate IsInternal(url: string, a: Tag) {
    Contains(Get(a, "href", ""), url)
  }

  function InternalLinks(anchors: seq<Tag>, url: string): seq<Tag> {
    Filter(anchors, a => IsInternal(url, a))
  }

  function ExternalLinks(anchors: seq<Tag>, url: string): seq<Tag> {
    Filter(anchors, a => !IsInternal(url, a))
  }

  /** `[img for img in images if not img.get(key)]`. */
  function WithoutAttr(images: seq<Tag>, key: string): seq<Tag> {
    Filter(images, t => !HasValue(t, key))
  }

  /** `soup.find_all('link', attrs={'rel': 'alternate', 'hreflang': True})`; `rel` is a
      whitespace-separated multi-valued attribute, so it matches when one of its values is `alternate`. */
  predicate IsHreflang(t: Tag) {
    t.name == "link" && "rel" in t.attrs && "alternate" in Split(t.attrs["rel"]) && "hreflang" in t.attrs
  }

  /** The keys of `{tag[key]: tag['content'] for tag in metas if tag.get(key)}`, or the message of
      the KeyError raised by the first such tag without `content`. */
  function DictKeys(metas: seq<Tag>, key: string): (r: Result<set<string>, string>)
    ensures r.Success? ==> |r.value| <= |metas|
    ensures r.Failure? ==> r.error == KeyErrorMessage("content")
  {
    if metas == [] then Success({})
    else if !HasValue(metas[0], key) then
      var rest := DictKeys(metas[1..], key);
      rest
    else
      match Index(metas[0], "content")
      case Failure(e) => Failure(e)
      case Success(_) =>
        var rest :- DictKeys(metas[1..], key);
        Success({metas[0].attrs[key]} + rest)
  }

  /** Some meta tag that the analysis reads `content` from has none: one with a non-empty
      `property` or a non-empty `name`. */
  predicate ContentMissing(tags: seq<Tag>) {
    exists t :: t in tags && t.name == "meta" && "content" !in t.attrs && (HasValue(t, "property") || HasValue(t, "name"))
  }

  /** The counted signals of a page. */
  datatype Counts = Counts(
    words: nat, h1: nat, links: nat, internal: nat, external: nat, images: nat,
    withoutAlt: nat, withoutTitle: nat, schemas: nat, hreflang: nat)

  /** The on-page signals of a page, before they are laid out as a record. */
  datatype Signals = Signals(
    title: Value, description: string, keywords: string, robots: string, counts: Counts,
    openGraph: nat, twitterCard: nat)

  /** The counts `seo_analysis` takes of a page; none of them can raise. */
  function CountSignals(url: string, page: Page): Counts {
    var tags := page.tags;
    var anchors := FindAll(tags, "a", map[]);
    var images := FindAll(tags, "img", map[]);
    Counts(
      |Split(page.text)|, |FindAll(tags, "h1", map[])|, |anchors|,
      |InternalLinks(anchors, url)|, |ExternalLinks(anchors, url)|, |images|,
      |WithoutAttr(images, "alt")|, |WithoutAttr(images, "title")|,
      |FindAll(tags, "script", map["type" := "application/ld+json"])|,
      |Filter(tags, IsHreflang)|)
  }

  /** The extraction steps of `seo_analysis` on a page that came back with status 200; a
      Failure is the message of the exception raised on the way. */
  function Extract(url: string, page: Page): Result<Signals, string> {
    var tags := page.tags;
    var description :- MetaContent(tags, "description", NO_DESCRIPTION);
    var keywords :- MetaContent(tags, "keywords", NO_KEYWORDS);
    var robots :- MetaContent(tags, "robots", NO_ROBOTS);
    var metas := FindAll(tags, "meta", map[]);
    var openGraph :- DictKeys(metas, "property");
    var twitterCard :- DictKeys(metas, "name");
    Success(Signals(TitleValue(tags), description, keywords, robots, CountSignals(url, page),
                    |openGraph|, |twitterCard|))
  }

  /** The entry of each key in the dictionary `seo_analysis` returns on success. */
  function FieldValue(url: string, s: Signals, f: Field): Value {
    match f
    case Url => Str(url)
    case Title => s.title
    case MetaDescription => Str(s.description)
    case MetaKeywords => Str(s.keywords)
    case RobotsTag => Str(s.robots)
    case WordCount => Int(s.counts.words)
    case H1Count => Int(s.counts.h1)
    case TotalLinks => Int(s.counts.links)
    case InternalLinkCount => Int(s.counts.internal)
    case ExternalLinkCount => Int(s.counts.external)
    case TotalImages => Int(s.counts.images)
    case ImagesWithoutAlt => Int(s.counts.withoutAlt)
    case ImagesWithoutTitle => Int(s.counts.withoutTitle)
    case SchemaCount => Int(s.counts.schemas)
    case HreflangTags => Int(s.counts.hreflang)
    case OpenGraphTags => Int(s.openGraph)
    case TwitterCardTags => Int(s.twitterCard)
    case Error => Null
  }

  /** The dictionary `seo_analysis` returns on success: every key, the URL, and a None Error. */
  function ToRecord(url: string, s: Signals): (r: Record)
    ensures r.Keys == FIELDS && r[Url] == Str(url) && r[Error] == Null
  {
    map f | f in FIELDS :: FieldValue(url, s, f)
  }

  /** Where the title and meta signals land in the record. */
  lemma ToRecordTexts(url: string, s: Signals)
    ensures var r := ToRecord(url, s);
      && r[Title] == s.title && r[MetaDescription] == Str(s.description)
      && r[MetaKeywords] == Str(s.keywords) && r[RobotsTag] == Str(s.robots)
  {
  }

  /** Where each count lands in the record. */
  lemma ToRecordCounts(url: string, s: Signals)
    ensures var r := ToRecord(url, s);
      && r[WordCount] == Int(s.counts.words) && r[H1Count] == Int(s.counts.h1)
      && r[TotalLinks] == Int(s.counts.links) && r[InternalLinkCount] == Int(s.counts.internal)
      && r[ExternalLinkCount] == Int(s.counts.external) && r[TotalImages] == Int(s.counts.images)
      && r[ImagesWithoutAlt] == Int(s.counts.withoutAlt) && r[ImagesWithoutTitle] == Int(s.counts.withoutTitle)
      && r[SchemaCount] == Int(s.counts.schemas) && r[HreflangTags] == Int(s.counts.hreflang)
      && r[OpenGraphTags] == Int(s.openGraph) && r[TwitterCardTags] == Int(s.twitterCard)
  {
  }

  /** The analysis of a page that came back with status 200. */
  function Analyze(url: string, page: Page): Result<Record, string> {
    var signals :- Extract(url, page);
    Success(ToRecord(url, signals))
  }

  /** `seo_analysis(url)` given the outcome of its `requests.get(url)`. Every outcome is a
      record that names the URL and has an Error field. */
  function SeoAnalysis(url: string, fetched: Fetched): (r: Record)
    ensures Url in r && r[Url] == Str(url) && Error in r
  {
    match fetched
    case Raised(message) => ErrorRecord(url, message)
    case Got(response) =>
      if response.status != 200 then ErrorRecord(url, FAILED_TO_RETRIEVE)
      else match Analyze(url, response.page)
        case Failure(message) => ErrorRecord(url, message)
        case Success(record) => record
  }

  /** The page has a `<meta name=metaName>` tag. */
  predicate HasMeta(tags: seq<Tag>, metaName: string) {
    exists t :: t in tags && Matches(t, "meta", map["name" := metaName])
  }

  /** The distinct non-empty values of attribute `key` over `metas`. */
  ghost function KeyValues(metas: seq<Tag>, key: string): set<string> {
    set t | t in metas && HasValue(t, key) :: t.attrs[key]
  }

  /** The values over a sequence are those of its head and of its tail. */
  lemma KeyValuesCons(metas: seq<Tag>, key: string)
    requires metas != []
    ensures KeyValues(metas, key) ==
      (if HasValue(metas[0], key) then {metas[0].attrs[key]} else {}) + KeyValues(metas[1..], key)
  {
    assert forall t :: t in metas <==> t == metas[0] || t in metas[1..];
  }

  /** The dictionary comprehension raises exactly when a qualifying tag lacks `content`;
      otherwise its keys are the distinct values of `key` over the qualifying tags. */
  lemma {:induction false} DictKeysOutcome(metas: seq<Tag>, key: string)
    ensures DictKeys(metas, key).Failure? <==> exists t :: t in metas && HasValue(t, key) && "content" !in t.attrs
    ensures DictKeys(metas, key).Success? ==> DictKeys(metas, key).value == KeyValues(metas, key)
  {
    if metas != [] {
      DictKeysOutcome(metas[1..], key);
      assert forall t :: t in metas <==> t == metas[0] || t in metas[1..];
      if DictKeys(metas, key).Success? {
        KeyValuesCons(metas, key);
      }
    }
  }

  /** Without a `<meta name=metaName>` the sentinel is used; otherwise `content` is read from
      the first such tag, and fails exactly when that tag has none. A failure is the KeyError,
      raised by a meta tag with a non-empty `name` and no `content`. */
  lemma MetaContentOutcome(tags: seq<Tag>, metaName: string, sentinel: string)
    requires metaName != ""
    ensures var r := MetaContent(tags, metaName, sentinel);
      && (!HasMeta(tags, metaName) ==> r == Success(sentinel))
      && (HasMeta(tags, metaName) ==>
            exists i :: FirstMatch(tags, "meta", map["name" := metaName], i) && r == Index(tags[i], "content"))
      && (r.Failure? ==> (r.error == KeyErrorMessage("content")
            && exists t :: t in tags && t.name == "meta" && "content" !in t.attrs && HasValue(t, "name")))
  {
    var want := map["name" := metaName];
    match Find(tags, "meta", want)
    case None =>
    case Some(i) =>
      assert FirstMatch(tags, "meta", want, i);
      if "content" !in tags[i].attrs {
        assert "name" in want && want["name"] == metaName;
        assert tags[i] in tags && HasValue(tags[i], "name");
      }
  }

  /** Extraction fails exactly when one of the five steps that can raise does. */
  lemma ExtractSteps(url: string, page: Page)
    ensures var tags := page.tags; var metas := FindAll(tags, "meta", map[]);
      Extract(url, page).Failure? <==>
        || MetaContent(tags, "description", NO_DESCRIPTION).Failure?
        || MetaContent(tags, "keywords", NO_KEYWORDS).Failure?
        || MetaContent(tags, "robots", NO_ROBOTS).Failure?
        || DictKeys(metas, "property").Failure?
        || DictKeys(metas, "name").Failure?
  {
  }

  /** Every step of the extraction that can raise raises the KeyError. */
  lemma ExtractError(url: string, page: Page)
    ensures Extract(url, page).Failure? ==> Extract(url, page).error == KeyErrorMessage("content")
  {
  }

  /** The analysis raises exactly when some meta tag it reads `content` from has none,
      and the message is then that of the KeyError. */
  lemma ExtractOutcome(url: string, page: Page)
    ensures Extract(url, page).Failure? <==> ContentMissing(page.tags)
    ensures Extract(url, page).Failure? ==> Extract(url, page).error == KeyErrorMessage("content")
  {
    var tags := page.tags;
    var metas := FindAll(tags, "meta", map[]);
    var description := MetaContent(tags, "description", NO_DESCRIPTION).Failure?;
    var keywords := MetaContent(tags, "keywords", NO_KEYWORDS).Failure?;
    var robots := MetaContent(tags, "robots", NO_ROBOTS).Failure?;
    var property := DictKeys(metas, "property").Failure?;
    var name := DictKeys(metas, "name").Failure?;
    assert Extract(url, page).Failure? <==> description || keywords || robots || property || name by {
      ExtractSteps(url, page);
    }
    assert description || keywords || robots ==> ContentMissing(tags) by {
      MetaContentOutcome(tags, "description", NO_DESCRIPTION);
      MetaContentOutcome(tags, "keywords", NO_KEYWORDS);
      MetaContentOutcome(tags, "robots", NO_ROBOTS);
    }
    assert property || name <==> ContentMissing(tags) by {
      DictKeysOutcome(metas, "property");
      DictKeysOutcome(metas, "name");
      if ContentMissing(tags) {
        var t :| t in tags && t.name == "meta" && "content" !in t.attrs && (HasValue(t, "property") || HasValue(t, "name"));
        MatchesName(t, "meta");
        assert t in metas;
      }
      if property {
        var t :| t in metas && HasValue(t, "property") && "content" !in t.attrs;
        assert t in tags && t.name == "meta";
      }
      if name {
        var t :| t in metas && HasValue(t, "name") && "content" !in t.attrs;
        assert t in tags && t.name == "meta";
      }
    }
    ExtractError(url, page);
  }

  /** Analysis fails as extraction does; a successful analysis has every field and a None Error. */
  lemma AnalyzeOutcome(url: string, page: Page)
    ensures Analyze(url, page).Failure? <==> ContentMissing(page.tags)
    ensures Analyze(url, page).Failure? ==> Analyze(url, page).error == KeyErrorMessage("content")
    ensures Analyze(url, page).Success? ==>
      Analyze(url, page).value.Keys == FIELDS && Analyze(url, page).value[Error] == Null
  {
    ExtractOutcome(url, page);
  }

  /** Every outcome of `seo_analysis`: a raised request, a status other than 200 and a
      failed analysis give a two-key error record; a successful one has every field and a
      None Error. */
  lemma RecordOutcome(url: string, fetched: Fetched)
    ensures fetched.Raised? ==> SeoAnalysis(url, fetched) == ErrorRecord(url, fetched.message)
    ensures fetched.Got? && fetched.response.status != 200 ==>
      SeoAnalysis(url, fetched) == ErrorRecord(url, FAILED_TO_RETRIEVE)
    ensures fetched.Got? && fetched.response.status == 200 && ContentMissing(fetched.response.page.tags) ==>
      SeoAnalysis(url, fetched) == ErrorRecord(url, KeyErrorMessage("content"))
    ensures fetched.Got? && fetched.response.status == 200 && !ContentMissing(fetched.response.page.tags) ==>
      SeoAnalysis(url, fetched).Keys == FIELDS && SeoAnalysis(url, fetched)[Error] == Null
    ensures fetched.Got? && fetched.response.status == 200 && !ContentMissing(fetched.response.page.tags) ==>
      Analyze(url, fetched.response.page).Success? &&
      SeoAnalysis(url, fetched) == Analyze(url, fetched.response.page).value
    ensures SeoAnalysis(url, fetched)[Error] == Null <==>
      fetched.Got? && fetched.response.status == 200 && !ContentMissing(fetched.response.page.tags)
  {
    if fetched.Got? && fetched.response.status == 200 {
      AnalyzeOutcome(url, fetched.response.page);
    }
  }

  /** What a successful extraction holds, step by step. */
  lemma ExtractedSignals(url: string, page: Page)
    requires Extract(url, page).Success?
    ensures var sig, tags := Extract(url, page).value, page.tags;
      && Analyze(url, page) == Success(ToRecord(url, sig))
      && sig.title == TitleValue(tags)
      && MetaContent(tags, "description", NO_DESCRIPTION) == Success(sig.description)
      && MetaContent(tags, "keywords", NO_KEYWORDS) == Success(sig.keywords)
      && MetaContent(tags, "robots", NO_ROBOTS) == Success(sig.robots)
      && sig.counts == CountSignals(url, page)
      && DictKeys(FindAll(tags, "meta", map[]), "property").Success?
      && sig.openGraph == |DictKeys(FindAll(tags, "meta", map[]), "property").value|
      && DictKeys(FindAll(tags, "meta", map[]), "name").Success?
      && sig.twitterCard == |DictKeys(FindAll(tags, "meta", map[]), "name").value|
  {
  }

  /** Absent title and meta tags give their sentinels; present ones give the first match's value. */
  lemma Sentinels(url: string, page: Page)
    requires Analyze(url, page).Success?
    ensures var r, tags := Analyze(url, page).value, page.tags;
      && ((forall t :: t in tags ==> t.name != "title") ==> r[Title] == Str(NO_TITLE))
      && ((exists t :: t in tags && t.name == "title") ==>
            exists i :: FirstMatch(tags, "title", map[], i) && r[Title] == StringValue(tags[i].str))
      && (!HasMeta(tags, "description") ==> r[MetaDescription] == Str(NO_DESCRIPTION))
      && (!HasMeta(tags, "keywords") ==> r[MetaKeywords] == Str(NO_KEYWORDS))
      && (!HasMeta(tags, "robots") ==> r[RobotsTag] == Str(NO_ROBOTS))
  {
    var tags := page.tags;
    var sig := Extract(url, page).value;
    var r := Analyze(url, page).value;
    assert r == ToRecord(url, sig) && sig.title == TitleValue(tags)
      && MetaContent(tags, "description", NO_DESCRIPTION) == Success(sig.description)
      && MetaContent(tags, "keywords", NO_KEYWORDS) == Success(sig.keywords)
      && MetaContent(tags, "robots", NO_ROBOTS) == Success(sig.robots) by {
      ExtractedSignals(url, page);
    }
    assert r[Title] == sig.title && r[MetaDescription] == Str(sig.description)
      && r[MetaKeywords] == Str(sig.keywords) && r[RobotsTag] == Str(sig.robots) by {
      ToRecordTexts(url, sig);
    }
    TitleOutcome(tags);
    MetaContentOutcome(tags, "description", NO_DESCRIPTION);
    MetaContentOutcome(tags, "keywords", NO_KEYWORDS);
    MetaContentOutcome(tags, "robots", NO_ROBOTS);
  }

  /** Present meta tags give the `content` of the first `<meta name=...>` of their kind. */
  lemma MetaValues(url: string, page: Page)
    requires Analyze(url, page).Success?
    ensures var r, tags := Analyze(url, page).value, page.tags;
      && (HasMeta(tags, "description") ==>
            exists i :: FirstMatch(tags, "meta", map["name" := "description"], i) && "content" in tags[i].attrs
              && r[MetaDescription] == Str(tags[i].attrs["content"]))
      && (HasMeta(tags, "keywords") ==>
            exists i :: FirstMatch(tags, "meta", map["name" := "keywords"], i) && "content" in tags[i].attrs
              && r[MetaKeywords] == Str(tags[i].attrs["content"]))
      && (HasMeta(tags, "robots") ==>
            exists i :: FirstMatch(tags, "meta", map["name" := "robots"], i) && "content" in tags[i].attrs
              && r[RobotsTag] == Str(tags[i].attrs["content"]))
  {
    var tags := page.tags;
    var sig := Extract(url, page).value;
    var r := Analyze(url, page).value;
    assert r == ToRecord(url, sig)
      && MetaContent(tags, "description", NO_DESCRIPTION) == Success(sig.description)
      && MetaContent(tags, "keywords", NO_KEYWORDS) == Success(sig.keywords)
      && MetaContent(tags, "robots", NO_ROBOTS) == Success(sig.robots) by {
      ExtractedSignals(url, page);
    }
    assert r[MetaDescription] == Str(sig.description)
      && r[MetaKeywords] == Str(sig.keywords) && r[RobotsTag] == Str(sig.robots) by {
      ToRecordTexts(url, sig);
    }
    MetaContentOutcome(tags, "description", NO_DESCRIPTION);
    MetaContentOutcome(tags, "keywords", NO_KEYWORDS);
    MetaContentOutcome(tags, "robots", NO_ROBOTS);
  }

  /** `soup.title.string if soup.title else "No title found"`, stated by the first title tag. */
  lemma TitleOutcome(tags: seq<Tag>)
    ensures (forall t :: t in tags ==> t.name != "title") ==> TitleValue(tags) == Str(NO_TITLE)
    ensures (exists t :: t in tags && t.name == "title") ==>
      exists i :: FirstMatch(tags, "title", map[], i) && TitleValue(tags) == StringValue(tags[i].str)
  {
    match Find(tags, "title", map[])
    case None =>
      forall t | t in tags ensures t.name != "title" {
        var j :| 0 <= j < |tags| && tags[j] == t;
        assert !Matches(tags[j], "title", map[]);
        MatchesName(t, "title");
      }
    case Some(i) =>
      MatchesName(tags[i], "title");
      forall j | 0 <= j < i ensures tags[j].name != "title" {
        assert !Matches(tags[j], "title", map[]);
        MatchesName(tags[j], "title");
      }
  }

  /** Internal and external anchors partition all anchors; internal means the URL occurs in `href`. */
  lemma LinkCounts(url: string, page: Page)
    requires Analyze(url, page).Success?
    ensures var r, anchors := Analyze(url, page).value, FindAll(page.tags, "a", map[]);
      && r[TotalLinks] == Int(|anchors|)
      && r[InternalLinkCount] == Int(|InternalLinks(anchors, url)|)
      && r[ExternalLinkCount] == Int(|ExternalLinks(anchors, url)|)
      && |InternalLinks(anchors, url)| + |ExternalLinks(anchors, url)| == |anchors|
      && (forall a :: a in InternalLinks(anchors, url) <==> a in anchors && Contains(Get(a, "href", ""), url))
      && (forall a :: a in ExternalLinks(anchors, url) <==> a in anchors && !Contains(Get(a, "href", ""), url))
  {
    ExtractedSignals(url, page);
    var sig, r := Extract(url, page).value, Analyze(url, page).value;
    var anchors := FindAll(page.tags, "a", map[]);
    ToRecordCounts(url, sig);
    FilterPartition(anchors, a => IsInternal(url, a), a => !IsInternal(url, a));
  }

  /** Every counted cell is the length of the list it counts: the images without alt or title
      are those whose attribute is missing or empty, and every count is bounded by what it
      counts over. */
  lemma CountValues(url: string, page: Page)
    requires Analyze(url, page).Success?
    ensures var r, tags, images := Analyze(url, page).value, page.tags, FindAll(page.tags, "img", map[]);
      && r[TotalImages] == Int(|images|)
      && r[ImagesWithoutAlt] == Int(|WithoutAttr(images, "alt")|) && |WithoutAttr(images, "alt")| <= |images|
      && r[ImagesWithoutTitle] == Int(|WithoutAttr(images, "title")|) && |WithoutAttr(images, "title")| <= |images|
      && (forall t :: t in WithoutAttr(images, "alt") <==> t in images && ("alt" !in t.attrs || t.attrs["alt"] == ""))
      && (forall t :: t in WithoutAttr(images, "title") <==> t in images && ("title" !in t.attrs || t.attrs["title"] == ""))
      && r[WordCount] == Int(|Split(page.text)|)
      && (forall i :: 0 <= i < |Split(page.text)| ==> IsWord(Split(page.text)[i]))
      && r[H1Count] == Int(|FindAll(tags, "h1", map[])|) && |FindAll(tags, "h1", map[])| <= |tags|
      && r[SchemaCount] == Int(|FindAll(tags, "script", map["type" := "application/ld+json"])|)
      && |FindAll(tags, "script", map["type" := "application/ld+json"])| <= |tags|
      && r[HreflangTags] == Int(|Filter(tags, IsHreflang)|) && |Filter(tags, IsHreflang)| <= |tags|
  {
    ExtractedSignals(url, page);
    ToRecordCounts(url, Extract(url, page).value);
    SplitWords(page.text);
  }

  /** The word count is the number of positions of the page text where a word begins, and the
      words it counts are the text's non-whitespace characters, in order. */
  lemma WordCountOfText(url: string, page: Page)
    requires Analyze(url, page).Success?
    ensures Analyze(url, page).value[WordCount] == Int(WordStarts(page.text, true))
    ensures Concat(Split(page.text)) == Filter(page.text, NotSpace)
  {
    ExtractedSignals(url, page);
    ToRecordCounts(url, Extract(url, page).value);
    SplitCount(page.text);
    SplitConcat(page.text);
  }

  /** Open Graph and Twitter Card counts are the numbers of distinct non-empty `property`
      and `name` values over the meta tags, so they never exceed the number of meta tags. */
  lemma SocialTagCounts(url: string, page: Page)
    requires Analyze(url, page).Success?
    ensures var r, metas := Analyze(url, page).value, FindAll(page.tags, "meta", map[]);
      && r[OpenGraphTags] == Int(|KeyValues(metas, "property")|)
      && r[TwitterCardTags] == Int(|KeyValues(metas, "name")|)
      && |KeyValues(metas, "property")| <= |metas|
      && |KeyValues(metas, "name")| <= |metas|
  {
    ExtractedSignals(url, page);
    ToRecordCounts(url, Extract(url, page).value);
    DictKeysOfPage(page.tags, "property");
    DictKeysOfPage(page.tags, "name");
  }

  /** Over a whole page, the keys of the comprehension are the distinct non-empty values of
      `key` over the page's meta tags, and there are at most as many as meta tags. */
  lemma DictKeysOfPage(tags: seq<Tag>, key: string)
    requires DictKeys(FindAll(tags, "meta", map[]), key).Success?
    ensures var metas := FindAll(tags, "meta", map[]);
      && DictKeys(metas, key).value == KeyValues(metas, key)
      && |KeyValues(metas, key)| <= |metas|
      && forall v :: v in KeyValues(metas, key) <==>
           exists t :: t in tags && t.name == "meta" && HasValue(t, key) && t.attrs[key] == v
  {
    var metas := FindAll(tags, "meta", map[]);
    DictKeysOutcome(metas, key);
    forall t ensures t in metas <==> t in tags && t.name == "meta" {
      MatchesName(t, "meta");
    }
  }

  /** The record of a line of the input file, for the stripped line. */
  function AnalyzeLine(fetch: string -> Fetched): string -> Record {
    line => SeoAnalysis(Strip(line), fetch(Strip(line)))
  }

  /** `main`: one record per line of the input file, in file order, for the stripped line;
      blank lines are analysed too. */
  method AnalyzeUrls(lines: seq<string>, fetch: string -> Fetched) returns (results: seq<Record>)
    ensures results == MapSeq(AnalyzeLine(fetch), lines)
  {
    results := [];
    for i := 0 to |lines|
      invariant results == MapSeq(AnalyzeLine(fetch), lines[..i])
    {
      var url := Strip(lines[i]);
      var result := SeoAnalysis(url, fetch(url));
      MapSeqSnoc(AnalyzeLine(fetch), lines, i);
      results := results + [result];
    }
    assert lines[..|lines|] == lines;
  }

  /** Every record of `main` names its stripped line. */
  lemma AnalyzedUrls(lines: seq<string>, fetch: string -> Fetched)
    ensures var results := MapSeq(AnalyzeLine(fetch), lines);
      |results| == |lines| &&
      forall i :: 0 <= i < |lines| ==> Url in results[i] && results[i][Url] == Str(Strip(lines[i]))
  {
    var results := MapSeq(AnalyzeLine(fetch), lines);
    forall i | 0 <= i < |lines| ensures Url in results[i] && results[i][Url] == Str(Strip(lines[i])) {
      assert results[i] == SeoAnalysis(Strip(lines[i]), fetch(Strip(lines[i])));
    }
  }
}
