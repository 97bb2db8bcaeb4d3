/** The abstract view of what the scripts get from the network and from BeautifulSoup:
    a parsed page is its tags in document order plus its visible text, and an HTTP
    reply is either the message of a raised request exception or a response record. */
module Html {
  import opened Wrappers
  import opened Text
  import opened Collections

  /** One element: its name, its attributes, and BeautifulSoup's `.string` (None when the
      element does not have exactly one text child). */
  datatype Tag = Tag(name: string, attrs: map<string, string>, str: Option<string>)

  /** A parsed document: every element in document order, and `soup.get_text()`. */
  datatype Page = Page(tags: seq<Tag>, text: string)

  /** A cell of a result dictionary: Python's None, a string, an integer or a float. */
  datatype Value = Null | Str(s: string) | Int(i: int) | Real(r: real)

  /** What `requests` returns: the status code, the headers (keyed by lower-cased name, as
      the case-insensitive header dictionary compares them; see `LowerCaseKeys`), the status
      codes of the redirect history, the final URL, the parsed body, and the measured
      response time in ms. */
  datatype Response = Response(status: nat, headers: map<string, string>, history: seq<nat>,
                               url: string, page: Page, elapsedMs: real)

  /** The convention of `Response.headers`: every key is already lower case, as the
      case-insensitive dictionary compares them. */
  predicate LowerCaseKeys(headers: map<string, string>) {
    forall k :: k in headers ==> Lower(k) == k
  }

  /** The outcome of one `requests.get`: a raised exception's message or a response. */
  datatype Fetched = Raised(message: string) | Got(response: Response)

  /** `tag.get(key, default)`. */
  function Get(t: Tag, key: string, default: string): string {
    if key in t.attrs then t.attrs[key] else default
  }

  /** A truthy `tag.get(key)`: the attribute is present and not empty. */
  predicate HasValue(t: Tag, key: string) {
    key in t.attrs && t.attrs[key] != ""
  }

  /** `str(e)` for the KeyError that `tag[key]` raises. */
  function KeyErrorMessage(key: string): string {
    "'" + key + "'"
  }

  /** `tag[key]`: the attribute value, or a KeyError. */
  function Index(t: Tag, key: string): Result<string, string> {
    if key in t.attrs then Success(t.attrs[key]) else Failure(KeyErrorMessage(key))
  }

  /** The filter of `find(name, attrs=want)` / `find_all(name, attrs=want)`. */
  predicate Matches(t: Tag, name: string, want: map<string, string>) {
    t.name == name && forall k :: k in want ==> k in t.attrs && t.attrs[k] == want[k]
  }

  /** With no attribute filter, a tag matches exactly by its name. */
  lemma MatchesName(t: Tag, name: string)
    ensures Matches(t, name, map[]) <==> t.name == name
  {
  }

  /** Position `i` holds the first tag that matches. */
  predicate FirstMatch(tags: seq<Tag>, name: string, want: map<string, string>, i: int) {
    0 <= i < |tags| && Matches(tags[i], name, want) && forall j :: 0 <= j < i ==> !Matches(tags[j], name, want)
  }

  /** `soup.find(name, attrs=want)`, as the position of the first match. */
  function Find(tags: seq<Tag>, name: string, want: map<string, string>): (r: Option<nat>)
    ensures r.Some? ==> FirstMatch(tags, name, want, r.value)
    ensures r.None? <==> forall j :: 0 <= j < |tags| ==> !Matches(tags[j], name, want)
  {
    if tags == [] then None
    else if Matches(tags[0], name, want) then Some(0)
    else
      match Find(tags[1..], name, want)
      case None =>
        assert forall j :: 1 <= j < |tags| ==> tags[j] == tags[1..][j - 1];
        None
      case Some(i) =>
        assert forall j :: 1 <= j <= i ==> tags[j] == tags[1..][j - 1];
        Some(i + 1)
  }

  /** `soup.find_all(name, attrs=want)`: the matching tags, in document order. */
  function FindAll(tags: seq<Tag>, name: string, want: map<string, string>): (r: seq<Tag>)
    ensures |r| <= |tags|
    ensures forall t :: t in r <==> t in tags && Matches(t, name, want)
  {
    Filter(tags, t => Matches(t, name, want))
  }

  /** `find_all` keeps every occurrence of a matching tag and no occurrence of another. */
  lemma FindAllOccurrences(tags: seq<Tag>, name: string, want: map<string, string>)
    ensures forall t ::
      multiset(FindAll(tags, name, want))[t] == if Matches(t, name, want) then multiset(tags)[t] else 0
  {
    FilterOccurrences(tags, t => Matches(t, name, want));
  }
}
