/** What the two crawlers share: the network as a map from URL to response,
    the result record, the path-and-query formatting of a page
    (`_format_url`), and how a link found on a page is turned into a URL. */
module CrawlDomain {
  import opened Wrappers
  import opened Strings
  import opened Web
  import opened Urls

  /** A fetched page: status, content type, whether its body decodes as
      text, and the tags of the parsed body. */
  datatype Response = Response(status: int, contentType: string, decodes: bool, page: seq<Tag>)

  /** The network: the responses a site gives. Any other URL answers 404
      with an empty body. */
  type Site = map<string, Response>

  const NotFound: Response := Response(404, "text/html", true, [])

  function Fetch(site: Site, url: string): Response {
    if url in site then site[url] else NotFound
  }

  /** `CrawlResult`, without the timestamps. */
  datatype CrawlResult = CrawlResult(startUrl: string, pages: set<string>)

  /** `_format_url(url)`: the path, followed by '?' and the query when the
      query is non-empty. */
  function FormatUrl(lib: UrlLib, url: string): string {
    var parts := lib.parse(url);
    if parts.query != "" then parts.path + "?" + parts.query else parts.path
  }

  /** Index of the first '?' of `s`, or `|s|`. */
  function QuestionMark(s: string): (i: nat)
    ensures i <= |s|
    ensures i < |s| ==> s[i] == '?'
    ensures forall k :: 0 <= k < i ==> s[k] != '?'
  {
    if s == [] then 0
    else if s[0] == '?' then 0
    else 1 + QuestionMark(s[1..])
  }

  /** Splits a formatted page back into its path and its query. */
  function SplitQuery(s: string): (string, string) {
    var i := QuestionMark(s);
    if i < |s| then (s[..i], s[i + 1..]) else (s, "")
  }

  /** `_format_url` loses nothing: when the path holds no '?', splitting the
      formatted page at its first '?' gives back the path and the query. */
  lemma FormatUrlSplits(lib: UrlLib, url: string)
    requires forall k :: 0 <= k < |lib.parse(url).path| ==> lib.parse(url).path[k] != '?'
    ensures SplitQuery(FormatUrl(lib, url)) == (lib.parse(url).path, lib.parse(url).query)
  {
    var parts := lib.parse(url);
    var s := FormatUrl(lib, url);
    if parts.query != "" {
      assert s[|parts.path|] == '?';
      assert QuestionMark(s) == |parts.path|;
      assert s[..|parts.path|] == parts.path;
      assert s[|parts.path| + 1..] == parts.query;
    } else {
      assert QuestionMark(s) == |s|;
    }
  }

  /** `re.match(r"^https?://", s)`. */
  predicate IsAbsolute(s: string) {
    StartsWith(s, "http://") || StartsWith(s, "https://")
  }

  /** A link as found on `base`: absolute links as they are, others joined
      onto the page's URL. */
  function Resolve(lib: UrlLib, base: string, link: string): string {
    if IsAbsolute(link) then link else lib.join(base, link)
  }

  /** `HttpUrl(Resolve(...))`, None when validation fails. */
  function Hop(lib: UrlLib, base: string, link: string): Option<string> {
    lib.httpUrl(Resolve(lib, base, link))
  }

  /** Every URL that some page of the site links to and that validates: with
      the start URL, everything a crawl can ever visit. */
  function Universe(lib: UrlLib, site: Site, start: string): set<string> {
    {start} + set page, link | page in site && link in Extracted(lib, site[page].page) && Hop(lib, page, link).Some?
                 :: Hop(lib, page, link).value
  }

  lemma InUniverse(lib: UrlLib, site: Site, start: string, page: string, link: string)
    requires page in site && link in Extracted(lib, site[page].page) && Hop(lib, page, link).Some?
    ensures Hop(lib, page, link).value in Universe(lib, site, start)
  {
  }

  /** No element repeats. */
  predicate Distinct(s: seq<string>) {
    forall i, j :: 0 <= i < j < |s| ==> s[i] != s[j]
  }

  /** The first two elements of a sequence without repeats differ. */
  lemma DistinctHead(s: seq<string>)
    requires |s| > 1 && Distinct(s)
    ensures s[0] != s[1]
  {
  }

  /** Appending what a step newly saw, once each, to what earlier steps
      newly saw keeps one entry per newly seen URL. */
  lemma AppendNew(v0: set<string>, v1: set<string>, v2: set<string>, added: seq<string>, news: seq<string>)
    requires v0 <= v1 <= v2
    requires Distinct(added) && forall v :: v in added <==> v in v1 && v !in v0
    requires Distinct(news) && forall v :: v in news <==> v in v2 && v !in v1
    ensures Distinct(added + news)
    ensures forall v :: v in added + news <==> v in v2 && v !in v0
  {
    var all := added + news;
    forall i, j | 0 <= i < j < |all|
      ensures all[i] != all[j]
    {
      if i < |added| && j >= |added| {
        assert all[i] in added && all[j] in news;
      }
    }
  }

  /** Removing the head of the pending tail and appending `added` to both
      the history and the tail keeps the tail a suffix of the history. */
  lemma ShiftPending(enqueued: seq<string>, pending: seq<string>, pending': seq<string>, added: seq<string>)
    requires pending != [] && |pending| <= |enqueued| && pending == enqueued[|enqueued| - |pending|..]
    requires pending' == pending[1..] + added
    ensures |pending'| <= |enqueued + added|
    ensures pending' == (enqueued + added)[|enqueued + added| - |pending'|..]
    ensures |enqueued + added| - |pending'| == |enqueued| - |pending| + 1
    ensures forall i :: 0 <= i < |enqueued| ==> (enqueued + added)[i] == enqueued[i]
  {
  }

  /** Appending distinct URLs that are all new keeps the history distinct. */
  lemma AppendDistinct(enqueued: seq<string>, added: seq<string>, seen: set<string>)
    requires Distinct(enqueued) && Distinct(added)
    requires forall i :: 0 <= i < |enqueued| ==> enqueued[i] in seen
    requires forall v :: v in added ==> v !in seen
    ensures Distinct(enqueued + added)
  {
    var enq := enqueued + added;
    forall i, j | 0 <= i < j < |enq|
      ensures enq[i] != enq[j]
    {
      if j >= |enqueued| && i < |enqueued| {
        assert enq[j] == added[j - |enqueued|];
      }
    }
  }

  /** What was queued since `v0` stays exactly what was visited since `v0`
      when a step appends exactly what it newly visits. */
  lemma NewSince(v0: set<string>, v1: set<string>, v2: set<string>, q: seq<string>, queue: seq<string>)
    requires v0 <= v1 <= v2
    requires forall v :: v in q <==> v in v1 && v !in v0
    requires |queue| >= |q| && queue[..|q|] == q
    requires forall v :: v in queue[|q|..] <==> v in v2 && v !in v1
    ensures forall v :: v in queue <==> v in v2 && v !in v0
  {
    assert queue == q + queue[|q|..];
  }

  /** What remains of `u` shrinks when the visited set grows inside it. */
  lemma Shrinks(u: set<string>, v0: set<string>, v1: set<string>)
    requires v0 <= v1 <= u
    ensures v1 == v0 || u - v1 < u - v0
  {
    if v1 != v0 {
      var w :| w in v1 && w !in v0;
      assert w in (u - v0) - (u - v1);
    }
  }
}
