/** `scraper/infrastructure/aiohttp_crawler.py`: the breadth-first crawler
    that talks to an HTTP session directly.

    It differs from `Crawler` in three ways: a page is accepted only when
    its content type is exactly "text/html" and its body decodes; the start
    URL is marked visited only once it has been fetched successfully (every
    page is marked on success); and the result is built from every visited
    URL except the start, including those whose fetch failed. The host test
    reads the netloc of the resolved link before validation.

    As for `Crawler`, each batch is processed one URL after another and the
    locked check-and-add is one step. */
module AiohttpCrawling {
  import opened Wrappers
  import opened Strings
  import opened Web
  import opened Urls
  import opened CrawlDomain

  /** The pages whose links are followed. */
  predicate Accepted(r: Response) {
    r.status == 200 && r.contentType == "text/html" && r.decodes
  }

  /** The links among `links` whose resolved text has the host `host` and
      that validate, as URLs. */
  function Targets(lib: UrlLib, url: string, links: set<string>, host: string): set<string> {
    set link | link in links && Hop(lib, url, link).Some? && lib.parse(Resolve(lib, url, link)).netloc == host
      :: Hop(lib, url, link).value
  }

  /** What fetching `url` can add to the crawl besides `url` itself. */
  function Successors(lib: UrlLib, site: Site, host: string, url: string): set<string> {
    var r := Fetch(site, url);
    if Accepted(r) then Targets(lib, url, Extracted(lib, r.page), host) else {}
  }

  /** The link graph of a crawl over `host`. */
  function Graph(lib: UrlLib, site: Site, host: string): string -> set<string> {
    (u: string) => Successors(lib, site, host, u)
  }

  /** Which fetched URLs are marked visited. */
  function Acceptance(site: Site): string -> bool {
    (u: string) => Accepted(Fetch(site, u))
  }

  /** `s` already holds everything its members lead to in `graph`. */
  ghost predicate ClosedUnder(graph: string -> set<string>, s: set<string>) {
    forall u :: u in s ==> graph(u) <= s
  }

  ghost predicate Closed(lib: UrlLib, site: Site, host: string, s: set<string>) {
    ClosedUnder(Graph(lib, site, host), s)
  }

  lemma TargetsAdd(lib: UrlLib, url: string, links: set<string>, link: string, host: string)
    ensures Targets(lib, url, links + {link}, host) ==
            Targets(lib, url, links, host) +
            (if Hop(lib, url, link).Some? && lib.parse(Resolve(lib, url, link)).netloc == host
             then {Hop(lib, url, link).value} else {})
  {
  }

  /** The state of a breadth-first search of `graph` from `start`, with
      queue history `enqueued` and not yet fetched tail `pending`. The
      queued URLs are the visited ones and the start; nothing is visited
      until the start has been fetched and accepted. Fetched URLs have
      their successors visited and are visited themselves unless it is the
      start and it was not accepted; every visited URL is forced by the
      start and lies in `bound`. */
  ghost predicate ExploredBy(graph: string -> set<string>, accepts: string -> bool, bound: set<string>,
                             start: string, visited: set<string>, enqueued: seq<string>, pending: seq<string>)
  {
    && start in bound
    && |enqueued| >= 1 && enqueued[0] == start
    && Distinct(enqueued)
    && (forall v :: v in enqueued <==> v in visited || v == start)
    && (visited == {} || start in visited)
    && (start in visited ==> |pending| < |enqueued|)
    && |pending| <= |enqueued|
    && pending == enqueued[|enqueued| - |pending|..]
    && (forall i :: 0 <= i < |enqueued| - |pending| ==>
          graph(enqueued[i]) <= visited && (enqueued[i] in visited <==> enqueued[i] != start || accepts(start)))
    && (forall s :: start in s && ClosedUnder(graph, s) ==> visited <= s)
    && visited <= bound
  }

  /** The crawl from `start` over the host `host` on the site's link graph,
      inside the universe of the start. */
  ghost predicate Explored(lib: UrlLib, site: Site, start: string, host: string,
                           visited: set<string>, enqueued: seq<string>, pending: seq<string>)
  {
    && host == lib.parse(start).netloc
    && ExploredBy(Graph(lib, site, host), Acceptance(site), Universe(lib, site, start),
                  start, visited, enqueued, pending)
  }

  /** Successors stay inside the universe; a page that is not accepted has
      none. */
  lemma SuccessorsBounded(lib: UrlLib, site: Site, start: string, host: string, url: string)
    ensures Successors(lib, site, host, url) <= Universe(lib, site, start)
    ensures !Accepted(Fetch(site, url)) ==> Successors(lib, site, host, url) == {}
  {
    forall v | v in Successors(lib, site, host, url)
      ensures v in Universe(lib, site, start)
    {
      var r := Fetch(site, url);
      assert url in site;
      var link :| link in Extracted(lib, r.page) && Hop(lib, url, link).Some? && Hop(lib, url, link).value == v;
      InUniverse(lib, site, start, url, link);
    }
  }

  /** Fetching the first pending URL keeps the search explored. */
  lemma ExploreStep(graph: string -> set<string>, accepts: string -> bool, bound: set<string>,
                    start: string, visited: set<string>, enqueued: seq<string>,
                    url: string, rest: seq<string>, q: seq<string>, visited': set<string>, added: seq<string>)
    requires ExploredBy(graph, accepts, bound, start, visited, enqueued, [url] + rest + q)
    requires graph(url) <= bound && (!accepts(url) ==> graph(url) == {})
    requires visited' == visited + (if accepts(url) then {url} + graph(url) else {})
    requires !accepts(url) ==> added == []
    requires Distinct(added)
    requires forall v :: v in added <==> v in visited' && v !in visited && v != url
    ensures ExploredBy(graph, accepts, bound, start, visited', enqueued + added, rest + (q + added))
  {
    var pending := [url] + rest + q;
    if start !in visited {
      OnlyStart(start, visited, enqueued);
      assert pending == [start];
      ExploreFirst(graph, accepts, bound, start, visited', added);
    } else {
      assert url in visited by {
        var d := |enqueued| - |pending|;
        assert enqueued[d] == url;
      }
      assert visited' == visited + graph(url);
      ExploreLater(graph, accepts, bound, start, visited, enqueued, url, rest, q, visited', added);
    }
  }

  /** While nothing is visited the queue history is the start alone. */
  lemma OnlyStart(start: string, visited: set<string>, enqueued: seq<string>)
    requires |enqueued| >= 1 && enqueued[0] == start && Distinct(enqueued)
    requires forall v :: v in enqueued <==> v in visited || v == start
    requires start !in visited && (visited == {} || start in visited)
    ensures visited == {} && enqueued == [start]
  {
    forall i | 0 <= i < |enqueued|
      ensures enqueued[i] == start
    {
      assert enqueued[i] in enqueued;
    }
    if |enqueued| > 1 {
      DistinctHead(enqueued);
      assert false;
    }
  }

  /** The fetch of the start page: accepted, it is visited with its
      successors, which are queued; otherwise nothing is visited. */
  lemma ExploreFirst(graph: string -> set<string>, accepts: string -> bool, bound: set<string>,
                     start: string, visited': set<string>, added: seq<string>)
    requires start in bound && graph(start) <= bound && (!accepts(start) ==> graph(start) == {})
    requires visited' == if accepts(start) then {start} + graph(start) else {}
    requires !accepts(start) ==> added == []
    requires Distinct(added)
    requires forall v :: v in added <==> v in visited' && v != start
    ensures ExploredBy(graph, accepts, bound, start, visited', [start] + added, [] + ([] + added))
  {
    var enq := [start] + added;
    assert enq[|enq| - |added|..] == added;
    assert Distinct(enq) by {
      assert forall i :: 0 <= i < |added| ==> enq[i + 1] == added[i];
    }
    forall s | start in s && ClosedUnder(graph, s)
      ensures visited' <= s
    {
      assert graph(start) <= s;
    }
  }

  /** A fetch after the start has been visited: its successors are visited
      and the new ones queued. */
  lemma {:induction false} ExploreLater(graph: string -> set<string>, accepts: string -> bool, bound: set<string>,
                     start: string, visited: set<string>, enqueued: seq<string>,
                     url: string, rest: seq<string>, q: seq<string>, visited': set<string>, added: seq<string>)
    requires start in visited
    requires ExploredBy(graph, accepts, bound, start, visited, enqueued, [url] + rest + q)
    requires graph(url) <= bound
    requires visited' == visited + graph(url)
    requires Distinct(added)
    requires forall v :: v in added <==> v in visited' && v !in visited
    ensures ExploredBy(graph, accepts, bound, start, visited', enqueued + added, rest + (q + added))
  {
    var pending := [url] + rest + q;
    var enq, pending' := enqueued + added, rest + (q + added);
    assert pending' == pending[1..] + added;
    ShiftPending(enqueued, pending, pending', added);
    var d := |enqueued| - |pending|;
    assert enqueued[d] == url && d >= 1;
    assert url in visited && url != start;
    AppendDistinct(enqueued, added, visited);
    assert forall i :: 0 <= i < |enqueued| && i != d ==> enqueued[i] != url;
    forall s | start in s && ClosedUnder(graph, s)
      ensures visited' <= s
    {
      assert visited <= s;
      assert url in s;
    }
  }

  /** The search as `run` starts it: only the start queued. */
  lemma ExploredStart(graph: string -> set<string>, accepts: string -> bool, bound: set<string>, start: string)
    requires start in bound
    ensures ExploredBy(graph, accepts, bound, start, {}, [start], [start])
  {
  }

  /** With nothing pending: the start is visited exactly when accepted, and
      the visited URLs are closed. */
  lemma ExploredDone(graph: string -> set<string>, accepts: string -> bool, bound: set<string>,
                     start: string, visited: set<string>, enqueued: seq<string>)
    requires ExploredBy(graph, accepts, bound, start, visited, enqueued, [])
    ensures start in visited <==> accepts(start)
    ensures ClosedUnder(graph, visited)
    ensures forall v :: v in enqueued <==> v in visited || v == start
    ensures !accepts(start) ==> visited == {} && enqueued == [start]
  {
    assert enqueued[0] == start;
    if !accepts(start) {
      OnlyStart(start, visited, enqueued);
    }
    forall u | u in visited
      ensures graph(u) <= visited
    {
      assert u in enqueued;
      var i :| 0 <= i < |enqueued| && enqueued[i] == u;
    }
  }

  /** The crawl as `run` starts it, inside the universe of the start. */
  lemma RunStart(lib: UrlLib, site: Site, start: string)
    ensures Explored(lib, site, start, lib.parse(start).netloc, {}, [start], [start])
  {
    var host, bound := lib.parse(start).netloc, Universe(lib, site, start);
    assert start in bound;
    ExploredStart(Graph(lib, site, host), Acceptance(site), bound, start);
  }

  /** What `run` knows once nothing is pending, with the start included in
      `reached`. */
  lemma RunDone(lib: UrlLib, site: Site, start: string, host: string,
                reached: set<string>, enqueued: seq<string>)
    requires Explored(lib, site, start, host, reached, enqueued, [])
    ensures !Accepted(Fetch(site, start)) ==> reached - {start} == {} && enqueued == [start]
    ensures Accepted(Fetch(site, start)) ==> Closed(lib, site, host, (reached - {start}) + {start})
    ensures forall s :: start in s && Closed(lib, site, host, s) ==> (reached - {start}) + {start} <= s
    ensures Distinct(enqueued) && |enqueued| >= 1 && enqueued[0] == start
    ensures Accepted(Fetch(site, start)) ==> forall v :: v in enqueued <==> v in (reached - {start}) + {start}
  {
    ExploredDone(Graph(lib, site, host), Acceptance(site), Universe(lib, site, start), start, reached, enqueued);
    assert Accepted(Fetch(site, start)) ==> (reached - {start}) + {start} == reached;
  }

  /** The `pages` of the result: the formatted URLs of `rest` that pass the
      filter. */
  function Pages(lib: UrlLib, urlFilter: string -> bool, rest: set<string>): set<string> {
    set u | u in rest && urlFilter(u) :: FormatUrl(lib, u)
  }

  class AiohttpCrawler {
    const lib: UrlLib
    /** The session's answers. */
    const site: Site
    const urlFilter: string -> bool
    var startHost: string
    var visited: set<string>
    var queue: seq<string>
    /** Every URL ever put on the queue, in order. */
    ghost var enqueued: seq<string>

    constructor (lib: UrlLib, site: Site, urlFilter: string -> bool)
      ensures this.lib == lib && this.site == site && this.urlFilter == urlFilter
      ensures visited == {} && queue == [] && enqueued == []
    {
      this.lib := lib;
      this.site := site;
      this.urlFilter := urlFilter;
      startHost := "";
      visited := {};
      queue := [];
      enqueued := [];
    }

    /** `_fetch_and_extract(url)`: give up on a failed status, a content
        type other than "text/html" or a body that does not decode;
        otherwise mark the page visited and enqueue, once each, the unseen
        links on the start host. */
    method FetchAndExtract(url: string)
      modifies this
      ensures startHost == old(startHost)
      ensures visited == old(visited) +
                (if Accepted(Fetch(site, url)) then {url} + Successors(lib, site, startHost, url) else {})
      ensures |queue| >= |old(queue)| && queue[..|old(queue)|] == old(queue)
      ensures enqueued == old(enqueued) + queue[|old(queue)|..]
      ensures Distinct(queue[|old(queue)|..])
      ensures forall v :: v in queue[|old(queue)|..] <==> v in visited && v !in old(visited) && v != url
      ensures !Accepted(Fetch(site, url)) ==> queue == old(queue)
    {
      var r := Fetch(site, url);
      if r.status != 200 {
        return;
      }
      if r.contentType != "text/html" {
        return;
      }
      if !r.decodes {
        return;
      }
      visited := visited + {url};
      var links := ExtractUrls(lib, r.page);
      FollowLinks(url, links);
    }

    /** The link loop of `_fetch_and_extract`. */
    method FollowLinks(url: string, links: set<string>)
      modifies this
      ensures startHost == old(startHost)
      ensures visited == old(visited) + Targets(lib, url, links, startHost)
      ensures |queue| >= |old(queue)| && queue[..|old(queue)|] == old(queue)
      ensures enqueued == old(enqueued) + queue[|old(queue)|..]
      ensures Distinct(queue[|old(queue)|..])
      ensures forall v :: v in queue[|old(queue)|..] <==> v in visited && v !in old(visited)
    {
      var remaining := links;
      ghost var added: seq<string> := [];
      while remaining != {}
        invariant remaining <= links
        invariant startHost == old(startHost)
        invariant visited == old(visited) + Targets(lib, url, links - remaining, startHost)
        invariant queue == old(queue) + added && enqueued == old(enqueued) + added
        invariant Distinct(added)
        invariant forall v :: v in added <==> v in visited && v !in old(visited)
        decreases remaining
      {
        var link :| link in remaining;
        TargetsAdd(lib, url, links - remaining, link, startHost);
        assert links - (remaining - {link}) == (links - remaining) + {link};
        remaining := remaining - {link};
        ghost var (q1, v1) := (queue, visited);
        Consider(url, link);
        ghost var news := queue[|q1|..];
        assert queue == q1 + news;
        AppendNew(old(visited), v1, visited, added, news);
        added := added + news;
      }
      assert links - {} == links;
    }

    /** One link: resolve it, validate it, and mark it visited and enqueue
        it when it is unseen and its resolved text has the start host. */
    method Consider(url: string, link: string)
      modifies this
      ensures startHost == old(startHost)
      ensures visited == old(visited) +
                (if Hop(lib, url, link).Some? && lib.parse(Resolve(lib, url, link)).netloc == startHost
                 then {Hop(lib, url, link).value} else {})
      ensures |queue| >= |old(queue)| && queue[..|old(queue)|] == old(queue)
      ensures enqueued == old(enqueued) + queue[|old(queue)|..]
      ensures Distinct(queue[|old(queue)|..])
      ensures forall v :: v in queue[|old(queue)|..] <==> v in visited && v !in old(visited)
      ensures queue[|old(queue)|..] ==
                (if Hop(lib, url, link).Some? && lib.parse(Resolve(lib, url, link)).netloc == startHost
                    && Hop(lib, url, link).value !in old(visited)
                 then [Hop(lib, url, link).value] else [])
    {
      var resolved := if IsAbsolute(link) then link else lib.join(url, link);
      var next := lib.httpUrl(resolved);
      if next.None? {
        return;
      }
      var host := lib.parse(resolved).netloc;
      if next.value !in visited && host == startHost {
        visited := visited + {next.value};
        queue := queue + [next.value];
        enqueued := enqueued + [next.value];
      }
    }

    /** Fetch `batch[j]`, the first pending URL; what it queues joins the
        rest of the pending ones. */
    method FetchNext(start: string, batch: seq<string>, j: nat, ghost v0: set<string>)
      requires j < |batch|
      requires Explored(lib, site, start, startHost, visited, enqueued, batch[j..] + queue)
      requires v0 <= visited && forall v :: v in queue ==> v in visited && v !in v0
      modifies this
      ensures Explored(lib, site, start, startHost, visited, enqueued, batch[j + 1..] + queue)
      ensures startHost == old(startHost) && v0 <= visited
      ensures forall v :: v in queue ==> v in visited && v !in v0
    {
      var url := batch[j];
      assert batch[j..] == [url] + batch[j + 1..];
      ghost var (vis, enq, q) := (visited, enqueued, queue);
      FetchAndExtract(url);
      ghost var added := queue[|q|..];
      assert queue == q + added;
      SuccessorsBounded(lib, site, start, startHost, url);
      ExploreStep(Graph(lib, site, startHost), Acceptance(site), Universe(lib, site, start),
                  start, vis, enq, url, batch[j + 1..], q, visited, added);
    }

    /** The inner `while` of `run`. */
    method TakeBatch() returns (batch: seq<string>)
      modifies this
      ensures batch == old(queue) && queue == []
      ensures visited == old(visited) && enqueued == old(enqueued) && startHost == old(startHost)
    {
      batch := [];
      while queue != []
        invariant batch + queue == old(queue)
        invariant visited == old(visited) && enqueued == old(enqueued) && startHost == old(startHost)
      {
        assert [queue[0]] + queue[1..] == queue;
        batch := batch + [queue[0]];
        queue := queue[1..];
      }
    }

    /** One round of `run`. Whatever is queued afterwards was newly visited
        in the round. */
    method RunBatch(start: string)
      requires Explored(lib, site, start, startHost, visited, enqueued, queue)
      modifies this
      ensures Explored(lib, site, start, startHost, visited, enqueued, queue)
      ensures startHost == old(startHost) && old(visited) <= visited
      ensures forall v :: v in queue ==> v in visited && v !in old(visited)
    {
      var batch := TakeBatch();
      assert batch[0..] + queue == batch;
      for j := 0 to |batch|
        invariant Explored(lib, site, start, startHost, visited, enqueued, batch[j..] + queue)
        invariant startHost == old(startHost) && old(visited) <= visited
        invariant forall v :: v in queue ==> v in visited && v !in old(visited)
      {
        FetchNext(start, batch, j, old(visited));
      }
      assert batch[|batch|..] + queue == queue;
    }

    /** The outer `while` of `run`: rounds until the queue is empty. A
        round that leaves URLs queued has visited new ones, and the universe
        caps what can be visited. */
    method Drain(start: string)
      requires Explored(lib, site, start, startHost, visited, enqueued, queue)
      modifies this
      ensures Explored(lib, site, start, startHost, visited, enqueued, [])
      ensures queue == [] && startHost == old(startHost)
    {
      while queue != []
        invariant Explored(lib, site, start, startHost, visited, enqueued, queue)
        invariant startHost == old(startHost)
        decreases Universe(lib, site, start) - visited, |queue|
      {
        ghost var v0 := visited;
        RunBatch(start);
        if queue != [] {
          assert queue[0] in queue;
        }
        Shrinks(Universe(lib, site, start), v0, visited);
      }
    }

    /** `run(start_url)` on a fresh crawler. When the start page is
        accepted, the visited URLs plus the start form the least set that
        holds the start and every same-host link of each of its accepted
        pages, and the start is then discarded; otherwise nothing is
        visited. No URL was queued twice. The pages are the formatted
        remaining visited URLs that pass the filter, whether or not their
        own fetch succeeded. */
    method Run(start: string) returns (result: CrawlResult)
      requires visited == {} && queue == [] && enqueued == []
      modifies this
      ensures startHost == lib.parse(start).netloc
      ensures start !in visited
      ensures !Accepted(Fetch(site, start)) ==> visited == {} && enqueued == [start]
      ensures Accepted(Fetch(site, start)) ==> Closed(lib, site, startHost, visited + {start})
      ensures forall s :: start in s && Closed(lib, site, startHost, s) ==> visited + {start} <= s
      ensures Distinct(enqueued) && |enqueued| >= 1 && enqueued[0] == start
      ensures Accepted(Fetch(site, start)) ==> forall v :: v in enqueued <==> v in visited + {start}
      ensures queue == []
      ensures result == CrawlResult(start, Pages(lib, urlFilter, visited))
    {
      queue := [start];
      enqueued := [start];
      startHost := lib.parse(start).netloc;
      RunStart(lib, site, start);
      Drain(start);
      RunDone(lib, site, start, startHost, visited, enqueued);
      visited := visited - {start};
      result := CrawlResult(start, Pages(lib, urlFilter, visited));
    }
  }
}
