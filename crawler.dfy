/** `scraper/application/crawler.py`: a breadth-first crawler over one
    host, fetching through a `Fetcher`.

    Each batch of the queue is processed one URL after another, and the
    locked check-and-add of a discovered URL is one step. */
module Crawling {
  import opened Wrappers
  import opened Strings
  import opened Web
  import opened Urls
  import opened CrawlDomain

  /** The pages whose links are followed: status 200 and "text/html"
      anywhere in the content type. */
  predicate Accepted(r: Response) {
    r.status == 200 && Contains(r.contentType, "text/html")
  }

  /** The links among `links` that validate and whose validated URL has the
      host `host`, as URLs. */
  function Targets(lib: UrlLib, url: string, links: set<string>, host: string): set<string> {
    set link | link in links && Hop(lib, url, link).Some? && lib.parse(Hop(lib, url, link).value).netloc == host
      :: Hop(lib, url, link).value
  }

  /** What fetching `url` can add to the crawl. */
  function Successors(lib: UrlLib, site: Site, host: string, url: string): set<string> {
    var r := Fetch(site, url);
    if Accepted(r) then Targets(lib, url, Extracted(lib, r.page), host) else {}
  }

  /** The link graph of a crawl over `host`: what fetching each URL can
      add. */
  function Graph(lib: UrlLib, site: Site, host: string): string -> set<string> {
    (u: string) => Successors(lib, site, host, u)
  }

  /** Which fetched URLs count as processed. */
  function Acceptance(site: Site): string -> bool {
    (u: string) => Accepted(Fetch(site, u))
  }

  /** Where a crawl from `start` over `host` can reach: the URLs of the
      universe on that host. */
  function Bound(lib: UrlLib, site: Site, start: string, host: string): set<string> {
    set u | u in Universe(lib, site, start) && lib.parse(u).netloc == host
  }

  /** `s` already holds everything its members lead to in `graph`. */
  ghost predicate ClosedUnder(graph: string -> set<string>, s: set<string>) {
    forall u :: u in s ==> graph(u) <= s
  }

  ghost predicate Closed(lib: UrlLib, site: Site, host: string, s: set<string>) {
    ClosedUnder(Graph(lib, site, host), s)
  }

  lemma TargetsAdd(lib: UrlLib, url: string, links: set<string>, link: string, host: string)
    ensures Targets(lib, url, links + {link}, host) ==
            Targets(lib, url, links, host) +
            (if Hop(lib, url, link).Some? && lib.parse(Hop(lib, url, link).value).netloc == host
             then {Hop(lib, url, link).value} else {})
  {
  }

  /** Two crawls that both give the least closed set around the start agree. */
  lemma LeastClosedUnique(lib: UrlLib, site: Site, host: string, start: string, a: set<string>, b: set<string>)
    requires start in a && Closed(lib, site, host, a)
    requires forall s :: start in s && Closed(lib, site, host, s) ==> a <= s
    requires start in b && Closed(lib, site, host, b)
    requires forall s :: start in s && Closed(lib, site, host, s) ==> b <= s
    ensures a == b
  {
  }

  /** The state of a breadth-first search of `graph` from `start`, with
      `visited`, `processed` and the queue history `enqueued`, whose not yet
      fetched URLs are `pending`, the tail of that history. Fetched URLs
      have their successors visited and are processed exactly when
      accepted; every visited URL is forced by the start and lies in
      `bound`. */
  ghost predicate ExploredBy(graph: string -> set<string>, accepts: string -> bool, bound: set<string>,
                             start: string, visited: set<string>, processed: set<string>,
                             enqueued: seq<string>, pending: seq<string>)
  {
    && start in visited
    && Distinct(enqueued)
    && (forall v :: v in enqueued <==> v in visited)
    && |pending| <= |enqueued|
    && pending == enqueued[|enqueued| - |pending|..]
    && (forall i :: 0 <= i < |enqueued| - |pending| ==>
          graph(enqueued[i]) <= visited && (enqueued[i] in processed <==> accepts(enqueued[i])))
    && (forall i :: |enqueued| - |pending| <= i < |enqueued| ==> enqueued[i] !in processed)
    && processed <= visited
    && (forall s :: start in s && ClosedUnder(graph, s) ==> visited <= s)
    && visited <= bound
  }

  /** The crawl from `start` over the host `host` on the site's link
      graph. */
  ghost predicate Explored(lib: UrlLib, site: Site, start: string, host: string, visited: set<string>,
                           processed: set<string>, enqueued: seq<string>, pending: seq<string>)
  {
    && host == lib.parse(start).netloc
    && ExploredBy(Graph(lib, site, host), Acceptance(site), Bound(lib, site, start, host),
                  start, visited, processed, enqueued, pending)
  }

  /** Successors stay inside the universe and on the host. */
  lemma SuccessorsBounded(lib: UrlLib, site: Site, start: string, host: string, url: string)
    ensures Successors(lib, site, host, url) <= Bound(lib, site, start, host)
  {
    forall v | v in Successors(lib, site, host, url)
      ensures v in Universe(lib, site, start) && lib.parse(v).netloc == host
    {
      var r := Fetch(site, url);
      assert url in site;
      var link :| link in Extracted(lib, r.page) && Hop(lib, url, link).Some? && Hop(lib, url, link).value == v &&
                  lib.parse(v).netloc == host;
      InUniverse(lib, site, start, url, link);
    }
  }

  /** Fetching the first pending URL keeps the search explored. */
  lemma {:induction false} ExploreStep(graph: string -> set<string>, accepts: string -> bool, bound: set<string>,
                    start: string, visited: set<string>, processed: set<string>, enqueued: seq<string>,
                    url: string, rest: seq<string>, q: seq<string>,
                    visited': set<string>, processed': set<string>, added: seq<string>)
    requires ExploredBy(graph, accepts, bound, start, visited, processed, enqueued, [url] + rest + q)
    requires graph(url) <= bound
    requires processed' == processed + (if accepts(url) then {url} else {})
    requires visited' == visited + graph(url)
    requires Distinct(added)
    requires forall v :: v in added <==> v in visited' && v !in visited
    ensures ExploredBy(graph, accepts, bound, start, visited', processed', enqueued + added, rest + (q + added))
  {
    var pending := [url] + rest + q;
    var enq, pending' := enqueued + added, rest + (q + added);
    assert pending' == pending[1..] + added;
    ShiftPending(enqueued, pending, pending', added);
    var d := |enqueued| - |pending|;
    assert enqueued[d] == url;
    assert url in visited;
    AppendDistinct(enqueued, added, visited);
    assert forall i :: 0 <= i < |enqueued| && i != d ==> enqueued[i] != url;
    forall s | start in s && ClosedUnder(graph, s)
      ensures visited' <= s
    {
      assert url in s;
    }
  }

  /** The search as `run` starts it: the start URL visited and queued. */
  lemma ExploredStart(graph: string -> set<string>, accepts: string -> bool, bound: set<string>, start: string)
    requires start in bound
    ensures ExploredBy(graph, accepts, bound, start, {start}, {}, [start], [start])
  {
  }

  /** A search with nothing pending has visited a closed set and processed
      exactly its accepted members. */
  lemma ExploredDone(graph: string -> set<string>, accepts: string -> bool, bound: set<string>,
                     start: string, visited: set<string>, processed: set<string>, enqueued: seq<string>)
    requires ExploredBy(graph, accepts, bound, start, visited, processed, enqueued, [])
    ensures ClosedUnder(graph, visited)
    ensures forall u :: u in processed <==> u in visited && accepts(u)
  {
    forall u | u in visited
      ensures graph(u) <= visited
      ensures u in processed <==> accepts(u)
    {
      assert u in enqueued;
      var i :| 0 <= i < |enqueued| && enqueued[i] == u;
    }
  }

  /** Processed exactly when visited and accepted, as a set. */
  lemma ProcessedAccepted(site: Site, visited: set<string>, processed: set<string>)
    requires forall u :: u in processed <==> u in visited && Acceptance(site)(u)
    ensures processed == set u | u in visited && Accepted(Fetch(site, u))
  {
  }

  /** A visited set inside the bound is on the host. */
  lemma OnHost(lib: UrlLib, site: Site, start: string, host: string, visited: set<string>)
    requires visited <= Bound(lib, site, start, host)
    ensures forall v :: v in visited ==> lib.parse(v).netloc == host
  {
  }

  /** The `pages` of the result: the formatted processed URLs, other than
      the start, that pass the filter. */
  function Pages(lib: UrlLib, urlFilter: string -> bool, processed: set<string>, start: string): set<string> {
    set u | u in processed && urlFilter(u) && u != start :: FormatUrl(lib, u)
  }

  class Crawler {
    const lib: UrlLib
    /** The fetcher's answers. */
    const site: Site
    const urlFilter: string -> bool
    var startHost: string
    var visited: set<string>
    var processed: set<string>
    var queue: seq<string>
    /** Every URL ever put on the queue, in order. */
    ghost var enqueued: seq<string>

    constructor (lib: UrlLib, site: Site, urlFilter: string -> bool)
      ensures this.lib == lib && this.site == site && this.urlFilter == urlFilter
      ensures visited == {} && processed == {} && queue == [] && enqueued == []
    {
      this.lib := lib;
      this.site := site;
      this.urlFilter := urlFilter;
      startHost := "";
      visited := {};
      processed := {};
      queue := [];
      enqueued := [];
    }

    /** `_fetch_and_extract(url)`: record an accepted page as processed and
        enqueue, once each, the unseen same-host URLs it links to. */
    method FetchAndExtract(url: string)
      modifies this
      ensures startHost == old(startHost)
      ensures processed == old(processed) + (if Accepted(Fetch(site, url)) then {url} else {})
      ensures visited == old(visited) + Successors(lib, site, startHost, url)
      ensures |queue| >= |old(queue)| && queue[..|old(queue)|] == old(queue)
      ensures enqueued == old(enqueued) + queue[|old(queue)|..]
      ensures Distinct(queue[|old(queue)|..])
      ensures forall v :: v in queue[|old(queue)|..] <==> v in visited && v !in old(visited)
    {
      var r := Fetch(site, url);
      if r.status != 200 {
        return;
      }
      if !Contains(r.contentType, "text/html") {
        return;
      }
      processed := processed + {url};
      var links := ExtractUrls(lib, r.page);
      FollowLinks(url, links);
    }

    /** The link loop of `_fetch_and_extract`: every link, in any order,
        goes through `Consider`. */
    method FollowLinks(url: string, links: set<string>)
      modifies this
      ensures startHost == old(startHost) && processed == old(processed)
      ensures visited == old(visited) + Targets(lib, url, links, startHost)
      ensures |queue| >= |old(queue)| && queue[..|old(queue)|] == old(queue)
      ensures enqueued == old(enqueued) + queue[|old(queue)|..]
      ensures Distinct(queue[|old(queue)|..])
      ensures forall v :: v in queue[|old(queue)|..] <==> v in visited && v !in old(visited)
    {
      var remaining := links;
      ghost var added: seq<string> := [];
      while remaining != {}
        invariant remaining <= links
        invariant startHost == old(startHost) && processed == old(processed)
        invariant visited == old(visited) + Targets(lib, url, links - remaining, startHost)
        invariant queue == old(queue) + added && enqueued == old(enqueued) + added
        invariant Distinct(added)
        invariant forall v :: v in added <==> v in visited && v !in old(visited)
        decreases remaining
      {
        var link :| link in remaining;
        TargetsAdd(lib, url, links - remaining, link, startHost);
        assert links - (remaining - {link}) == (links - remaining) + {link};
        remaining := remaining - {link};
        ghost var (q1, v1) := (queue, visited);
        Consider(url, link);
        ghost var news := queue[|q1|..];
        assert queue == q1 + news;
        AppendNew(old(visited), v1, visited, added, news);
        added := added + news;
      }
      assert links - {} == links;
    }

    /** One link of `_fetch_and_extract`: resolve it against the page,
        validate it, and under the lock mark it visited and enqueue it when
        it is unseen and on the start host. */
    method Consider(url: string, link: string)
      modifies this
      ensures startHost == old(startHost) && processed == old(processed)
      ensures visited == old(visited) +
                (if Hop(lib, url, link).Some? && lib.parse(Hop(lib, url, link).value).netloc == startHost
                 then {Hop(lib, url, link).value} else {})
      ensures |queue| >= |old(queue)| && queue[..|old(queue)|] == old(queue)
      ensures enqueued == old(enqueued) + queue[|old(queue)|..]
      ensures Distinct(queue[|old(queue)|..])
      ensures forall v :: v in queue[|old(queue)|..] <==> v in visited && v !in old(visited)
      ensures queue[|old(queue)|..] ==
                (if Hop(lib, url, link).Some? && lib.parse(Hop(lib, url, link).value).netloc == startHost
                    && Hop(lib, url, link).value !in old(visited)
                 then [Hop(lib, url, link).value] else [])
    {
      var resolved := if IsAbsolute(link) then link else lib.join(url, link);
      var next := lib.httpUrl(resolved);
      if next.None? {
        return;
      }
      var host := lib.parse(next.value).netloc;
      if next.value !in visited && host == startHost {
        visited := visited + {next.value};
        queue := queue + [next.value];
        enqueued := enqueued + [next.value];
      }
    }

    /** Fetch `batch[j]`, the first pending URL; what it queues joins the
        rest of the pending ones. */
    method FetchNext(start: string, batch: seq<string>, j: nat)
      requires j < |batch|
      requires Explored(lib, site, start, startHost, visited, processed, enqueued, batch[j..] + queue)
      modifies this
      ensures Explored(lib, site, start, startHost, visited, processed, enqueued, batch[j + 1..] + queue)
      ensures startHost == old(startHost) && old(visited) <= visited
      ensures |queue| >= |old(queue)| && queue[..|old(queue)|] == old(queue)
      ensures forall v :: v in queue[|old(queue)|..] <==> v in visited && v !in old(visited)
    {
      var url := batch[j];
      assert batch[j..] == [url] + batch[j + 1..];
      ghost var (vis, proc, enq, q) := (visited, processed, enqueued, queue);
      FetchAndExtract(url);
      ghost var added := queue[|q|..];
      assert queue == q + added;
      SuccessorsBounded(lib, site, start, startHost, url);
      ExploreStep(Graph(lib, site, startHost), Acceptance(site), Bound(lib, site, start, startHost),
                  start, vis, proc, enq, url, batch[j + 1..], q, visited, processed, added);
    }

    /** The inner `while` of `run`: move the whole queue, in order, into a
        new batch. */
    method TakeBatch() returns (batch: seq<string>)
      modifies this
      ensures batch == old(queue) && queue == []
      ensures visited == old(visited) && processed == old(processed)
      ensures enqueued == old(enqueued) && startHost == old(startHost)
    {
      batch := [];
      while queue != []
        invariant batch + queue == old(queue)
        invariant visited == old(visited) && processed == old(processed)
        invariant enqueued == old(enqueued) && startHost == old(startHost)
      {
        assert [queue[0]] + queue[1..] == queue;
        batch := batch + [queue[0]];
        queue := queue[1..];
      }
    }

    /** One round of `run`: drain the queue into a batch, then fetch the
        batch's URLs in order. What is queued afterwards is exactly what the
        round newly visited. */
    method RunBatch(start: string)
      requires Explored(lib, site, start, startHost, visited, processed, enqueued, queue)
      modifies this
      ensures Explored(lib, site, start, startHost, visited, processed, enqueued, queue)
      ensures startHost == old(startHost) && old(visited) <= visited
      ensures forall v :: v in queue <==> v in visited && v !in old(visited)
    {
      var batch := TakeBatch();
      assert batch[0..] + queue == batch;
      for j := 0 to |batch|
        invariant Explored(lib, site, start, startHost, visited, processed, enqueued, batch[j..] + queue)
        invariant startHost == old(startHost) && old(visited) <= visited
        invariant forall v :: v in queue <==> v in visited && v !in old(visited)
      {
        ghost var (q, v1) := (queue, visited);
        FetchNext(start, batch, j);
        NewSince(old(visited), v1, visited, q, queue);
      }
      assert batch[|batch|..] + queue == queue;
    }

    /** The outer `while` of `run`: rounds until the queue is empty. Each
        round that leaves URLs queued has visited new ones, and the bound
        caps what can be visited. */
    method Drain(start: string)
      requires Explored(lib, site, start, startHost, visited, processed, enqueued, queue)
      modifies this
      ensures Explored(lib, site, start, startHost, visited, processed, enqueued, [])
      ensures queue == [] && startHost == old(startHost)
    {
      while queue != []
        invariant Explored(lib, site, start, startHost, visited, processed, enqueued, queue)
        invariant startHost == old(startHost)
        decreases Bound(lib, site, start, startHost) - visited, |queue|
      {
        ghost var v0 := visited;
        RunBatch(start);
        if queue != [] {
          assert queue[0] in visited - v0;
        } else {
          assert visited == v0;
        }
      }
    }

    /** `run(start_url)` on a fresh crawler: the batches end when the queue
        is empty. The visited URLs are then the least set that holds the
        start and every same-host link of each of its accepted pages; the
        processed URLs are its accepted members; no URL was queued twice;
        and the pages are the formatted processed URLs, other than the
        start, that pass the filter. */
    method Run(start: string) returns (result: CrawlResult)
      requires visited == {} && processed == {} && queue == [] && enqueued == []
      modifies this
      ensures startHost == lib.parse(start).netloc
      ensures start in visited && Closed(lib, site, startHost, visited)
      ensures forall s :: start in s && Closed(lib, site, startHost, s) ==> visited <= s
      ensures forall v :: v in visited ==> lib.parse(v).netloc == startHost
      ensures processed == set u | u in visited && Accepted(Fetch(site, u))
      ensures Distinct(enqueued) && (forall v :: v in enqueued <==> v in visited) && queue == []
      ensures result == CrawlResult(start, Pages(lib, urlFilter, processed, start))
    {
      queue := [start];
      visited := {start};
      enqueued := [start];
      startHost := lib.parse(start).netloc;
      ghost var graph, accepts, bound := Graph(lib, site, startHost), Acceptance(site), Bound(lib, site, start, startHost);
      assert start in Universe(lib, site, start);
      ExploredStart(graph, accepts, bound, start);
      Drain(start);
      ExploredDone(graph, accepts, bound, start, visited, processed, enqueued);
      ProcessedAccepted(site, visited, processed);
      OnHost(lib, site, start, startHost, visited);
      result := CrawlResult(start, Pages(lib, urlFilter, processed, start));
    }
  }
}
