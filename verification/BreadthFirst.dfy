/** A crawl without fetch errors is a breadth-first search: it visits exactly what can be reached
    within max_depth hops, and records each URL's shortest distance from the seed. */
module BreadthFirst {
  import opened Collections
  import opened Urls
  import opened UrlFrontier
  import opened UrlFrontierRuns

  type Site = (Url, nat) -> Outcome

  predicate Admissible(c: Crawler, url: Url) {
    !Blank(url) && DomainAllowed(c, url)
  }

  /** The URLs a page's links lead to, as far as the crawl may follow them. */
  function Targets(c: Crawler, site: Site, url: Url): set<Url> {
    match site(url, 1)
    case Page(links, _, _) =>
      set l | l in links && Admissible(c, c.normalize(Resolve(c, url, l))) :: c.normalize(Resolve(c, url, l))
    case Error(_, _) => {}
  }

  /** These are the URLs its links lead to that are not blank and in an allowed domain, once normalized. */
  lemma TargetsExactly(c: Crawler, site: Site, url: Url, v: Url)
    ensures v in Targets(c, site, url) <==>
      && site(url, 1).Page? && !Blank(v) && DomainAllowed(c, v)
      && exists link, to :: link in site(url, 1).links && LeadsTo(c, url, link, to) && c.normalize(to) == v
  {
    if v in Targets(c, site, url) {
      var link :| link in site(url, 1).links && v == c.normalize(Resolve(c, url, link));
      assert LeadsTo(c, url, link, Resolve(c, url, link));
    }
  }

  function Seeds(c: Crawler, seed: Url): set<Url> {
    var url := c.normalize(c.normalize(seed));
    if !Blank(c.normalize(seed)) && Eligible(c, url, 0) then {url} else {}
  }

  /** The URLs at most `hops` links away from the seed. */
  function Reach(c: Crawler, site: Site, seed: Url, hops: nat): set<Url> {
    if hops == 0 then Seeds(c, seed)
    else
      var near := Reach(c, site, seed, hops - 1);
      near + set u, v | u in near && v in Targets(c, site, u) :: v
  }

  function Hops(c: Crawler): nat { Max(0, c.maxDepth) }

  /** Every page within max_depth hops loads, and its URL is one normalize_url leaves as it is. */
  ghost predicate Loads(c: Crawler, site: Site, seed: Url) {
    forall u <- Reach(c, site, seed, Hops(c)) :: site(u, 1).Page? && c.normalize(u) == u
  }

  function VisitedUrls(st: State): set<Url> {
    set u | u in st.items && st.items[u].status == Visited
  }

  // ---------------------------------------------------------------- distances

  /** `d` measures the distance from the seed of each URL of `all`, the URLs within reach, and is
      negative elsewhere. */
  ghost predicate Metric(c: Crawler, site: Site, seed: Url, d: Url -> int, all: set<Url>) {
    && (forall u :: 0 <= d(u) <==> u in all)
    && (forall u :: d(u) == 0 <==> u in Seeds(c, seed))
    && (forall u <- all :: d(u) <= Hops(c) && site(u, 1).Page? && c.normalize(u) == u)
    && (forall u, v :: u in all && d(u) < c.maxDepth && v in Targets(c, site, u) ==> v in all && d(v) <= d(u) + 1)
    && (forall v <- all :: d(v) > 0 ==> HasParent(c, site, d, v))
  }

  ghost predicate HasParent(c: Crawler, site: Site, d: Url -> int, url: Url) {
    exists u :: d(u) == d(url) - 1 && url in Targets(c, site, u)
  }

  lemma {:induction false} ReachMonotone(c: Crawler, site: Site, seed: Url, near: nat, far: nat)
    requires near <= far
    ensures Reach(c, site, seed, near) <= Reach(c, site, seed, far)
    decreases far
  {
    if near < far { ReachMonotone(c, site, seed, near, far - 1); }
  }

  /** The least number of hops, up to a limit, that reaches a URL; -1 if there is none. */
  ghost function Distance(c: Crawler, site: Site, seed: Url, limit: nat, url: Url): (d: int)
    ensures -1 <= d <= limit
    ensures 0 <= d <==> url in Reach(c, site, seed, limit)
    ensures 0 <= d ==> url in Reach(c, site, seed, d)
    ensures forall fewer :: 0 <= fewer < d ==> url !in Reach(c, site, seed, fewer)
  {
    if limit == 0 then (if url in Seeds(c, seed) then 0 else -1)
    else
      var d := Distance(c, site, seed, limit - 1, url);
      if 0 <= d then d
      else if url in Reach(c, site, seed, limit) then
        NotSooner(c, site, seed, limit, url);
        limit
      else -1
  }

  lemma NotSooner(c: Crawler, site: Site, seed: Url, limit: nat, url: Url)
    requires limit > 0 && url !in Reach(c, site, seed, limit - 1)
    ensures forall fewer :: 0 <= fewer < limit ==> url !in Reach(c, site, seed, fewer)
  {
    forall fewer: nat | fewer < limit
      ensures url !in Reach(c, site, seed, fewer)
    {
      ReachMonotone(c, site, seed, fewer, limit - 1);
    }
  }

  lemma NextHop(c: Crawler, site: Site, seed: Url, limit: nat, u: Url, v: Url)
    requires 0 <= Distance(c, site, seed, limit, u) < limit && v in Targets(c, site, u)
    ensures 0 <= Distance(c, site, seed, limit, v) <= Distance(c, site, seed, limit, u) + 1
  {
    var hops := Distance(c, site, seed, limit, u);
    assert v in Reach(c, site, seed, hops + 1);
    ReachMonotone(c, site, seed, hops + 1, limit);
  }

  lemma PreviousHop(c: Crawler, site: Site, seed: Url, limit: nat, v: Url) returns (u: Url)
    requires Distance(c, site, seed, limit, v) > 0
    ensures Distance(c, site, seed, limit, u) == Distance(c, site, seed, limit, v) - 1
    ensures v in Targets(c, site, u)
  {
    var hops := Distance(c, site, seed, limit, v);
    var near := Reach(c, site, seed, hops - 1);
    assert v in Reach(c, site, seed, hops) && v !in near;
    u :| u in near && v in Targets(c, site, u);
    ReachMonotone(c, site, seed, hops - 1, limit);
    if Distance(c, site, seed, limit, u) < hops - 1 { NextHop(c, site, seed, limit, u, v); }
  }

  lemma DistanceIsMetric(c: Crawler, site: Site, seed: Url)
    requires Loads(c, site, seed)
    ensures Metric(c, site, seed, u => Distance(c, site, seed, Hops(c), u), Reach(c, site, seed, Hops(c)))
  {
    var d := u => Distance(c, site, seed, Hops(c), u);
    ReachMonotone(c, site, seed, 0, Hops(c));
    forall u, v | 0 <= d(u) < c.maxDepth && v in Targets(c, site, u)
      ensures 0 <= d(v) <= d(u) + 1
    {
      NextHop(c, site, seed, Hops(c), u, v);
    }
    forall v | d(v) > 0
      ensures HasParent(c, site, d, v)
    {
      var u := PreviousHop(c, site, seed, Hops(c), v);
      assert d(u) == d(v) - 1;
    }
  }

  // ---------------------------------------------------------------- the search

  /** Every tracked URL is within reach and recorded at its distance. */
  ghost predicate AtDistance(d: Url -> int, all: set<Url>, st: State) {
    forall u <- st.items :: u in all && st.items[u].depth == d(u)
  }

  /** The queue holds one layer and then the next. */
  ghost predicate Layered(d: Url -> int, st: State, depth: int) {
    && (forall u <- st.order :: depth <= d(u) <= depth + 1)
    && (forall i, j :: 0 <= i < j < |st.order| ==> d(st.order[i]) <= d(st.order[j]))
  }

  /** The links of a page are tracked. */
  ghost predicate Expanded(c: Crawler, site: Site, d: Url -> int, st: State, url: Url) {
    d(url) < c.maxDepth ==> Targets(c, site, url) <= st.items.Keys
  }

  ghost predicate SearchInv(c: Crawler, site: Site, seed: Url, d: Url -> int, all: set<Url>, st: State) {
    && Inv(c, st) && AtDistance(d, all, st) && Seeds(c, seed) <= st.items.Keys
    && (forall u <- st.items ::
          st.items[u].status == Visited || (st.items[u].status == Queued && st.items[u].attempts == 0))
    && (forall u <- st.items :: st.items[u].status == Visited ==> Expanded(c, site, d, st, u))
    && (st.order != [] ==>
          && Layered(d, st, d(st.order[0]))
          && forall u <- st.items :: st.items[u].status == Visited ==> d(u) <= d(st.order[0]))
  }

  /** Once every tracked URL closer than some distance is visited, every URL within it is tracked. */
  lemma {:induction false} LayerComplete(c: Crawler, site: Site, seed: Url, d: Url -> int, all: set<Url>,
                                         st: State, hops: nat, url: Url)
    requires Metric(c, site, seed, d, all) && SearchInv(c, site, seed, d, all, st)
    requires forall u <- st.items :: d(u) < hops ==> st.items[u].status == Visited
    requires 0 <= d(url) <= hops
    ensures url in st.items
    decreases d(url)
  {
    if d(url) > 0 {
      assert HasParent(c, site, d, url);
      var u :| d(u) == d(url) - 1 && url in Targets(c, site, u);
      LayerComplete(c, site, seed, d, all, st, hops, u);
      assert Expanded(c, site, d, st, u);
    }
  }

  /** While the links of a page of layer `depth` are reported. */
  ghost predicate Reporting(c: Crawler, d: Url -> int, all: set<Url>, st: State, depth: int) {
    && Inv(c, st) && AtDistance(d, all, st) && Layered(d, st, depth)
    && (forall u <- all :: d(u) <= depth ==> u in st.items)
  }

  /** What was tracked stays as it was; what is new is queued and untried. */
  ghost predicate Grows(st: State, st': State) {
    && (forall u <- st.items :: u in st'.items && st'.items[u] == st.items[u])
    && (forall u <- st'.items :: u !in st.items ==> st'.items[u].status == Queued && st'.items[u].attempts == 0)
  }

  ghost predicate TracksLink(c: Crawler, st: State, raw: Url, depth: int) {
    depth < c.maxDepth && Admissible(c, c.normalize(raw)) ==> c.normalize(raw) in st.items
  }

  lemma ReportLink(c: Crawler, d: Url -> int, all: set<Url>, st: State, raw: Url, depth: nat, url: Url)
    requires Reporting(c, d, all, st, depth) && |all| <= PageLimit(c)
    requires depth < c.maxDepth && Admissible(c, c.normalize(raw)) ==>
               c.normalize(raw) in all && d(c.normalize(raw)) <= depth + 1
    ensures var mid := Enqueue(c, st, raw, depth + 1, Some(url));
            Reporting(c, d, all, mid, depth) && Grows(st, mid) && TracksLink(c, mid, raw, depth)
  {
    var v := c.normalize(raw);
    EnqueueStep(c, st, raw, depth + 1, Some(url));
    if depth < c.maxDepth && Admissible(c, v) && v !in st.items {
      assert st.items.Keys <= all - {v};
      SubsetSize(st.items.Keys, all - {v});
    }
  }

  lemma {:induction false} ReportLinks(c: Crawler, d: Url -> int, all: set<Url>, st: State,
                                       links: seq<Url>, depth: nat, url: Url)
    requires Reporting(c, d, all, st, depth) && |all| <= PageLimit(c)
    requires forall l <- links :: depth < c.maxDepth && Admissible(c, c.normalize(Resolve(c, url, l))) ==>
               c.normalize(Resolve(c, url, l)) in all && d(c.normalize(Resolve(c, url, l))) <= depth + 1
    ensures var st' := AddDiscovered(c, st, links, depth, url);
            && Reporting(c, d, all, st', depth) && Grows(st, st')
            && forall l <- links :: TracksLink(c, st', Resolve(c, url, l), depth)
    decreases |links|
  {
    if links != [] {
      var raw := Resolve(c, url, links[0]);
      assert links[0] in links;
      ReportLink(c, d, all, st, raw, depth, url);
      ReportLinks(c, d, all, Enqueue(c, st, raw, depth + 1, Some(url)), links[1..], depth, url);
      var st' := AddDiscovered(c, st, links, depth, url);
      forall l <- links
        ensures TracksLink(c, st', Resolve(c, url, l), depth)
      {
        assert l == links[0] || l in links[1..];
      }
    }
  }

  /** Taking the head of the queue starts the reporting of its layer. */
  lemma TakeHead(c: Crawler, d: Url -> int, all: set<Url>, st: State)
    requires Inv(c, st) && AtDistance(d, all, st) && st.order != [] && Layered(d, st, d(st.order[0]))
    requires forall u <- all :: d(u) <= d(st.order[0]) ==> u in st.items
    ensures Reporting(c, d, all, Next(st), d(st.order[0]))
  {
    NextStep(c, st);
    LayeredTail(d, st, Next(st), d(st.order[0]));
    assert forall u <- Next(st).items :: u in st.items && Next(st).items[u].depth == st.items[u].depth;
  }

  lemma LayeredTail(d: Url -> int, st: State, st': State, depth: int)
    requires Layered(d, st, depth) && st.order != [] && st'.order == st.order[1..]
    ensures Layered(d, st', depth)
  {
    assert forall i :: 0 <= i < |st'.order| ==> st'.order[i] == st.order[i + 1];
    assert forall u <- st'.order :: u in st.order;
  }

  lemma TargetsWithin(c: Crawler, site: Site, seed: Url, d: Url -> int, all: set<Url>, url: Url, link: Url)
    requires Metric(c, site, seed, d, all) && url in all && link in site(url, 1).links
    requires d(url) < c.maxDepth && Admissible(c, c.normalize(Resolve(c, url, link)))
    ensures c.normalize(Resolve(c, url, link)) in all && d(c.normalize(Resolve(c, url, link))) <= d(url) + 1
  {
    assert c.normalize(Resolve(c, url, link)) in Targets(c, site, url);
  }

  lemma TargetsTracked(c: Crawler, site: Site, st: State, url: Url, depth: int)
    requires site(url, 1).Page? && depth < c.maxDepth
    requires forall l <- site(url, 1).links :: TracksLink(c, st, Resolve(c, url, l), depth)
    ensures Targets(c, site, url) <= st.items.Keys
  {
    forall v <- Targets(c, site, url)
      ensures v in st.items
    {
      var l :| l in site(url, 1).links && v == c.normalize(Resolve(c, url, l)) && Admissible(c, v);
      assert TracksLink(c, st, Resolve(c, url, l), depth);
    }
  }

  /** Marking the page whose links were reported touches nothing else. */
  lemma MarkHead(c: Crawler, st: State, url: Url, code: int, redirects: int)
    requires Inv(c, st) && c.normalize(url) == url && url in st.items && st.items[url].status == Pending
    ensures MarkVisited(c, st, url, code, redirects) ==
            State(st.order, st.items[url := VisitedItem(st.items[url], code, redirects)])
    ensures Inv(c, MarkVisited(c, st, url, code, redirects))
  {
    MarkVisitedStep(c, st, url, code, redirects);
    assert url !in st.order;
    WithoutFacts(st.order, url);
  }

  /** Reporting a page's links. */
  lemma Report(c: Crawler, site: Site, seed: Url, d: Url -> int, all: set<Url>, st: State, url: Url)
    requires Metric(c, site, seed, d, all) && |all| <= PageLimit(c) && url in all
    requires Reporting(c, d, all, st, d(url))
    ensures var found := AddDiscovered(c, st, site(url, 1).links, d(url), url);
            && Reporting(c, d, all, found, d(url)) && Grows(st, found) && Expanded(c, site, d, found, url)
  {
    var page := site(url, 1);
    forall l <- page.links | d(url) < c.maxDepth && Admissible(c, c.normalize(Resolve(c, url, l)))
      ensures c.normalize(Resolve(c, url, l)) in all && d(c.normalize(Resolve(c, url, l))) <= d(url) + 1
    {
      TargetsWithin(c, site, seed, d, all, url, l);
    }
    ReportLinks(c, d, all, st, page.links, d(url), url);
    if d(url) < c.maxDepth {
      TargetsTracked(c, site, AddDiscovered(c, st, page.links, d(url), url), url, d(url));
    }
  }

  /** Marking the page visited keeps what reporting established. */
  lemma MarkReported(c: Crawler, site: Site, d: Url -> int, all: set<Url>, st: State, url: Url,
                     code: int, redirects: int)
    requires Reporting(c, d, all, st, d(url)) && Expanded(c, site, d, st, url)
    requires c.normalize(url) == url && url in st.items && st.items[url].status == Pending
    ensures var end := MarkVisited(c, st, url, code, redirects);
            && Reporting(c, d, all, end, d(url)) && Expanded(c, site, d, end, url)
            && end == State(st.order, st.items[url := VisitedItem(st.items[url], code, redirects)])
  {
    MarkHead(c, st, url, code, redirects);
    var end := MarkVisited(c, st, url, code, redirects);
    assert end.items.Keys == st.items.Keys;
  }

  /** Reporting a page's links and marking it visited. */
  lemma Expand(c: Crawler, site: Site, seed: Url, d: Url -> int, all: set<Url>, st: State, url: Url)
    requires Metric(c, site, seed, d, all) && |all| <= PageLimit(c)
    requires url in all && url in st.items && st.items[url].status == Pending
    requires Reporting(c, d, all, st, d(url))
    ensures var page := site(url, 1);
            var found := AddDiscovered(c, st, page.links, d(url), url);
            var end := MarkVisited(c, found, url, page.code, page.redirects);
            && Grows(st, found) && Reporting(c, d, all, end, d(url)) && Expanded(c, site, d, end, url)
            && end == State(found.order, found.items[url := VisitedItem(st.items[url], page.code, page.redirects)])
  {
    var page := site(url, 1);
    Report(c, site, seed, d, all, st, url);
    MarkReported(c, site, d, all, AddDiscovered(c, st, page.links, d(url), url), url, page.code, page.redirects);
  }

  /** What a turn does to the table: the head is visited, the rest stays, what is new is queued. */
  ghost predicate Advanced(st: State, end: State, url: Url) {
    && (forall u <- st.items :: u in end.items && (u != url ==> end.items[u] == st.items[u]))
    && (forall u <- end.items :: u !in st.items ==> end.items[u].status == Queued && end.items[u].attempts == 0)
    && url in end.items && end.items[url].status == Visited
  }

  lemma TurnAdvances(st: State, found: State, url: Url, item: Item, order: seq<Url>)
    requires HasNext(st) && url == st.order[0] && Grows(Next(st), found) && item.status == Visited
    ensures Advanced(st, State(order, found.items[url := item]), url)
  {
    var taken := Next(st);
    assert forall u <- st.items :: u in taken.items && (u != url ==> taken.items[u] == st.items[u]);
  }

  lemma Advance(c: Crawler, site: Site, seed: Url, d: Url -> int, all: set<Url>, st: State, end: State, url: Url)
    requires SearchInv(c, site, seed, d, all, st) && st.order != [] && url == st.order[0]
    requires Reporting(c, d, all, end, d(url)) && Expanded(c, site, d, end, url) && Advanced(st, end, url)
    ensures SearchInv(c, site, seed, d, all, end)
  {
    forall u <- end.items | end.items[u].status == Visited
      ensures Expanded(c, site, d, end, u) && d(u) <= d(url)
    {
      if u != url { assert Expanded(c, site, d, st, u); }
    }
    if end.order != [] {
      assert end.order[0] in end.order;
    }
  }

  lemma HeadReady(c: Crawler, site: Site, seed: Url, d: Url -> int, all: set<Url>, st: State)
    requires Metric(c, site, seed, d, all) && SearchInv(c, site, seed, d, all, st) && HasNext(st)
    ensures var url := st.order[0];
            && Reporting(c, d, all, Next(st), d(url)) && url in all
            && st.items[url].depth == d(url) && st.items[url].attempts == 0
  {
    var url := st.order[0];
    assert url in st.order;
    forall u <- all | d(u) <= d(url)
      ensures u in st.items
    {
      LayerComplete(c, site, seed, d, all, st, d(url), u);
    }
    TakeHead(c, d, all, st);
  }

  lemma FirstTurn(c: Crawler, site: Site, st: State, depth: int)
    requires HasNext(st) && st.items[st.order[0]].attempts == 0 && st.items[st.order[0]].depth == depth
    requires site(st.order[0], 1).Page?
    ensures var url := st.order[0];
            var page := site(url, 1);
            Turn(c, site, st) ==
            MarkVisited(c, AddDiscovered(c, Next(st), page.links, depth, url), url, page.code, page.redirects)
  {
  }

  lemma SearchTurn(c: Crawler, site: Site, seed: Url, d: Url -> int, all: set<Url>, st: State)
    requires Metric(c, site, seed, d, all) && SearchInv(c, site, seed, d, all, st) && HasNext(st)
    requires |all| <= PageLimit(c)
    ensures SearchInv(c, site, seed, d, all, Turn(c, site, st))
  {
    var url := st.order[0];
    HeadReady(c, site, seed, d, all, st);
    var taken := Next(st);
    Expand(c, site, seed, d, all, taken, url);
    var page := site(url, 1);
    var found := AddDiscovered(c, taken, page.links, d(url), url);
    var end := Turn(c, site, st);
    FirstTurn(c, site, st, d(url));
    TurnAdvances(st, found, url, VisitedItem(taken.items[url], page.code, page.redirects), found.order);
    Advance(c, site, seed, d, all, st, end, url);
  }

  lemma {:induction false} SearchCrawl(c: Crawler, site: Site, seed: Url, d: Url -> int, all: set<Url>, st: State)
    requires Metric(c, site, seed, d, all) && SearchInv(c, site, seed, d, all, st)
    requires |all| <= PageLimit(c)
    ensures SearchInv(c, site, seed, d, all, Crawl(c, site, st))
    decreases Budget(c, st)
  {
    if HasNext(st) {
      TurnFacts(c, site, st);
      SearchTurn(c, site, seed, d, all, st);
      SearchCrawl(c, site, seed, d, all, Turn(c, site, st));
    }
  }

  lemma StartFacts(c: Crawler, seed: Url)
    ensures
      var url := c.normalize(c.normalize(seed));
      Start(c, seed) ==
      if url in Seeds(c, seed) && c.maxPages > 0 then State([url], map[url := NewItem(url, 0, None)]) else EMPTY
  {
    var url := c.normalize(c.normalize(seed));
    assert |EMPTY.items| == 0;
    if url in Seeds(c, seed) && c.maxPages > 0 {
      assert [] + [url] == [url] && map[][url := NewItem(url, 0, None)] == map[url := NewItem(url, 0, None)];
    }
  }

  lemma SeededSearch(c: Crawler, site: Site, seed: Url, d: Url -> int, all: set<Url>, url: Url)
    requires Metric(c, site, seed, d, all) && Seeds(c, seed) == {url} && c.maxPages > 0
    requires Inv(c, State([url], map[url := NewItem(url, 0, None)]))
    ensures SearchInv(c, site, seed, d, all, State([url], map[url := NewItem(url, 0, None)]))
  {
    var st := State([url], map[url := NewItem(url, 0, None)]);
    assert d(url) == 0 && url in all;
    assert st.items.Keys == {url};
    assert Layered(d, st, 0) && AtDistance(d, all, st);
  }

  lemma StartSearch(c: Crawler, site: Site, seed: Url, d: Url -> int, all: set<Url>)
    requires Metric(c, site, seed, d, all) && |all| <= PageLimit(c)
    ensures SearchInv(c, site, seed, d, all, Start(c, seed))
  {
    var url := c.normalize(c.normalize(seed));
    StartFacts(c, seed);
    assert Inv(c, Start(c, seed));
    if url in Seeds(c, seed) {
      assert Seeds(c, seed) == {url} && d(url) == 0;
      SubsetSize({url}, all);
      SeededSearch(c, site, seed, d, all, url);
    } else {
      assert Seeds(c, seed) == {} && Start(c, seed) == EMPTY;
    }
  }

  lemma SearchEnds(c: Crawler, site: Site, seed: Url, d: Url -> int, all: set<Url>)
    requires Metric(c, site, seed, d, all) && |all| <= PageLimit(c)
    ensures var end := Crawl(c, site, Start(c, seed));
            VisitedUrls(end) == end.items.Keys == all && AtDistance(d, all, end)
  {
    var end := Crawl(c, site, Start(c, seed));
    StartSearch(c, site, seed, d, all);
    SearchCrawl(c, site, seed, d, all, Start(c, seed));
    CrawlFacts(c, site, Start(c, seed));
    forall u <- end.items
      ensures end.items[u].status == Visited
    {
      assert u !in end.order;
    }
    forall u <- all
      ensures u in end.items
    {
      LayerComplete(c, site, seed, d, all, end, Hops(c), u);
    }
  }

  // ---------------------------------------------------------------- the results

  /** Breadth-first exactness: when everything within max_depth hops loads and is in normal form, the
      crawl visits exactly that if and only if max_pages leaves room for it. */
  lemma VisitsExactlyTheReachable(c: Crawler, site: Site, seed: Url)
    requires Loads(c, site, seed)
    ensures VisitedUrls(Crawl(c, site, Start(c, seed))) == Reach(c, site, seed, Hops(c))
            <==> |Reach(c, site, seed, Hops(c))| <= PageLimit(c)
  {
    var end := Crawl(c, site, Start(c, seed));
    if |Reach(c, site, seed, Hops(c))| <= PageLimit(c) {
      DistanceIsMetric(c, site, seed);
      SearchEnds(c, site, seed, u => Distance(c, site, seed, Hops(c), u), Reach(c, site, seed, Hops(c)));
    } else {
      CrawlFacts(c, site, Start(c, seed));
      SubsetSize(VisitedUrls(end), end.items.Keys);
    }
  }

  /** ... and then the depth recorded for a URL is its shortest distance from the seed. */
  lemma RecordsShortestDistances(c: Crawler, site: Site, seed: Url, url: Url, hops: nat)
    requires Loads(c, site, seed) && |Reach(c, site, seed, Hops(c))| <= PageLimit(c)
    requires url in Reach(c, site, seed, Hops(c))
    ensures var end := Crawl(c, site, Start(c, seed));
            url in end.items && (url in Reach(c, site, seed, hops) <==> end.items[url].depth <= hops)
  {
    var d := Distance(c, site, seed, Hops(c), url);
    DistanceIsMetric(c, site, seed);
    SearchEnds(c, site, seed, u => Distance(c, site, seed, Hops(c), u), Reach(c, site, seed, Hops(c)));
    if d <= hops { ReachMonotone(c, site, seed, d, hops); }
  }
}
