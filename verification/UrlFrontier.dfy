/** The crawl frontier as a table of items with a status column and the queue's order, its operations
    as functions, and what each of them keeps. The class in UrlDiscoveryService.dfy, with its four
    dicts, is proved to behave as these functions say. */
module UrlFrontier {
  import opened Collections
  import opened Urls

  datatype Status = Queued | Pending | Visited | Failed

  datatype Item = Item(url: Url, depth: int, discoveredFrom: Option<Url>, status: Status,
                       attempts: nat, redirectCount: int, error: Option<string>, statusCode: Option<int>)

  /** The limits of a crawl, and the URL library: `netloc` and `join` yield None where urllib raises. */
  datatype Crawler = Crawler(maxDepth: int, maxPages: int, retry: int, allowedDomains: seq<string>,
                             normalize: Url -> Url,
                             netloc: Url -> Option<string>,
                             join: (Url, Url) -> Option<Url>)

  /** `order` lists the queued URLs, next to be handed out first. */
  datatype State = State(order: seq<Url>, items: map<Url, Item>)

  const EMPTY := State([], map[])

  predicate EndsWith(s: string, suffix: string) {
    |suffix| <= |s| && s[|s| - |suffix|..] == suffix
  }

  predicate DomainAllowed(c: Crawler, url: Url) {
    c.allowedDomains == [] ||
    match c.netloc(url)
    case None => false
    case Some(host) => exists d <- c.allowedDomains :: host == d || EndsWith(host, "." + d)
  }

  /** Whether a URL may be put on the frontier at this depth if there is room for it. */
  predicate Eligible(c: Crawler, url: Url, depth: int) {
    !Blank(url) && depth <= c.maxDepth && DomainAllowed(c, url)
  }

  predicate Accepts(c: Crawler, st: State, raw: Url, depth: int) {
    var url := c.normalize(raw);
    Eligible(c, url, depth) && url !in st.items && |st.items| < c.maxPages
  }

  function NewItem(url: Url, depth: int, from: Option<Url>): Item {
    Item(url, depth, from, Queued, 0, 0, None, None)
  }

  function Enqueue(c: Crawler, st: State, raw: Url, depth: int, from: Option<Url>): State {
    var url := c.normalize(raw);
    if Accepts(c, st, raw, depth)
    then State(st.order + [url], st.items[url := NewItem(url, depth, from)])
    else st
  }

  function Resolve(c: Crawler, source: Url, raw: Url): Url {
    match c.join(source, raw)
    case None => raw
    case Some(url) => url
  }

  function AddDiscovered(c: Crawler, st: State, urls: seq<Url>, depth: int, source: Url): State
    decreases |urls|
  {
    if urls == [] then st
    else AddDiscovered(c, Enqueue(c, st, Resolve(c, source, urls[0]), depth + 1, Some(source)),
                       urls[1..], depth, source)
  }

  predicate HasNext(st: State) {
    st.order != [] && st.order[0] in st.items
  }

  function Taken(item: Item): Item {
    item.(status := Pending, attempts := item.attempts + 1)
  }

  function Next(st: State): State {
    if !HasNext(st) then st
    else State(st.order[1..], st.items[st.order[0] := Taken(st.items[st.order[0]])])
  }

  /** Whether a mark_* call finds the URL: among the pending items, else among the queued ones. */
  predicate Open(st: State, url: Url) {
    url in st.items && (st.items[url].status == Pending || st.items[url].status == Queued)
  }

  function VisitedItem(item: Item, code: int, redirects: int): Item {
    item.(status := Visited, statusCode := Some(code), redirectCount := redirects)
  }

  function MarkVisited(c: Crawler, st: State, raw: Url, code: int, redirects: int): State {
    var url := c.normalize(raw);
    if !Open(st, url) then st
    else State(Without(st.order, url), st.items[url := VisitedItem(st.items[url], code, redirects)])
  }

  function FailedItem(item: Item, error: string, code: Option<int>, retry: int): Item {
    item.(error := Some(error),
          statusCode := if code == None || code == Some(0) then item.statusCode else code,
          status := if item.attempts < retry then Queued else Failed)
  }

  function MarkFailed(c: Crawler, st: State, raw: Url, error: string, code: Option<int>): State {
    var url := c.normalize(raw);
    if !Open(st, url) then st
    else
      State(Without(st.order, url) + (if st.items[url].attempts < c.retry then [url] else []),
            st.items[url := FailedItem(st.items[url], error, code, c.retry)])
  }

  // ---------------------------------------------------------------- the invariant

  function Max(a: int, b: int): int { if a < b then b else a }

  function AttemptLimit(c: Crawler): nat { Max(1, c.retry) }

  function PageLimit(c: Crawler): nat { Max(0, c.maxPages) }

  ghost predicate ItemOk(c: Crawler, url: Url, item: Item) {
    && item.url == url
    && item.depth <= c.maxDepth
    && item.attempts <= AttemptLimit(c)
    && match item.status
       case Queued => item.attempts == 0 || item.attempts < c.retry
       case Pending => item.attempts >= 1
       case Visited => true
       case Failed => item.attempts >= c.retry
  }

  /** The queue lists each queued item once; every item sits under its own URL, within the depth
      and attempt limits its status calls for; the page limit holds. */
  ghost predicate Inv(c: Crawler, st: State) {
    match st
    case State(order, items) =>
      && NoDuplicates(order)
      && (forall u :: u in order <==> u in items && items[u].status == Queued)
      && (forall u <- items :: ItemOk(c, u, items[u]))
      && |items| <= PageLimit(c)
  }

  /** Nothing tracked is ever forgotten, and only its progress changes: not where, how deep or
      from which page it was found, nor the attempts made. A visited or failed item is final. */
  ghost predicate Extends(before: State, after: State) {
    forall u <- before.items ::
      && u in after.items
      && after.items[u].depth == before.items[u].depth
      && after.items[u].discoveredFrom == before.items[u].discoveredFrom
      && after.items[u].attempts >= before.items[u].attempts
      && (before.items[u].status == Visited || before.items[u].status == Failed ==>
            after.items[u] == before.items[u])
  }

  lemma EnqueueStep(c: Crawler, st: State, raw: Url, depth: int, from: Option<Url>)
    requires Inv(c, st)
    ensures Inv(c, Enqueue(c, st, raw, depth, from)) && Extends(st, Enqueue(c, st, raw, depth, from))
  {
    var u := c.normalize(raw);
    if Accepts(c, st, raw, depth) {
      var st' := Enqueue(c, st, raw, depth, from);
      assert st'.items.Keys == st.items.Keys + {u};
      assert |st'.items| == |st'.items.Keys|;
    }
  }

  lemma NextStep(c: Crawler, st: State)
    requires Inv(c, st)
    ensures Inv(c, Next(st)) && Extends(st, Next(st))
    ensures HasNext(st) <==> st.order != []
    ensures HasNext(st) ==> Next(st).items.Keys == st.items.Keys
  {
    if HasNext(st) {
      var u := st.order[0];
      var st' := Next(st);
      assert u in st.order;
      assert st'.items.Keys == st.items.Keys;
      assert |st'.items| == |st'.items.Keys|;
      assert st.order == [u] + st.order[1..];
    }
  }

  lemma RefiledOrder(st: State, u: Url, item: Item, order: seq<Url>)
    requires NoDuplicates(st.order) && u in st.items && item.status != Pending
    requires forall v :: v in st.order <==> v in st.items && st.items[v].status == Queued
    requires order == Without(st.order, u) + (if item.status == Queued then [u] else [])
    ensures var items := st.items[u := item];
            NoDuplicates(order) && forall v :: v in order <==> v in items && items[v].status == Queued
  {
    WithoutFacts(st.order, u);
  }

  lemma MarkStep(c: Crawler, st: State, raw: Url, item: Item, order: seq<Url>)
    requires Inv(c, st)
    requires var u := c.normalize(raw);
             && Open(st, u) && ItemOk(c, u, item)
             && item.status != Pending
             && order == Without(st.order, u) + (if item.status == Queued then [u] else [])
             && item.depth == st.items[u].depth && item.discoveredFrom == st.items[u].discoveredFrom
             && item.attempts == st.items[u].attempts
    ensures var st' := State(order, st.items[c.normalize(raw) := item]);
            Inv(c, st') && Extends(st, st') && st'.items.Keys == st.items.Keys
  {
    var u := c.normalize(raw);
    var st' := State(order, st.items[u := item]);
    assert st'.items.Keys == st.items.Keys;
    assert |st'.items| == |st'.items.Keys|;
    RefiledOrder(st, u, item, order);
  }

  lemma MarkVisitedStep(c: Crawler, st: State, raw: Url, code: int, redirects: int)
    requires Inv(c, st)
    ensures var st' := MarkVisited(c, st, raw, code, redirects);
            Inv(c, st') && Extends(st, st') && st'.items.Keys == st.items.Keys
  {
    var u := c.normalize(raw);
    if Open(st, u) {
      MarkStep(c, st, raw, VisitedItem(st.items[u], code, redirects), Without(st.order, u));
    }
  }

  lemma MarkFailedStep(c: Crawler, st: State, raw: Url, error: string, code: Option<int>)
    requires Inv(c, st)
    ensures var st' := MarkFailed(c, st, raw, error, code);
            Inv(c, st') && Extends(st, st') && st'.items.Keys == st.items.Keys
  {
    var u := c.normalize(raw);
    if Open(st, u) {
      var st' := MarkFailed(c, st, raw, error, code);
      MarkStep(c, st, raw, FailedItem(st.items[u], error, code, c.retry), st'.order);
    }
  }

  lemma {:induction false} AddDiscoveredStep(c: Crawler, st: State, urls: seq<Url>, depth: int, source: Url)
    requires Inv(c, st)
    ensures Inv(c, AddDiscovered(c, st, urls, depth, source))
    ensures Extends(st, AddDiscovered(c, st, urls, depth, source))
    decreases |urls|
  {
    if urls != [] {
      var raw := Resolve(c, source, urls[0]);
      EnqueueStep(c, st, raw, depth + 1, Some(source));
      AddDiscoveredStep(c, Enqueue(c, st, raw, depth + 1, Some(source)), urls[1..], depth, source);
    }
  }

  /** The constructor's frontier: the seed, normalized twice, at depth 0 if it is eligible. */
  function Start(c: Crawler, seed: Url): (st: State)
    ensures Inv(c, st)
  {
    var url := c.normalize(seed);
    EnqueueStep(c, EMPTY, url, 0, None);
    if Blank(url) then EMPTY else Enqueue(c, EMPTY, url, 0, None)
  }

  // ---------------------------------------------------------------- which hosts are allowed

  /** The host is the domain with something and a dot before it. */
  ghost predicate Subdomain(host: string, domain: string) {
    exists sub: string :: host == sub + ("." + domain)
  }

  lemma {:induction false} EndsWithExactly(s: string, suffix: string)
    ensures EndsWith(s, suffix) <==> exists start: string :: s == start + suffix
  {
    if EndsWith(s, suffix) { assert s == s[..|s| - |suffix|] + suffix; }
  }

  /** Without allowed domains every URL is allowed; else one with a host that is an allowed domain or a subdomain
      of one. */
  lemma AllowedExactly(c: Crawler, url: Url)
    ensures DomainAllowed(c, url) <==>
      || |c.allowedDomains| == 0
      || (c.netloc(url).Some? &&
          exists d :: d in c.allowedDomains && (c.netloc(url).value == d || Subdomain(c.netloc(url).value, d)))
  {
    forall d <- c.allowedDomains
      ensures c.netloc(url).Some? ==>
        (EndsWith(c.netloc(url).value, "." + d) <==> Subdomain(c.netloc(url).value, d))
    {
      if c.netloc(url).Some? { EndsWithExactly(c.netloc(url).value, "." + d); }
    }
  }

  // ---------------------------------------------------------------- what a page's links lead to

  /** The link leads to the URL: it is what the two join to, or the link itself where joining fails. */
  predicate LeadsTo(c: Crawler, source: Url, link: Url, url: Url) {
    c.join(source, link) == Some(url) || (c.join(source, link) == None && url == link)
  }

  /** The URL is tracked if the crawl may follow it and there was room. */
  predicate TrackedIfRoom(c: Crawler, st: State, url: Url, depth: int) {
    !Blank(url) && depth <= c.maxDepth && DomainAllowed(c, url) ==> url in st.items || |st.items| >= c.maxPages
  }

  /** The URL is new, and some link led to it. */
  ghost predicate FoundOn(c: Crawler, st: State, urls: seq<Url>, depth: int, source: Url, url: Url) {
    && url in st.items
    && st.items[url] == Item(url, depth, Some(source), Queued, 0, 0, None, None)
    && !Blank(url) && depth <= c.maxDepth && DomainAllowed(c, url)
    && exists link, to :: link in urls && LeadsTo(c, source, link, to) && c.normalize(to) == url
  }

  lemma EnqueueFinds(c: Crawler, st: State, link: Url, to: Url, depth: int, source: Url)
    requires LeadsTo(c, source, link, to)
    ensures var st' := Enqueue(c, st, Resolve(c, source, link), depth, Some(source));
            && TrackedIfRoom(c, st', c.normalize(to), depth)
            && (forall u <- st.items :: u in st'.items && st'.items[u] == st.items[u])
            && (forall u <- st'.items :: u in st.items || FoundOn(c, st', [link], depth, source, u))
            && |st.items| <= |st'.items|
  {
    var st' := Enqueue(c, st, Resolve(c, source, link), depth, Some(source));
    assert Resolve(c, source, link) == to && link in [link];
    assert |st'.items| == |st'.items.Keys| && |st.items| == |st.items.Keys|;
    SubsetSize(st.items.Keys, st'.items.Keys);
  }

  /** After a page's links were reported, every URL one of them leads to is tracked, if the crawl may follow it and
      there was room; everything new is such a URL, filed under this source a level deeper; the rest is as it was. */
  lemma {:induction false} LinksAreTracked(c: Crawler, st: State, urls: seq<Url>, depth: int, source: Url)
    ensures
      var st' := AddDiscovered(c, st, urls, depth, source);
      && (forall link, to :: link in urls && LeadsTo(c, source, link, to) ==>
            TrackedIfRoom(c, st', c.normalize(to), depth + 1))
      && (forall u <- st.items :: u in st'.items && st'.items[u] == st.items[u])
      && (forall u <- st'.items :: u in st.items || FoundOn(c, st', urls, depth + 1, source, u))
      && |st.items| <= |st'.items|
    decreases |urls|
  {
    if urls != [] {
      var link := urls[0];
      var to := if c.join(source, link).Some? then c.join(source, link).value else link;
      EnqueueFinds(c, st, link, to, depth + 1, source);
      var next := Enqueue(c, st, Resolve(c, source, link), depth + 1, Some(source));
      LinksAreTracked(c, next, urls[1..], depth, source);
      assert urls == [link] + urls[1..];
    }
  }
}
