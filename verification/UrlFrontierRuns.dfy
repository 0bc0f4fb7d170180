/** Whole runs of the frontier: how often URLs are handed out under any interleaving of calls, and
    what a crawl that answers every hand-out ends with. */
module UrlFrontierRuns {
  import opened Collections
  import opened Urls
  import opened UrlFrontier

  datatype Op =
    | OpEnqueue(url: Url, depth: int, from: Option<Url>)
    | OpAddDiscovered(urls: seq<Url>, depth: int, source: Url)
    | OpNext
    | OpMarkVisited(url: Url, code: int, redirects: int)
    | OpMarkFailed(url: Url, error: string, failCode: Option<int>)

  function Apply(c: Crawler, st: State, op: Op): State {
    match op
    case OpEnqueue(url, depth, from) => Enqueue(c, st, url, depth, from)
    case OpAddDiscovered(urls, depth, source) => AddDiscovered(c, st, urls, depth, source)
    case OpNext => Next(st)
    case OpMarkVisited(url, code, redirects) => MarkVisited(c, st, url, code, redirects)
    case OpMarkFailed(url, error, failCode) => MarkFailed(c, st, url, error, failCode)
  }

  function Run(c: Crawler, st: State, ops: seq<Op>): State
    decreases |ops|
  {
    if ops == [] then st else Run(c, Apply(c, st, ops[0]), ops[1..])
  }

  /** The URLs the successful `next` calls of a run return, in order. */
  function HandedOut(c: Crawler, st: State, ops: seq<Op>): seq<Url>
    decreases |ops|
  {
    if ops == [] then []
    else (match Hands(st, ops[0]) case None => [] case Some(url) => [url])
         + HandedOut(c, Apply(c, st, ops[0]), ops[1..])
  }

  function AttemptsOf(st: State, url: Url): nat {
    if url in st.items then st.items[url].attempts else 0
  }

  ghost function AllAttempts(items: map<Url, Item>): nat
    decreases |items|
  {
    if items == map[] then 0
    else
      var u :| u in items;
      assert (items - {u}).Keys == items.Keys - {u};
      items[u].attempts + AllAttempts(items - {u})
  }

  lemma NothingHandedOutYet(c: Crawler, seed: Url)
    ensures AllAttempts(Start(c, seed).items) == 0
    ensures forall u :: AttemptsOf(Start(c, seed), u) == 0
  {
    AllAttemptsZero(Start(c, seed).items);
  }

  lemma {:induction false} AllAttemptsZero(items: map<Url, Item>)
    requires forall u <- items :: items[u].attempts == 0
    ensures AllAttempts(items) == 0
    decreases |items|
  {
    if items != map[] {
      var u :| u in items && AllAttempts(items) == items[u].attempts + AllAttempts(items - {u});
      assert (items - {u}).Keys == items.Keys - {u};
      AllAttemptsZero(items - {u});
    }
  }

  lemma {:induction false} AllAttemptsSplit(items: map<Url, Item>, url: Url)
    requires url in items
    ensures AllAttempts(items) == items[url].attempts + AllAttempts(items - {url})
    decreases |items|
  {
    var u :| u in items && AllAttempts(items) == items[u].attempts + AllAttempts(items - {u});
    if u != url {
      assert (items - {u}).Keys == items.Keys - {u};
      AllAttemptsSplit(items - {u}, url);
      var rest := items - {url};
      assert rest.Keys == items.Keys - {url};
      AllAttemptsSplit(rest, u);
      assert items - {u} - {url} == rest - {u};
    }
  }

  lemma AllAttemptsUpdate(items: map<Url, Item>, url: Url, item: Item)
    ensures AllAttempts(items[url := item]) ==
            AllAttempts(items) + item.attempts - (if url in items then items[url].attempts else 0)
  {
    var items' := items[url := item];
    AllAttemptsSplit(items', url);
    if url in items {
      AllAttemptsSplit(items, url);
      assert items' - {url} == items - {url};
    } else {
      assert items' - {url} == items;
    }
  }

  function Times(n: nat, k: nat): nat {
    if n == 0 then 0 else Times(n - 1, k) + k
  }

  lemma {:induction false} TimesIsProduct(n: nat, k: nat)
    ensures Times(n, k) == n * k
  {
    if n > 0 { TimesIsProduct(n - 1, k); }
  }

  lemma {:induction false} AllAttemptsBound(items: map<Url, Item>, limit: nat)
    requires forall u <- items :: items[u].attempts <= limit
    ensures AllAttempts(items) <= Times(|items|, limit)
    decreases |items|
  {
    if items != map[] {
      var u :| u in items && AllAttempts(items) == items[u].attempts + AllAttempts(items - {u});
      assert (items - {u}).Keys == items.Keys - {u};
      AllAttemptsBound(items - {u}, limit);
    }
  }

  lemma MultiplyMonotone(a: nat, b: nat, k: nat)
    requires a <= b
    ensures a * k <= b * k
  {
    calc {
      b * k;
      (a + (b - a)) * k;
      a * k + (b - a) * k;
    }
  }

  lemma {:induction false} AddDiscoveredAttempts(c: Crawler, st: State, urls: seq<Url>, depth: int, source: Url)
    requires Inv(c, st)
    ensures AllAttempts(AddDiscovered(c, st, urls, depth, source).items) == AllAttempts(st.items)
    ensures forall u :: AttemptsOf(AddDiscovered(c, st, urls, depth, source), u) == AttemptsOf(st, u)
    decreases |urls|
  {
    if urls != [] {
      var raw := Resolve(c, source, urls[0]);
      EnqueueStep(c, st, raw, depth + 1, Some(source));
      AllAttemptsUpdate(st.items, c.normalize(raw), NewItem(c.normalize(raw), depth + 1, Some(source)));
      AddDiscoveredAttempts(c, Enqueue(c, st, raw, depth + 1, Some(source)), urls[1..], depth, source);
    }
  }

  /** The URL an operation hands out, if any. */
  function Hands(st: State, op: Op): Option<Url> {
    if op == OpNext && HasNext(st) then Some(st.order[0]) else None
  }

  lemma StepKeeps(c: Crawler, st: State, op: Op)
    requires Inv(c, st)
    ensures Inv(c, Apply(c, st, op)) && Extends(st, Apply(c, st, op))
  {
    match op
    case OpEnqueue(url, depth, from) => EnqueueStep(c, st, url, depth, from);
    case OpAddDiscovered(urls, depth, source) => AddDiscoveredStep(c, st, urls, depth, source);
    case OpNext => NextStep(c, st);
    case OpMarkVisited(url, code, redirects) => MarkVisitedStep(c, st, url, code, redirects);
    case OpMarkFailed(url, error, failCode) => MarkFailedStep(c, st, url, error, failCode);
  }

  /** An attempt is recorded exactly when `next` hands the URL out. */
  lemma StepCounts(c: Crawler, st: State, op: Op)
    requires Inv(c, st)
    ensures var st' := Apply(c, st, op);
            && AllAttempts(st'.items) == AllAttempts(st.items) + (if Hands(st, op).Some? then 1 else 0)
            && forall u :: AttemptsOf(st', u) == AttemptsOf(st, u) + (if Hands(st, op) == Some(u) then 1 else 0)
  {
    match op
    case OpEnqueue(url, depth, from) =>
      AllAttemptsUpdate(st.items, c.normalize(url), NewItem(c.normalize(url), depth, from));
    case OpAddDiscovered(urls, depth, source) =>
      AddDiscoveredAttempts(c, st, urls, depth, source);
    case OpNext =>
      if HasNext(st) { AllAttemptsUpdate(st.items, st.order[0], Taken(st.items[st.order[0]])); }
    case OpMarkVisited(url, code, redirects) =>
      var u := c.normalize(url);
      if Open(st, u) { AllAttemptsUpdate(st.items, u, VisitedItem(st.items[u], code, redirects)); }
    case OpMarkFailed(url, error, failCode) =>
      var u := c.normalize(url);
      if Open(st, u) { AllAttemptsUpdate(st.items, u, FailedItem(st.items[u], error, failCode, c.retry)); }
  }

  lemma {:induction false} RunKeeps(c: Crawler, st: State, ops: seq<Op>)
    requires Inv(c, st)
    ensures Inv(c, Run(c, st, ops)) && Extends(st, Run(c, st, ops))
    decreases |ops|
  {
    if ops != [] {
      StepKeeps(c, st, ops[0]);
      RunKeeps(c, Apply(c, st, ops[0]), ops[1..]);
    }
  }

  lemma {:induction false} RunCounts(c: Crawler, st: State, ops: seq<Op>)
    requires Inv(c, st)
    ensures |HandedOut(c, st, ops)| == AllAttempts(Run(c, st, ops).items) - AllAttempts(st.items)
    ensures forall u :: multiset(HandedOut(c, st, ops))[u] == AttemptsOf(Run(c, st, ops), u) - AttemptsOf(st, u)
    decreases |ops|
  {
    if ops != [] {
      StepKeeps(c, st, ops[0]);
      StepCounts(c, st, ops[0]);
      RunCounts(c, Apply(c, st, ops[0]), ops[1..]);
    }
  }

  /** Whatever calls are made in whatever order after the constructor, the invariant holds, the
      attempts counter of a URL is the number of times it was handed out, no URL is handed out more
      than max(1, retry) times, and all together at most max_pages * max(1, retry) times. */
  lemma WorkBound(c: Crawler, seed: Url, ops: seq<Op>)
    ensures var end := Run(c, Start(c, seed), ops);
            var handed := HandedOut(c, Start(c, seed), ops);
            && Inv(c, end)
            && |handed| <= PageLimit(c) * AttemptLimit(c)
            && forall u :: multiset(handed)[u] == AttemptsOf(end, u) <= AttemptLimit(c)
  {
    NothingHandedOutYet(c, seed);
    RunKeeps(c, Start(c, seed), ops);
    RunCounts(c, Start(c, seed), ops);
    var end := Run(c, Start(c, seed), ops);
    AllAttemptsBound(end.items, AttemptLimit(c));
    TimesIsProduct(|end.items|, AttemptLimit(c));
    MultiplyMonotone(|end.items|, PageLimit(c), AttemptLimit(c));
  }

  /** A URL once visited or failed for good is never handed out again and keeps its record. */
  lemma SettledForGood(c: Crawler, st: State, ops: seq<Op>, url: Url)
    requires Inv(c, st)
    requires url in st.items && (st.items[url].status == Visited || st.items[url].status == Failed)
    ensures url !in HandedOut(c, st, ops)
    ensures url in Run(c, st, ops).items && Run(c, st, ops).items[url] == st.items[url]
  {
    RunKeeps(c, st, ops);
    RunCounts(c, st, ops);
    assert multiset(HandedOut(c, st, ops))[url] == 0;
  }

  /** Marking the URL that `next` just returned settles it, or puts it back in the queue, exactly
      when normalize_url leaves that URL as it is; otherwise it stays pending. */
  lemma MarkingSettles(c: Crawler, st: State, code: int, redirects: int, error: string, failCode: Option<int>)
    requires Inv(c, st) && HasNext(st)
    ensures var u := st.order[0];
            var visited := MarkVisited(c, Next(st), u, code, redirects);
            var failed := MarkFailed(c, Next(st), u, error, failCode);
            && (visited.items[u].status == Visited <==> c.normalize(u) == u)
            && (visited.items[u].status == Pending <==> c.normalize(u) != u)
            && (failed.items[u].status == Pending <==> c.normalize(u) != u)
  {
    NextStep(c, st);
  }

  // ---------------------------------------------------------------- crawls

  /** What fetching a page gives: its links, or an error. */
  datatype Outcome = Page(links: seq<Url>, code: int, redirects: int) | Error(message: string, failCode: Option<int>)

  /** One turn of a crawl: take the next URL, report its links at its own depth, mark it. */
  function Turn(c: Crawler, fetch: (Url, nat) -> Outcome, st: State): State
    requires HasNext(st)
  {
    var url := st.order[0];
    var taken := Next(st);
    var item := taken.items[url];
    match fetch(url, item.attempts)
    case Page(links, code, redirects) =>
      MarkVisited(c, AddDiscovered(c, taken, links, item.depth, url), url, code, redirects)
    case Error(message, failCode) =>
      MarkFailed(c, taken, url, message, failCode)
  }

  /** The calls of one turn, as a run. */
  function TurnOps(c: Crawler, fetch: (Url, nat) -> Outcome, st: State): seq<Op>
    requires HasNext(st)
  {
    var url := st.order[0];
    var item := Next(st).items[url];
    match fetch(url, item.attempts)
    case Page(links, code, redirects) =>
      [OpNext, OpAddDiscovered(links, item.depth, url), OpMarkVisited(url, code, redirects)]
    case Error(message, failCode) => [OpNext, OpMarkFailed(url, message, failCode)]
  }

  lemma TurnIsRun(c: Crawler, fetch: (Url, nat) -> Outcome, st: State)
    requires HasNext(st)
    ensures Turn(c, fetch, st) == Run(c, st, TurnOps(c, fetch, st))
  {
    var ops := TurnOps(c, fetch, st);
    var st1 := Apply(c, st, ops[0]);
    assert Run(c, st, ops) == Run(c, st1, ops[1..]);
    var st2 := Apply(c, st1, ops[1..][0]);
    assert Run(c, st1, ops[1..]) == Run(c, st2, ops[1..][1..]);
    if |ops| == 3 {
      assert ops[1..][1..] == [ops[2]];
      assert Run(c, st2, [ops[2]]) == Run(c, Apply(c, st2, ops[2]), []);
    } else {
      assert ops[1..][1..] == [];
    }
  }

  /** The attempts the frontier can still hand out. */
  ghost function Budget(c: Crawler, st: State): int {
    PageLimit(c) * AttemptLimit(c) - AllAttempts(st.items)
  }

  lemma TurnFacts(c: Crawler, fetch: (Url, nat) -> Outcome, st: State)
    requires Inv(c, st) && HasNext(st)
    ensures Inv(c, Turn(c, fetch, st)) && Extends(st, Turn(c, fetch, st))
    ensures 0 <= Budget(c, Turn(c, fetch, st)) < Budget(c, st)
  {
    var ops := TurnOps(c, fetch, st);
    TurnIsRun(c, fetch, st);
    RunKeeps(c, st, ops);
    RunCounts(c, st, ops);
    assert HandedOut(c, st, ops) == [st.order[0]] + HandedOut(c, Next(st), ops[1..]);
    var end := Turn(c, fetch, st);
    AllAttemptsBound(end.items, AttemptLimit(c));
    TimesIsProduct(|end.items|, AttemptLimit(c));
    MultiplyMonotone(|end.items|, PageLimit(c), AttemptLimit(c));
  }

  /** Turn after turn until `next` returns nothing: every crawl ends, whatever the pages answer. */
  ghost function Crawl(c: Crawler, fetch: (Url, nat) -> Outcome, st: State): State
    requires Inv(c, st)
    decreases Budget(c, st)
  {
    if !HasNext(st) then st
    else
      TurnFacts(c, fetch, st);
      Crawl(c, fetch, Turn(c, fetch, st))
  }

  lemma {:induction false} CrawlFacts(c: Crawler, fetch: (Url, nat) -> Outcome, st: State)
    requires Inv(c, st)
    ensures Inv(c, Crawl(c, fetch, st)) && Extends(st, Crawl(c, fetch, st))
    ensures Crawl(c, fetch, st).order == []
    decreases Budget(c, st)
  {
    NextStep(c, st);
    if HasNext(st) {
      TurnFacts(c, fetch, st);
      CrawlFacts(c, fetch, Turn(c, fetch, st));
    }
  }

  /** How a URL's status and attempts record what its fetches answered so far. */
  ghost predicate Recorded(fetch: (Url, nat) -> Outcome, url: Url, item: Item) {
    && item.status != Pending
    && (item.status == Visited ==> item.attempts >= 1 && fetch(url, item.attempts).Page?)
    && (item.status == Failed ==> item.attempts >= 1)
    && (forall a :: 1 <= a < item.attempts ==> fetch(url, a).Error?)
    && (item.status != Visited && item.attempts >= 1 ==> fetch(url, item.attempts).Error?)
  }

  ghost predicate AllRecorded(fetch: (Url, nat) -> Outcome, st: State) {
    forall u <- st.items :: Recorded(fetch, u, st.items[u])
  }

  ghost predicate AllFixed(c: Crawler, urls: iset<Url>) {
    forall u <- urls :: c.normalize(u) == u
  }

  lemma {:induction false} AddDiscoveredOnlyAdds(c: Crawler, st: State, urls: seq<Url>, depth: int, source: Url)
    ensures var st' := AddDiscovered(c, st, urls, depth, source);
            && (forall u <- st.items :: u in st'.items && st'.items[u] == st.items[u])
            && (forall u <- st'.items :: u !in st.items ==> st'.items[u].status == Queued && st'.items[u].attempts == 0)
    decreases |urls|
  {
    if urls != [] {
      AddDiscoveredOnlyAdds(c, Enqueue(c, st, Resolve(c, source, urls[0]), depth + 1, Some(source)),
                            urls[1..], depth, source);
    }
  }

  /** A turn changes the item it takes by what the fetch answered, and adds untried ones. */
  lemma TurnShape(c: Crawler, fetch: (Url, nat) -> Outcome, st: State)
    requires HasNext(st) && c.normalize(st.order[0]) == st.order[0]
    ensures var url := st.order[0];
            var end := Turn(c, fetch, st);
            var item := st.items[url];
            && url in end.items && end.items[url].attempts == item.attempts + 1
            && end.items[url].status == (if fetch(url, item.attempts + 1).Page? then Visited
                                         else if item.attempts + 1 < c.retry then Queued else Failed)
            && forall u <- end.items :: u != url ==>
                 if u in st.items then end.items[u] == st.items[u]
                 else end.items[u].status == Queued && end.items[u].attempts == 0
  {
    var url := st.order[0];
    var taken := Next(st);
    match fetch(url, taken.items[url].attempts)
    case Page(links, code, redirects) => AddDiscoveredOnlyAdds(c, taken, links, taken.items[url].depth, url);
    case Error(message, failCode) =>
  }

  /** One more fetch, and the item's status says what it answered. */
  lemma FetchRecorded(c: Crawler, fetch: (Url, nat) -> Outcome, url: Url, item: Item, after: Item)
    requires Recorded(fetch, url, item) && item.status == Queued && after.attempts == item.attempts + 1
    requires after.status == if fetch(url, after.attempts).Page? then Visited
                             else if after.attempts < c.retry then Queued else Failed
    ensures Recorded(fetch, url, after)
  {
  }

  lemma TurnRecords(c: Crawler, fetch: (Url, nat) -> Outcome, st: State)
    requires Inv(c, st) && HasNext(st) && AllRecorded(fetch, st)
    requires c.normalize(st.order[0]) == st.order[0]
    ensures AllRecorded(fetch, Turn(c, fetch, st))
  {
    var url := st.order[0];
    var end := Turn(c, fetch, st);
    TurnShape(c, fetch, st);
    assert url in st.order && Recorded(fetch, url, st.items[url]);
    FetchRecorded(c, fetch, url, st.items[url], end.items[url]);
    forall u <- end.items
      ensures Recorded(fetch, u, end.items[u])
    {
      if u in st.items && u != url { assert Recorded(fetch, u, st.items[u]); }
    }
  }

  lemma {:induction false} CrawlRecords(c: Crawler, fetch: (Url, nat) -> Outcome, st: State)
    requires Inv(c, st) && AllRecorded(fetch, st)
    requires AllFixed(c, iset u | u in Crawl(c, fetch, st).items)
    ensures AllRecorded(fetch, Crawl(c, fetch, st))
    decreases Budget(c, st)
  {
    if HasNext(st) {
      CrawlFacts(c, fetch, st);
      TurnFacts(c, fetch, st);
      TurnRecords(c, fetch, st);
      CrawlRecords(c, fetch, Turn(c, fetch, st));
    }
  }

  /** How a crawl leaves a URL: visited if one of its first max(1, retry) fetches gives a page, and
      then fetched no more; otherwise failed after exactly max(1, retry) fetches. */
  ghost predicate Settled(c: Crawler, fetch: (Url, nat) -> Outcome, url: Url, item: Item) {
    && (item.status == Visited || item.status == Failed)
    && (item.status == Visited <==> exists a :: 1 <= a <= AttemptLimit(c) && fetch(url, a).Page?)
    && (item.status == Visited ==>
          && 1 <= item.attempts && fetch(url, item.attempts).Page?
          && forall a :: 1 <= a < item.attempts ==> fetch(url, a).Error?)
    && (item.status == Failed ==> item.attempts == AttemptLimit(c))
  }

  lemma RecordedSettled(c: Crawler, fetch: (Url, nat) -> Outcome, url: Url, item: Item)
    requires ItemOk(c, url, item) && Recorded(fetch, url, item) && item.status != Queued
    ensures Settled(c, fetch, url, item)
  {
    if item.status == Failed {
      assert item.attempts == AttemptLimit(c);
    }
  }

  /** A crawl from the constructor whose URLs normalize_url leaves as they are drains queue and
      pending: every URL it found is settled by what its fetches answered. */
  lemma FixedCrawlDrains(c: Crawler, fetch: (Url, nat) -> Outcome, seed: Url)
    requires AllFixed(c, iset u | u in Crawl(c, fetch, Start(c, seed)).items)
    ensures var end := Crawl(c, fetch, Start(c, seed));
            end.order == [] && forall u <- end.items :: Settled(c, fetch, u, end.items[u])
  {
    var end := Crawl(c, fetch, Start(c, seed));
    NothingHandedOutYet(c, seed);
    CrawlFacts(c, fetch, Start(c, seed));
    assert AllRecorded(fetch, Start(c, seed));
    CrawlRecords(c, fetch, Start(c, seed));
    forall u <- end.items
      ensures Settled(c, fetch, u, end.items[u])
    {
      assert u !in end.order;
      RecordedSettled(c, fetch, u, end.items[u]);
    }
  }

  ghost predicate PendingAt(st: State, url: Url) {
    url in st.items && st.items[url].status == Pending
  }

  ghost predicate AnyPending(st: State) {
    exists u :: PendingAt(st, u)
  }

  /** A visited or failed URL is one normalize_url leaves as it is. */
  ghost predicate ClosedFixed(c: Crawler, st: State, url: Url) {
    url in st.items && (st.items[url].status == Visited || st.items[url].status == Failed) ==> c.normalize(url) == url
  }

  /** A turn touches the URL it takes and the one it marks, and no other. */
  lemma TurnKeepsOthers(c: Crawler, fetch: (Url, nat) -> Outcome, st: State, url: Url)
    requires HasNext(st) && url in st.items && url != c.normalize(st.order[0])
    ensures var end := Turn(c, fetch, st);
            url in end.items && end.items[url] == if url == st.order[0] then Taken(st.items[url]) else st.items[url]
  {
    var head, taken := st.order[0], Next(st);
    match fetch(head, taken.items[head].attempts)
    case Page(links, code, redirects) => AddDiscoveredOnlyAdds(c, taken, links, taken.items[head].depth, head);
    case Error(message, failCode) =>
  }

  /** A pending URL stays behind, or the URL taken does when the mark misses it. */
  lemma TurnLeavesPending(c: Crawler, fetch: (Url, nat) -> Outcome, st: State)
    requires Inv(c, st) && HasNext(st) && (AnyPending(st) || c.normalize(st.order[0]) != st.order[0])
    ensures AnyPending(Turn(c, fetch, st))
  {
    var head := st.order[0];
    if c.normalize(head) != head {
      TurnKeepsOthers(c, fetch, st, head);
      assert PendingAt(Turn(c, fetch, st), head);
    } else {
      var u :| PendingAt(st, u);
      assert head in st.order;
      TurnKeepsOthers(c, fetch, st, u);
      assert PendingAt(Turn(c, fetch, st), u);
    }
  }

  lemma {:induction false} PendingLasts(c: Crawler, fetch: (Url, nat) -> Outcome, st: State)
    requires Inv(c, st) && AnyPending(st)
    ensures AnyPending(Crawl(c, fetch, st))
    decreases Budget(c, st)
  {
    if HasNext(st) {
      TurnFacts(c, fetch, st);
      TurnLeavesPending(c, fetch, st);
      PendingLasts(c, fetch, Turn(c, fetch, st));
    }
  }

  lemma TurnClosesFixed(c: Crawler, fetch: (Url, nat) -> Outcome, st: State)
    requires HasNext(st) && c.normalize(st.order[0]) == st.order[0] && forall u :: ClosedFixed(c, st, u)
    ensures forall u :: ClosedFixed(c, Turn(c, fetch, st), u)
  {
    TurnShape(c, fetch, st);
    var end := Turn(c, fetch, st);
    forall u ensures ClosedFixed(c, end, u) {
      assert ClosedFixed(c, st, u);
    }
  }

  /** A crawl that leaves nothing pending has closed only URLs that normalize_url leaves as they are. */
  lemma {:induction false} DrainedIsFixed(c: Crawler, fetch: (Url, nat) -> Outcome, st: State)
    requires Inv(c, st) && (forall u :: ClosedFixed(c, st, u)) && !AnyPending(Crawl(c, fetch, st))
    ensures forall u :: ClosedFixed(c, Crawl(c, fetch, st), u)
    decreases Budget(c, st)
  {
    if HasNext(st) {
      TurnFacts(c, fetch, st);
      if c.normalize(st.order[0]) == st.order[0] {
        TurnClosesFixed(c, fetch, st);
        DrainedIsFixed(c, fetch, Turn(c, fetch, st));
      } else {
        TurnLeavesPending(c, fetch, st);
        PendingLasts(c, fetch, Turn(c, fetch, st));
      }
    }
  }

  /** A crawl that answers every hand-out always empties the queue. It leaves nothing pending, and every URL
      settled by what its fetches answered, if and only if normalize_url leaves each URL it found as it is. */
  lemma CrawlDrains(c: Crawler, fetch: (Url, nat) -> Outcome, seed: Url)
    ensures
      var end := Crawl(c, fetch, Start(c, seed));
      var fixed := AllFixed(c, iset u | u in end.items);
      && end.order == []
      && (!AnyPending(end) <==> fixed)
      && ((forall u <- end.items :: Settled(c, fetch, u, end.items[u])) <==> fixed)
  {
    var start := Start(c, seed);
    var end := Crawl(c, fetch, start);
    CrawlFacts(c, fetch, start);
    if AllFixed(c, iset u | u in end.items) {
      FixedCrawlDrains(c, fetch, seed);
      assert forall u <- end.items :: Settled(c, fetch, u, end.items[u]) && !PendingAt(end, u);
    }
    if (forall u <- end.items :: Settled(c, fetch, u, end.items[u])) {
      assert forall u :: !PendingAt(end, u);
    }
    if !AnyPending(end) {
      assert forall u :: ClosedFixed(c, start, u);
      DrainedIsFixed(c, fetch, start);
      forall u <- end.items ensures c.normalize(u) == u {
        assert u !in end.order && !PendingAt(end, u) && ClosedFixed(c, end, u);
      }
    }
  }

  // ---------------------------------------------------------------- what a caller can check

  /** Normalizing what this link resolves to a second time changes nothing. */
  predicate LinkSettles(c: Crawler, source: Url, link: Url) {
    var url := c.normalize(Resolve(c, source, link));
    c.normalize(url) == url
  }

  predicate PageSettles(c: Crawler, source: Url, outcome: Outcome) {
    outcome.Page? ==> forall link <- outcome.links :: LinkSettles(c, source, link)
  }

  ghost predicate KeyFixed(c: Crawler, st: State, url: Url) {
    url in st.items ==> c.normalize(url) == url
  }

  lemma {:induction false} DiscoveredFixed(c: Crawler, st: State, urls: seq<Url>, depth: int, source: Url)
    requires (forall u :: KeyFixed(c, st, u)) && forall link <- urls :: LinkSettles(c, source, link)
    ensures forall u :: KeyFixed(c, AddDiscovered(c, st, urls, depth, source), u)
    decreases |urls|
  {
    if urls != [] {
      assert LinkSettles(c, source, urls[0]);
      var next := Enqueue(c, st, Resolve(c, source, urls[0]), depth + 1, Some(source));
      forall u ensures KeyFixed(c, next, u) { assert KeyFixed(c, st, u); }
      DiscoveredFixed(c, next, urls[1..], depth, source);
    }
  }

  lemma TurnFixed(c: Crawler, fetch: (Url, nat) -> Outcome, st: State)
    requires HasNext(st) && forall u :: KeyFixed(c, st, u)
    requires forall url, attempt :: PageSettles(c, url, fetch(url, attempt))
    ensures forall u :: KeyFixed(c, Turn(c, fetch, st), u)
  {
    var head, taken := st.order[0], Next(st);
    forall u ensures KeyFixed(c, taken, u) { assert KeyFixed(c, st, u); }
    assert PageSettles(c, head, fetch(head, taken.items[head].attempts));
    match fetch(head, taken.items[head].attempts)
    case Page(links, code, redirects) =>
      var found := AddDiscovered(c, taken, links, taken.items[head].depth, head);
      DiscoveredFixed(c, taken, links, taken.items[head].depth, head);
      forall u ensures KeyFixed(c, Turn(c, fetch, st), u) { assert KeyFixed(c, found, u); }
    case Error(message, failCode) =>
      forall u ensures KeyFixed(c, Turn(c, fetch, st), u) { assert KeyFixed(c, taken, u); }
  }

  lemma {:induction false} CrawlFixed(c: Crawler, fetch: (Url, nat) -> Outcome, st: State)
    requires Inv(c, st) && forall u :: KeyFixed(c, st, u)
    requires forall url, attempt :: PageSettles(c, url, fetch(url, attempt))
    ensures forall u :: KeyFixed(c, Crawl(c, fetch, st), u)
    decreases Budget(c, st)
  {
    if HasNext(st) {
      TurnFacts(c, fetch, st);
      TurnFixed(c, fetch, st);
      CrawlFixed(c, fetch, Turn(c, fetch, st));
    }
  }

  /** The crawl drains if the seed, normalized twice, and every resolved link, normalized once, are texts that
      normalize_url leaves as they are. */
  lemma SettledLinksDrain(c: Crawler, fetch: (Url, nat) -> Outcome, seed: Url)
    requires c.normalize(c.normalize(c.normalize(seed))) == c.normalize(c.normalize(seed))
    requires forall url, attempt :: PageSettles(c, url, fetch(url, attempt))
    ensures
      var end := Crawl(c, fetch, Start(c, seed));
      end.order == [] && !AnyPending(end) && forall u <- end.items :: Settled(c, fetch, u, end.items[u])
  {
    CrawlDrains(c, fetch, seed);
    assert forall u :: KeyFixed(c, Start(c, seed), u);
    CrawlFixed(c, fetch, Start(c, seed));
    var end := Crawl(c, fetch, Start(c, seed));
    assert forall u <- end.items :: KeyFixed(c, end, u);
  }

  /** With normalize_url itself: the crawl drains if the seed's and every resolved link's text is one on which it
      is idempotent, as its parts tell. */
  lemma StableLinksDrain(c: Crawler, fetch: (Url, nat) -> Outcome, seed: Url, bad: string -> bool)
    requires forall u :: c.normalize(u) == Url(NormalizeUrl(u.text, bad))
    requires IdempotentOn(seed.text, bad)
    requires forall url, attempt, link ::
      fetch(url, attempt).Page? && link in fetch(url, attempt).links ==> IdempotentOn(Resolve(c, url, link).text, bad)
    ensures
      var end := Crawl(c, fetch, Start(c, seed));
      end.order == [] && !AnyPending(end) && forall u <- end.items :: Settled(c, fetch, u, end.items[u])
  {
    NormalizeIsIdempotentExactly(seed.text, bad);
    forall url: Url, attempt: nat
      ensures PageSettles(c, url, fetch(url, attempt))
    {
      if fetch(url, attempt).Page? {
        forall link <- fetch(url, attempt).links ensures LinkSettles(c, url, link) {
          NormalizeIsIdempotentExactly(Resolve(c, url, link).text, bad);
        }
      }
    }
    SettledLinksDrain(c, fetch, seed);
  }
}
