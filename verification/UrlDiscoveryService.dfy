/** The URL discovery service: four dicts that its methods move items between. */
module UrlDiscoveryService {
  import opened Collections
  import opened Urls
  import opened UrlFrontier

  /** The four dicts. */
  datatype Dicts = Dicts(queue: Dict<Url, Item>, pending: map<Url, Item>, visited: map<Url, Item>,
                         failed: map<Url, Item>)

  /** Whether a dict holds a URL exactly if it has this status, and then its row. */
  ghost predicate Holds(dict: map<Url, Item>, st: State, status: Status, u: Url) {
    if u in st.items && st.items[u].status == status then u in dict && dict[u] == st.items[u] else u !in dict
  }

  ghost predicate ShelvedAt(d: Dicts, st: State, u: Url) {
    && Holds(d.queue.items, st, Queued, u) && Holds(d.pending, st, Pending, u)
    && Holds(d.visited, st, Visited, u) && Holds(d.failed, st, Failed, u)
  }

  /** The dicts are the table sorted by status, the queue in the table's order. */
  ghost predicate Shelved(d: Dicts, st: State) {
    d.queue.keys == st.order && forall u :: ShelvedAt(d, st, u)
  }

  lemma EnqueueMoves(d: Dicts, st: State, u: Url, item: Item)
    requires Shelved(d, st) && u !in st.items && item.status == Queued
    ensures Shelved(d.(queue := d.queue.Put(u, item)), State(st.order + [u], st.items[u := item]))
  {
    var after := State(st.order + [u], st.items[u := item]);
    assert ShelvedAt(d, st, u);
    forall v
      ensures ShelvedAt(d.(queue := d.queue.Put(u, item)), after, v)
    {
      assert ShelvedAt(d, st, v);
    }
  }

  lemma NextMoves(d: Dicts, st: State)
    requires Shelved(d, st) && HasNext(st) && st.items[st.order[0]].status == Queued
    ensures var u := st.order[0];
            && u in d.queue.items
            && Shelved(d.(queue := d.queue.Remove(u), pending := d.pending[u := Taken(d.queue.items[u])]), Next(st))
  {
    var u := st.order[0];
    assert ShelvedAt(d, st, u);
    var d' := d.(queue := d.queue.Remove(u), pending := d.pending[u := Taken(d.queue.items[u])]);
    forall v
      ensures ShelvedAt(d', Next(st), v)
    {
      assert ShelvedAt(d, st, v);
    }
  }

  /** What is left once a URL is taken out of the pending items, or else out of the queue. */
  function Popped(d: Dicts, u: Url): Dicts {
    if u in d.pending then d.(pending := d.pending - {u})
    else if u in d.queue.items then d.(queue := d.queue.Remove(u))
    else d
  }

  function Filed(d: Dicts, u: Url, item: Item): Dicts
    requires item.status != Pending
  {
    match item.status
    case Queued => d.(queue := d.queue.Put(u, item))
    case Visited => d.(visited := d.visited[u := item])
    case Failed => d.(failed := d.failed[u := item])
  }

  lemma MarkMoves(d: Dicts, st: State, u: Url, item: Item)
    requires Shelved(d, st) && Open(st, u) && item.status != Pending
    requires forall v <- st.order :: v in st.items && st.items[v].status == Queued
    ensures Shelved(Filed(Popped(d, u), u, item),
                    State(Without(st.order, u) + (if item.status == Queued then [u] else []), st.items[u := item]))
  {
    var after := State(Without(st.order, u) + (if item.status == Queued then [u] else []), st.items[u := item]);
    WithoutFacts(st.order, u);
    assert ShelvedAt(d, st, u);
    var d' := Filed(Popped(d, u), u, item);
    forall v
      ensures ShelvedAt(d', after, v)
    {
      assert ShelvedAt(d, st, v);
    }
  }

  lemma {:induction false} PartitionSize<T>(q: set<T>, p: set<T>, v: set<T>, f: set<T>, all: set<T>)
    requires q !! p !! v !! f && all == q + p + v + f
    ensures |all| == |q| + |p| + |v| + |f|
  {
    assert |q + p + v + f| == |q + p + v| + |f| == |q + p| + |v| + |f|;
  }

  lemma MapSize<K, V>(m: map<K, V>)
    ensures |m| == |m.Keys|
  {
  }

  lemma ShelvesCover(d: Dicts, st: State)
    requires Shelved(d, st)
    ensures d.queue.items.Keys !! d.pending.Keys !! d.visited.Keys !! d.failed.Keys
    ensures st.items.Keys == d.queue.items.Keys + d.pending.Keys + d.visited.Keys + d.failed.Keys
  {
    var q, p, v, f := d.queue.items.Keys, d.pending.Keys, d.visited.Keys, d.failed.Keys;
    forall u: Url
      ensures u in q ==> u !in p && u !in v && u !in f
      ensures u in p ==> u !in v && u !in f
      ensures u in v ==> u !in f
      ensures u in st.items <==> u in q || u in p || u in v || u in f
    {
      assert ShelvedAt(d, st, u);
    }
  }

  lemma IsTracked(d: Dicts, st: State, u: Url)
    requires Shelved(d, st)
    ensures u in st.items <==> u in d.queue.items || u in d.pending || u in d.visited || u in d.failed
  {
    assert ShelvedAt(d, st, u);
  }

  lemma ShelvesSize(d: Dicts, st: State)
    requires Shelved(d, st)
    ensures |d.queue.items| + |d.pending| + |d.visited| + |d.failed| == |st.items|
  {
    ShelvesCover(d, st);
    PartitionSize(d.queue.items.Keys, d.pending.Keys, d.visited.Keys, d.failed.Keys, st.items.Keys);
    MapSize(d.queue.items);
    MapSize(d.pending);
    MapSize(d.visited);
    MapSize(d.failed);
    MapSize(st.items);
  }

  class URLDiscoveryService {
    const crawler: Crawler
    var queue: Dict<Url, Item>
    var pending: map<Url, Item>
    var visited: map<Url, Item>
    var failed: map<Url, Item>
    /** The table the four dicts stand for. */
    ghost var state: State

    ghost function AllDicts(): Dicts
      reads this
    {
      Dicts(queue, pending, visited, failed)
    }

    ghost predicate Valid()
      reads this
    {
      Shelved(AllDicts(), state) && Inv(crawler, state)
    }

    /** The four dicts partition the tracked URLs, and the page limit holds. */
    lemma DictsPartition()
      requires Valid()
      ensures queue.items.Keys !! pending.Keys !! visited.Keys !! failed.Keys
      ensures state.items.Keys == queue.items.Keys + pending.Keys + visited.Keys + failed.Keys
      ensures |queue.items| + |pending| + |visited| + |failed| == |state.items| <= PageLimit(crawler)
    {
      ShelvesCover(AllDicts(), state);
      ShelvesSize(AllDicts(), state);
    }

    /** Whatever dict an item is in, it sits under its own URL with that dict's status. */
    lemma StatusesMatch(u: Url)
      requires Valid()
      ensures u in queue.items ==> queue.items[u].url == u && queue.items[u].status == Queued
      ensures u in pending ==> pending[u].url == u && pending[u].status == Pending
      ensures u in visited ==> visited[u].url == u && visited[u].status == Visited
      ensures u in failed ==> failed[u].url == u && failed[u].status == Failed
    {
      assert ShelvedAt(AllDicts(), state, u);
    }

    constructor (crawler: Crawler, seed: Url)
      ensures Valid() && this.crawler == crawler && state == Start(crawler, seed)
    {
      this.crawler := crawler;
      queue := Dict([], map[]);
      pending, visited, failed := map[], map[], map[];
      state := EMPTY;
      new;
      var seedUrl := crawler.normalize(seed);
      if !Blank(seedUrl) {
        var _ := Enqueue(seedUrl, 0, None);
      }
    }

    method IsUrlTracked(url: Url) returns (tracked: bool)
      requires Valid()
      ensures tracked <==> url in state.items
    {
      IsTracked(AllDicts(), state, url);
      tracked := url in queue.items || url in pending || url in visited || url in failed;
    }

    method HasAllowedDomain(url: Url) returns (allowed: bool)
      ensures allowed == DomainAllowed(crawler, url)
    {
      if crawler.allowedDomains == [] { return true; }
      match crawler.netloc(url)
      case None => return false;
      case Some(host) =>
        for i := 0 to |crawler.allowedDomains|
          invariant forall j :: 0 <= j < i ==>
            host != crawler.allowedDomains[j] && !EndsWith(host, "." + crawler.allowedDomains[j])
        {
          var domain := crawler.allowedDomains[i];
          if host == domain || EndsWith(host, "." + domain) {
            assert domain in crawler.allowedDomains;
            return true;
          }
        }
        return false;
    }

    method Enqueue(url: Url, depth: int, from: Option<Url>) returns (added: bool)
      requires Valid()
      modifies this
      ensures Valid()
      ensures added == Accepts(crawler, old(state), url, depth)
      ensures state == UrlFrontier.Enqueue(crawler, old(state), url, depth, from)
    {
      var normalized := crawler.normalize(url);
      if Blank(normalized) || depth > crawler.maxDepth { return false; }
      var tracked := IsUrlTracked(normalized);
      if tracked { return false; }
      ShelvesSize(AllDicts(), state);
      var total := |queue.items| + |pending| + |visited| + |failed|;
      if total >= crawler.maxPages { return false; }
      var allowed := HasAllowedDomain(normalized);
      if !allowed { return false; }
      var item := Item(normalized, depth, from, Queued, 0, 0, None, None);
      ghost var after := UrlFrontier.Enqueue(crawler, state, url, depth, from);
      assert Inv(crawler, after) by { EnqueueStep(crawler, state, url, depth, from); }
      EnqueueMoves(AllDicts(), state, normalized, item);
      queue := queue.Put(normalized, item);
      state := after;
      return true;
    }

    method AddDiscoveredUrls(urls: seq<Url>, currentDepth: int, source: Url) returns (added: nat)
      requires Valid()
      modifies this
      ensures Valid()
      ensures state == AddDiscovered(crawler, old(state), urls, currentDepth, source)
      ensures added == |state.items| - |old(state).items|
    {
      added := 0;
      for i := 0 to |urls|
        invariant Valid()
        invariant AddDiscovered(crawler, state, urls[i..], currentDepth, source) ==
                  AddDiscovered(crawler, old(state), urls, currentDepth, source)
        invariant added == |state.items| - |old(state).items|
      {
        assert urls[i..][0] == urls[i] && urls[i..][1..] == urls[i + 1..];
        var joined := crawler.join(source, urls[i]);
        var resolved := if joined.Some? then joined.value else urls[i];
        var accepted := Enqueue(resolved, currentDepth + 1, Some(source));
        if accepted { added := added + 1; }
      }
    }

    method Next() returns (item: Option<Item>)
      requires Valid()
      modifies this
      ensures Valid()
      ensures state == UrlFrontier.Next(old(state))
      ensures HasNext(old(state)) ==>
        var found := old(state).items[old(state).order[0]];
        item == Some(found.(status := Pending, attempts := found.attempts + 1))
      ensures !HasNext(old(state)) ==> item == None
    {
      NextStep(crawler, state);
      if queue.keys == [] { return None; }
      var url := queue.keys[0];
      assert url in queue.keys && ShelvedAt(AllDicts(), state, url);
      var found := queue.items[url];
      var taken := found.(status := Pending, attempts := found.attempts + 1);
      ghost var after := UrlFrontier.Next(state);
      NextMoves(AllDicts(), state);
      queue := queue.Remove(url);
      pending := pending[url := taken];
      state := after;
      return Some(taken);
    }

    /** Takes a URL out of the pending items, or else out of the queue. */
    method TakeOut(url: Url) returns (item: Option<Item>)
      modifies `queue, `pending
      ensures item == if url in old(pending) then Some(old(pending)[url])
                      else if url in old(queue).items then Some(old(queue).items[url]) else None
      ensures AllDicts() == Popped(old(AllDicts()), url)
    {
      if url in pending {
        item := Some(pending[url]);
        pending := pending - {url};
      } else if url in queue.items {
        item := Some(queue.items[url]);
        queue := queue.Remove(url);
      } else {
        item := None;
      }
    }

    method MarkVisited(url: Url, statusCode: int, redirects: int) returns (found: bool)
      requires Valid()
      modifies this
      ensures Valid()
      ensures found == Open(old(state), crawler.normalize(url))
      ensures state == UrlFrontier.MarkVisited(crawler, old(state), url, statusCode, redirects)
    {
      var normalized := crawler.normalize(url);
      ghost var after := UrlFrontier.MarkVisited(crawler, state, url, statusCode, redirects);
      assert Inv(crawler, after) by { MarkVisitedStep(crawler, state, url, statusCode, redirects); }
      assert ShelvedAt(AllDicts(), state, normalized);
      if Open(state, normalized) {
        MarkMoves(AllDicts(), state, normalized, after.items[normalized]);
      }
      var item := TakeOut(normalized);
      if item == None { return false; }
      visited := visited[normalized :=
        item.value.(status := Visited, statusCode := Some(statusCode), redirectCount := redirects)];
      state := after;
      return true;
    }

    method MarkFailed(url: Url, error: string, statusCode: Option<int>) returns (found: bool)
      requires Valid()
      modifies this
      ensures Valid()
      ensures found == Open(old(state), crawler.normalize(url))
      ensures state == UrlFrontier.MarkFailed(crawler, old(state), url, error, statusCode)
    {
      var normalized := crawler.normalize(url);
      ghost var after := UrlFrontier.MarkFailed(crawler, state, url, error, statusCode);
      assert Inv(crawler, after) by { MarkFailedStep(crawler, state, url, error, statusCode); }
      assert ShelvedAt(AllDicts(), state, normalized);
      if Open(state, normalized) {
        MarkMoves(AllDicts(), state, normalized, after.items[normalized]);
      }
      var item := TakeOut(normalized);
      if item == None { return false; }
      var marked := item.value.(error := Some(error));
      if statusCode.Some? && statusCode.value != 0 {
        marked := marked.(statusCode := statusCode);
      }
      if marked.attempts < crawler.retry {
        marked := marked.(status := Queued);
        queue := queue.Put(normalized, marked);
      } else {
        marked := marked.(status := Failed);
        failed := failed[normalized := marked];
      }
      assert marked == after.items[normalized];
      state := after;
      return true;
    }
  }
}
