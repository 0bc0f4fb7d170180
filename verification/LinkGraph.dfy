/** The link graph: pages with counters, link edges, and the chains redirects form. */
module LinkGraph {
  import opened Collections
  import opened Strings
  import opened Urls

  datatype Page = Page(url: Url, statusCode: int, redirectTarget: Option<Url>, isExternal: bool,
                       inbound: nat, outbound: nat)

  datatype Edge = Edge(source: Url, target: Url, isInternal: bool, isBroken: bool)

  datatype Graph = Graph(pages: Dict<Url, Page>, edges: seq<Edge>)

  /** The site: its base URL, and the URL library as functions. */
  datatype Site = Site(base: Url, normalize: Url -> Url, isInternal: Url -> bool)

  function NormalizedTarget(site: Site, redirect: Option<Url>): Option<Url> {
    match redirect
    case None => None
    case Some(url) => if Blank(url) then None else Some(site.normalize(url))
  }

  function PageAdded(site: Site, g: Graph, url: Url, statusCode: int, redirect: Option<Url>, external: Option<bool>)
    : Graph
  {
    var key := site.normalize(url);
    var isExternal := match external case None => !site.isInternal(key) case Some(e) => e;
    var target := NormalizedTarget(site, redirect);
    var page := if key in g.pages.items
                then g.pages.items[key].(statusCode := statusCode, redirectTarget := target, isExternal := isExternal)
                else Page(key, statusCode, target, isExternal, 0, 0);
    g.(pages := g.pages.Put(key, page))
  }

  /** Adding a link first re-adds its source with the defaults, and its target if it has no page. */
  function WithEndpoints(site: Site, g: Graph, source: Url, target: Url): Graph {
    var g1 := PageAdded(site, g, source, 200, None, None);
    if target in g1.pages.items then g1 else PageAdded(site, g1, target, 200, None, None)
  }

  /** The page a link counts for as inbound: the target's, or the one just added for it. */
  function TargetKey(site: Site, g: Graph, source: Url, target: Url): Url {
    if target in PageAdded(site, g, source, 200, None, None).pages.items then target else site.normalize(target)
  }

  function Bump(g: Graph, key: Url, inbound: nat, outbound: nat): Graph {
    if key !in g.pages.items then g
    else
      var page := g.pages.items[key];
      g.(pages := g.pages.Put(key, page.(inbound := page.inbound + inbound, outbound := page.outbound + outbound)))
  }

  function NewEdge(site: Site, g: Graph, source: Url, target: Url): Edge {
    var g2 := WithEndpoints(site, g, source, target);
    var key := TargetKey(site, g, source, target);
    Edge(source, target, site.isInternal(target), key in g2.pages.items && g2.pages.items[key].statusCode >= 400)
  }

  function LinkAdded(site: Site, g: Graph, sourceUrl: Url, targetUrl: Url): Graph {
    var source, target := site.normalize(sourceUrl), site.normalize(targetUrl);
    var g2 := WithEndpoints(site, g, source, target);
    var linked := g2.(edges := g2.edges + [NewEdge(site, g, source, target)]);
    Bump(Bump(linked, source, 0, 1), TargetKey(site, g, source, target), 1, 0)
  }

  /** What becomes of a page that is added: a status of its own, a redirect in normal form if there is one, external
      as said or else by its URL; its counters stay, and start at zero; no other page and no edge changes. */
  lemma PageIsRecorded(site: Site, g: Graph, url: Url, statusCode: int, redirect: Option<Url>, external: Option<bool>)
    ensures
      var key, g' := site.normalize(url), PageAdded(site, g, url, statusCode, redirect, external);
      && key in g'.pages.items && g'.edges == g.edges
      && (forall u :: u != key ==> (u in g'.pages.items <==> u in g.pages.items))
      && (forall u <- g.pages.items :: u != key ==> g'.pages.items[u] == g.pages.items[u])
      && var page := g'.pages.items[key];
         && page.statusCode == statusCode
         && (redirect.Some? && redirect.value.text != "" ==>
              page.redirectTarget == Some(site.normalize(redirect.value)))
         && (redirect == None || redirect.value.text == "" ==> page.redirectTarget == None)
         && (external.Some? ==> page.isExternal == external.value)
         && (external.None? ==> page.isExternal == !site.isInternal(key))
         && (key in g.pages.items ==> page.url == g.pages.items[key].url && page.inbound == g.pages.items[key].inbound
                                      && page.outbound == g.pages.items[key].outbound)
         && (key !in g.pages.items ==> page.url == key && page.inbound == 0 && page.outbound == 0)
  {
  }

  /** The edge of a new link leads from the normalized source to the normalized target. It is broken if and only if
      its target had a page of status 400 or more before, and kept it. */
  lemma EdgeIsBrokenExactly(site: Site, g: Graph, sourceUrl: Url, targetUrl: Url)
    ensures
      var source, target := site.normalize(sourceUrl), site.normalize(targetUrl);
      var edges := LinkAdded(site, g, sourceUrl, targetUrl).edges;
      && |edges| == |g.edges| + 1 && edges[..|g.edges|] == g.edges
      && var e := edges[|g.edges|];
         && e.source == source && e.target == target && e.isInternal == site.isInternal(target)
         && (e.isBroken <==>
              target in g.pages.items && target != site.normalize(source) && g.pages.items[target].statusCode >= 400)
  {
  }

  // ---------------------------------------------------------------- counters

  function To(edges: seq<Edge>, url: Url): nat {
    if edges == [] then 0 else To(edges[..|edges| - 1], url) + (if edges[|edges| - 1].target == url then 1 else 0)
  }

  function From(edges: seq<Edge>, url: Url): nat {
    if edges == [] then 0 else From(edges[..|edges| - 1], url) + (if edges[|edges| - 1].source == url then 1 else 0)
  }

  ghost predicate PageOk(g: Graph, u: Url) {
    u in g.pages.items ==>
      var page := g.pages.items[u];
      page.url == u && page.inbound == To(g.edges, u) && page.outbound == From(g.edges, u)
  }

  ghost predicate EdgeOk(site: Site, g: Graph, e: Edge) {
    e.source in g.pages.items && e.target in g.pages.items && e.isInternal == site.isInternal(e.target)
  }

  /** Both ends of every edge have a page, and every page's counters count its edges. */
  ghost predicate Inv(site: Site, g: Graph) {
    && WellFormed(g.pages)
    && (forall u :: PageOk(g, u))
    && (forall e <- g.edges :: EdgeOk(site, g, e))
  }

  lemma PutWellFormed<V>(d: Dict<Url, V>, k: Url, v: V)
    requires WellFormed(d)
    ensures WellFormed(d.Put(k, v))
  {
  }

  lemma {:induction false} NoEdges(site: Site, g: Graph, edges: seq<Edge>, u: Url)
    requires u !in g.pages.items && forall e <- edges :: EdgeOk(site, g, e)
    ensures To(edges, u) == 0 && From(edges, u) == 0
  {
    if edges != [] {
      var init := edges[..|edges| - 1];
      assert edges == init + [edges[|edges| - 1]];
      assert EdgeOk(site, g, edges[|edges| - 1]);
      NoEdges(site, g, init, u);
    }
  }

  lemma AddPageKeeps(site: Site, g: Graph, url: Url, statusCode: int, redirect: Option<Url>, external: Option<bool>)
    requires Inv(site, g)
    ensures var g' := PageAdded(site, g, url, statusCode, redirect, external);
            && Inv(site, g') && g'.edges == g.edges
            && g'.pages.items.Keys == g.pages.items.Keys + {site.normalize(url)}
  {
    var key := site.normalize(url);
    var g' := PageAdded(site, g, url, statusCode, redirect, external);
    PutWellFormed(g.pages, key, g'.pages.items[key]);
    forall u
      ensures PageOk(g', u)
    {
      assert PageOk(g, u);
      if u == key && key !in g.pages.items { NoEdges(site, g, g.edges, u); }
    }
    forall e <- g'.edges
      ensures EdgeOk(site, g', e)
    {
      assert EdgeOk(site, g, e);
    }
  }

  lemma EdgeCounts(edges: seq<Edge>, e: Edge, u: Url)
    ensures To(edges + [e], u) == To(edges, u) + if e.target == u then 1 else 0
    ensures From(edges + [e], u) == From(edges, u) + if e.source == u then 1 else 0
  {
    assert (edges + [e])[..|edges|] == edges;
  }

  /** Adding a link keeps the counters right if and only if both its normalized ends have a page
      afterwards: one they had, or the one the call adds under the end normalized once more. */
  lemma AddLinkKeepsExactly(site: Site, g: Graph, sourceUrl: Url, targetUrl: Url)
    requires Inv(site, g)
    ensures var source, target := site.normalize(sourceUrl), site.normalize(targetUrl);
            var known := g.pages.items.Keys + {site.normalize(source), TargetKey(site, g, source, target)};
            Inv(site, LinkAdded(site, g, sourceUrl, targetUrl)) <==> source in known && target in known
  {
    var source, target := site.normalize(sourceUrl), site.normalize(targetUrl);
    var g1 := PageAdded(site, g, source, 200, None, None);
    var g2 := WithEndpoints(site, g, source, target);
    var key := TargetKey(site, g, source, target);
    AddPageKeeps(site, g, source, 200, None, None);
    if target !in g1.pages.items { AddPageKeeps(site, g1, target, 200, None, None); }
    var e := NewEdge(site, g, source, target);
    var linked := g2.(edges := g2.edges + [e]);
    var g' := LinkAdded(site, g, sourceUrl, targetUrl);
    assert g'.edges == g2.edges + [e] && e in g'.edges;
    assert g'.pages.items.Keys == g2.pages.items.Keys;
    if source in g2.pages.items && target in g2.pages.items {
      LinkedOk(site, g2, e, source, target);
      assert key == target;
    } else {
      assert !EdgeOk(site, g', e);
    }
  }

  lemma LinkedOk(site: Site, g: Graph, e: Edge, source: Url, target: Url)
    requires Inv(site, g) && source in g.pages.items && target in g.pages.items
    requires e.source == source && e.target == target && e.isInternal == site.isInternal(target)
    ensures Inv(site, Bump(Bump(g.(edges := g.edges + [e]), source, 0, 1), target, 1, 0))
  {
    var linked := g.(edges := g.edges + [e]);
    var g1 := Bump(linked, source, 0, 1);
    var g' := Bump(g1, target, 1, 0);
    PutWellFormed(g.pages, source, g1.pages.items[source]);
    PutWellFormed(g1.pages, target, g'.pages.items[target]);
    forall u
      ensures PageOk(g', u)
    {
      assert PageOk(g, u);
      EdgeCounts(g.edges, e, u);
    }
    forall f <- g'.edges
      ensures EdgeOk(site, g', f)
    {
      if f != e { assert f in g.edges && EdgeOk(site, g, f); }
    }
  }

  /** The pages a new link re-adds with the defaults: its source's, and its target's if the target has none
      under its own text. Both keys are texts normalized twice. */
  function ReAdded(site: Site, g: Graph, sourceUrl: Url, targetUrl: Url): set<Url> {
    var source, target := site.normalize(site.normalize(sourceUrl)), site.normalize(targetUrl);
    {source} + if target in g.pages.items || target == source then {} else {site.normalize(target)}
  }

  /** Of the pages there were, exactly those re-added are back at status 200, without a redirect and external as
      their URL says; the others are as they were. */
  lemma AddLinkResets(site: Site, g: Graph, sourceUrl: Url, targetUrl: Url, u: Url)
    requires u in g.pages.items
    ensures
      var g' := LinkAdded(site, g, sourceUrl, targetUrl);
      && u in g'.pages.items
      && var was, now := g.pages.items[u], g'.pages.items[u];
         if u in ReAdded(site, g, sourceUrl, targetUrl)
         then now.statusCode == 200 && now.redirectTarget == None && now.isExternal == !site.isInternal(u)
         else now.statusCode == was.statusCode && now.redirectTarget == was.redirectTarget
              && now.isExternal == was.isExternal
  {
    var source, target := site.normalize(sourceUrl), site.normalize(targetUrl);
    var g1 := PageAdded(site, g, source, 200, None, None);
    assert target in g1.pages.items <==> target in g.pages.items || target == site.normalize(source);
    var g2 := WithEndpoints(site, g, source, target);
    var bumped := Bump(g2.(edges := g2.edges + [NewEdge(site, g, source, target)]), source, 0, 1);
    BumpCountsOnly(g2.(edges := g2.edges + [NewEdge(site, g, source, target)]), source, 0, 1, u);
    BumpCountsOnly(bumped, TargetKey(site, g, source, target), 1, 0, u);
  }

  lemma BumpCountsOnly(g: Graph, key: Url, inbound: nat, outbound: nat, u: Url)
    ensures
      var g' := Bump(g, key, inbound, outbound);
      && (u in g'.pages.items <==> u in g.pages.items)
      && (u in g.pages.items ==>
            && g'.pages.items[u].statusCode == g.pages.items[u].statusCode
            && g'.pages.items[u].redirectTarget == g.pages.items[u].redirectTarget
            && g'.pages.items[u].isExternal == g.pages.items[u].isExternal)
  {
  }

  predicate SameRedirect(g: Graph, g': Graph, u: Url) {
    u in g.pages.items ==> u in g'.pages.items && g'.pages.items[u].redirectTarget == g.pages.items[u].redirectTarget
  }

  predicate SameStatus(g: Graph, g': Graph, u: Url) {
    u in g.pages.items ==> u in g'.pages.items && g'.pages.items[u].statusCode == g.pages.items[u].statusCode
  }

  /** A page that is not there, or has nothing to lose. */
  predicate NoRedirect(g: Graph, u: Url) { u in g.pages.items ==> g.pages.items[u].redirectTarget == None }

  predicate StatusOk(g: Graph, u: Url) { u in g.pages.items ==> g.pages.items[u].statusCode == 200 }

  /** A new link leaves every page its redirect if and only if its source has none and, when its target has no
      page under its own text, nor has the page that text normalizes to; and likewise with every page's status,
      where those pages have status 200. */
  lemma AddLinkForgetsExactly(site: Site, g: Graph, sourceUrl: Url, targetUrl: Url)
    ensures
      var source, target := site.normalize(site.normalize(sourceUrl)), site.normalize(targetUrl);
      var g' := LinkAdded(site, g, sourceUrl, targetUrl);
      var again := target !in g.pages.items && target != source;
      && ((forall u :: SameRedirect(g, g', u)) <==>
          NoRedirect(g, source) && (again ==> NoRedirect(g, site.normalize(target))))
      && ((forall u :: SameStatus(g, g', u)) <==>
          StatusOk(g, source) && (again ==> StatusOk(g, site.normalize(target))))
  {
    var source, target := site.normalize(site.normalize(sourceUrl)), site.normalize(targetUrl);
    var g' := LinkAdded(site, g, sourceUrl, targetUrl);
    var resets := ReAdded(site, g, sourceUrl, targetUrl);
    forall u
      ensures SameRedirect(g, g', u) <==> u !in resets || NoRedirect(g, u)
      ensures SameStatus(g, g', u) <==> u !in resets || StatusOk(g, u)
    {
      if u in g.pages.items { AddLinkResets(site, g, sourceUrl, targetUrl, u); }
    }
  }

  /** A link into a page by a text that has to be normalized once more wipes out the page's redirect. */
  lemma LinkIntoForgetsRedirect(site: Site, g: Graph, sourceUrl: Url, targetUrl: Url)
    requires site.normalize(targetUrl) !in g.pages.items
    requires site.normalize(targetUrl) != site.normalize(site.normalize(sourceUrl))
    requires site.normalize(site.normalize(targetUrl)) in g.pages.items
    ensures
      var page := site.normalize(site.normalize(targetUrl));
      var g' := LinkAdded(site, g, sourceUrl, targetUrl);
      && page in g'.pages.items
      && g'.pages.items[page].redirectTarget == None && g'.pages.items[page].statusCode == 200
  {
    AddLinkResets(site, g, sourceUrl, targetUrl, site.normalize(site.normalize(targetUrl)));
  }

  /** With normalize_url itself: http://h/a// becomes http://h/a/ and that http://h/a, so that a link to the
      first wipes out the redirect of the last, as of every written URL. */
  lemma SlashesForgetRedirect(site: Site, g: Graph, sourceUrl: Url, scheme: string, host: string, path: string,
                              bad: string -> bool)
    requires forall u :: site.normalize(u) == Url(NormalizeUrl(u.text, bad))
    requires IsScheme(scheme) && Ordinary(host) && !bad(host) && !bad(LowerCase(host))
    requires path != "" && path[0] == '/' && EndsInTwoSlashes(path)
    requires forall c <- path :: c == '/' || (c !in NETLOC_ENDS && c !in UNSAFE)
    requires
      var s, h, once := LowerCase(scheme), LowerCase(host), path[..|path| - 1];
      && Url(Written(s, h, once)) !in g.pages.items && Url(Written(s, h, NormalizePath(once))) in g.pages.items
      && site.normalize(site.normalize(sourceUrl)) != Url(Written(s, h, once))
    ensures
      var page := Url(Written(LowerCase(scheme), LowerCase(host), NormalizePath(path[..|path| - 1])));
      var g' := LinkAdded(site, g, sourceUrl, Url(Written(scheme, host, path)));
      && page in g'.pages.items
      && g'.pages.items[page].redirectTarget == None && g'.pages.items[page].statusCode == 200
  {
    SlashesGo(scheme, host, path, bad);
    LinkIntoForgetsRedirect(site, g, sourceUrl, Url(Written(scheme, host, path)));
  }

  // ---------------------------------------------------------------- redirects

  /** Where a page redirects to, if it does. */
  function Next(g: Graph, u: Url): Option<Url> {
    if u in g.pages.items then
      match g.pages.items[u].redirectTarget
      case None => None
      case Some(target) => if Blank(target) then None else Some(target)
    else None
  }

  /** A page redirects to its redirect target, unless that is empty. */
  lemma RedirectsTo(g: Graph, u: Url, target: Url)
    ensures Next(g, u) == Some(target) <==>
      u in g.pages.items && g.pages.items[u].redirectTarget == Some(target) && |target.text| > 0
  {
  }

  /** The URL reached after n redirects. */
  function Hop(g: Graph, u: Url, n: nat): Option<Url> {
    if n == 0 then Some(u)
    else
      match Hop(g, u, n - 1)
      case None => None
      case Some(v) => Next(g, v)
  }

  function Redirecting(g: Graph): set<Url> {
    set u | u in g.pages.items && Next(g, u).Some?
  }

  datatype Chain = Chain(startUrl: Url, chain: seq<Url>, finalUrl: Url, finalStatusCode: Option<int>,
                         hopCount: nat, isLoop: bool)

  /** A chain lists the redirects from its start one by one, no URL twice except that the last may
      close a loop; it is a loop exactly if the redirects never end, and otherwise ends where they do,
      with that page's status; and it makes no more hops than there are redirecting pages. */
  ghost predicate ChainOk(g: Graph, c: Chain) {
    && |c.chain| == c.hopCount + 1 && c.hopCount >= 1
    && (forall i :: 0 <= i < |c.chain| ==> Hop(g, c.startUrl, i) == Some(c.chain[i]))
    && c.finalUrl == c.chain[c.hopCount]
    && NoDuplicates(c.chain[..c.hopCount])
    && (c.isLoop <==> c.finalUrl in c.chain[..c.hopCount])
    && (c.isLoop <==> forall n: nat :: Hop(g, c.startUrl, n).Some?)
    && (!c.isLoop ==> Next(g, c.finalUrl) == None)
    && c.finalStatusCode == (if !c.isLoop && c.finalUrl in g.pages.items
                             then Some(g.pages.items[c.finalUrl].statusCode) else None)
    && c.hopCount <= |Redirecting(g)|
  }

  lemma {:induction false} HopAdd(g: Graph, u: Url, m: nat, n: nat)
    requires Hop(g, u, m).Some?
    ensures Hop(g, u, m + n) == Hop(g, Hop(g, u, m).value, n)
  {
    if n > 0 {
      HopAdd(g, u, m, n - 1);
      assert m + n - 1 == m + (n - 1);
    }
  }

  /** Once the redirects come back to a URL they go on for ever. */
  lemma {:induction false} LoopsForever(g: Graph, u: Url, first: nat, again: nat, n: nat)
    requires first < again && Hop(g, u, again).Some? && Hop(g, u, first) == Hop(g, u, again)
    ensures Hop(g, u, n).Some?
    decreases n
  {
    if n <= again {
      Earlier(g, u, n, again);
    } else {
      LoopsForever(g, u, first, again, n - again + first);
      HopAdd(g, u, again, n - again);
      HopAdd(g, u, first, n - again);
    }
  }

  lemma {:induction false} Earlier(g: Graph, u: Url, m: nat, n: nat)
    requires m <= n && Hop(g, u, n).Some?
    ensures Hop(g, u, m).Some?
    decreases n - m
  {
    if m < n { Earlier(g, u, m, n - 1); }
  }

  // ---------------------------------------------------------------- the service

  /** While a walk is under way: `chain` are the redirecting pages passed, `current` is where the last
      one leads. */
  ghost predicate Walking(g: Graph, start: Url, chain: seq<Url>, current: Url) {
    && chain != [] && NoDuplicates(chain)
    && (forall u <- chain :: u in Redirecting(g))
    && (forall i :: 0 <= i < |chain| ==> Hop(g, start, i) == Some(chain[i]))
    && Hop(g, start, |chain|) == Some(current)
  }

  lemma WalkOn(g: Graph, start: Url, chain: seq<Url>, current: Url, next: Url)
    requires Walking(g, start, chain, current) && current !in chain && Next(g, current) == Some(next)
    ensures Walking(g, start, chain + [current], next)
    ensures |Redirecting(g)| > |chain|
  {
    var longer := chain + [current];
    assert longer[..|chain|] == chain;
    var passed := set u | u in longer;
    DistinctCount(longer, passed);
    SubsetSize(passed, Redirecting(g));
  }

  lemma WalkBounded(g: Graph, start: Url, chain: seq<Url>, current: Url)
    requires Walking(g, start, chain, current)
    ensures |chain| <= |Redirecting(g)|
  {
    var passed := set u | u in chain;
    DistinctCount(chain, passed);
    SubsetSize(passed, Redirecting(g));
  }

  lemma LoopClosed(g: Graph, start: Url, chain: seq<Url>, current: Url)
    requires Walking(g, start, chain, current) && current in chain
    ensures ChainOk(g, Chain(start, chain + [current], current, None, |chain|, true))
  {
    var i :| 0 <= i < |chain| && chain[i] == current;
    forall n: nat
      ensures Hop(g, start, n).Some?
    {
      LoopsForever(g, start, i, |chain|, n);
    }
    assert (chain + [current])[..|chain|] == chain;
    WalkBounded(g, start, chain, current);
  }

  lemma EndReached(g: Graph, start: Url, chain: seq<Url>, current: Url)
    requires Walking(g, start, chain, current) && current !in chain && Next(g, current) == None
    ensures ChainOk(g, Chain(start, chain + [current], current,
                             if current in g.pages.items then Some(g.pages.items[current].statusCode) else None,
                             |chain|, false))
  {
    assert Hop(g, start, |chain| + 1) == None;
    assert (chain + [current])[..|chain|] == chain;
    WalkBounded(g, start, chain, current);
  }

  class LinkGraphService {
    const site: Site
    var pages: Dict<Url, Page>
    var edges: seq<Edge>

    function State(): Graph
      reads this
    {
      Graph(pages, edges)
    }

    constructor (site: Site)
      ensures this.site == site && State() == Graph(Dict([], map[]), []) && Inv(site, State())
    {
      this.site := site;
      pages, edges := Dict([], map[]), [];
    }

    method AddPage(url: Url, statusCode: int, redirect: Option<Url>, external: Option<bool>)
      modifies `pages
      ensures State() == PageAdded(site, old(State()), url, statusCode, redirect, external)
    {
      var key := site.normalize(url);
      var isExternal := match external case None => !site.isInternal(key) case Some(e) => e;
      var target := NormalizedTarget(site, redirect);
      if key in pages.items {
        var known := pages.items[key];
        pages := pages.Put(key, known.(statusCode := statusCode, redirectTarget := target, isExternal := isExternal));
      } else {
        pages := pages.Put(key, Page(key, statusCode, target, isExternal, 0, 0));
      }
    }

    method AddLink(sourceUrl: Url, targetUrl: Url) returns (edge: Edge)
      modifies this
      ensures State() == LinkAdded(site, old(State()), sourceUrl, targetUrl)
      ensures edges == old(edges) + [edge]
    {
      var source, target := site.normalize(sourceUrl), site.normalize(targetUrl);
      AddPage(source, 200, None, None);
      var key := target;
      if target !in pages.items {
        AddPage(target, 200, None, None);
        key := site.normalize(target);
      }
      edge := Edge(source, target, site.isInternal(target), key in pages.items && pages.items[key].statusCode >= 400);
      edges := edges + [edge];
      if source in pages.items {
        var page := pages.items[source];
        pages := pages.Put(source, page.(outbound := page.outbound + 1));
      }
      if key in pages.items {
        var page := pages.items[key];
        pages := pages.Put(key, page.(inbound := page.inbound + 1));
      }
    }

    /** Follows the redirects of one page until they end or come back. */
    method FollowRedirects(url: Url, first: Url) returns (chain: Chain)
      requires url in pages.items && Next(State(), url) == Some(first)
      ensures chain.startUrl == url && ChainOk(State(), chain)
    {
      var hops, current := [url], first;
      assert Hop(State(), url, 0) == Some(url);
      while true
        invariant Walking(State(), url, hops, current)
        decreases |Redirecting(State())| - |hops|
      {
        if current in hops {
          LoopClosed(State(), url, hops, current);
          return Chain(url, hops + [current], current, None, |hops|, true);
        }
        var next := Next(State(), current);
        if next == None {
          EndReached(State(), url, hops, current);
          var status := if current in pages.items then Some(pages.items[current].statusCode) else None;
          return Chain(url, hops + [current], current, status, |hops|, false);
        }
        WalkOn(State(), url, hops, current, next.value);
        hops, current := hops + [current], next.value;
      }
    }

    /** One chain for each page that redirects, in the order the pages were added. */
    method GetRedirectChains() returns (chains: seq<Chain>)
      requires WellFormed(pages)
      ensures Starts(chains) == RedirectingKeys(State(), pages.keys)
      ensures forall c <- chains :: ChainOk(State(), c)
    {
      chains := [];
      ghost var g := State();
      for i := 0 to |pages.keys|
        invariant AllChainsOk(g, chains) && Starts(chains) == RedirectingKeys(g, pages.keys[..i])
      {
        var url := pages.keys[i];
        assert url in pages.keys;
        RedirectingNext(g, pages.keys, i);
        var first := Next(State(), url);
        if first.Some? {
          var chain := FollowRedirects(url, first.value);
          ChainsAppend(g, chains, chain);
          chains := chains + [chain];
        }
      }
      assert pages.keys[..|pages.keys|] == pages.keys;
    }

    /** How many internal links lead to the page. */
    method InboundInternal(url: Url) returns (inbound: nat)
      ensures inbound == InternalTo(edges, url)
    {
      inbound := 0;
      for j := 0 to |edges|
        invariant inbound == InternalTo(edges[..j], url)
      {
        assert edges[..j + 1][..j] == edges[..j];
        if edges[j].target == url && edges[j].isInternal { inbound := inbound + 1; }
      }
      assert edges[..|edges|] == edges;
    }

    /** The internal pages other than the base that no internal link leads to, in page order. */
    method GetOrphanPages() returns (orphans: seq<Url>)
      requires WellFormed(pages)
      ensures orphans == OrphanKeys(site, State(), pages.keys)
    {
      orphans := [];
      for i := 0 to |pages.keys|
        invariant orphans == OrphanKeys(site, State(), pages.keys[..i])
      {
        var url := pages.keys[i];
        assert url in pages.keys;
        OrphanNext(site, State(), pages.keys, i);
        if !pages.items[url].isExternal && url != site.normalize(site.normalize(site.base)) {
          var inbound := InboundInternal(url);
          if inbound == 0 { orphans := orphans + [url]; }
        }
      }
      assert pages.keys[..|pages.keys|] == pages.keys;
    }
  }

  function Starts(chains: seq<Chain>): seq<Url> {
    if chains == [] then [] else Starts(chains[..|chains| - 1]) + [chains[|chains| - 1].startUrl]
  }

  ghost predicate AllChainsOk(g: Graph, chains: seq<Chain>) {
    forall c <- chains :: ChainOk(g, c)
  }

  lemma ChainsAppend(g: Graph, chains: seq<Chain>, c: Chain)
    requires AllChainsOk(g, chains) && ChainOk(g, c)
    ensures AllChainsOk(g, chains + [c])
    ensures Starts(chains + [c]) == Starts(chains) + [c.startUrl]
  {
    assert (chains + [c])[..|chains|] == chains;
  }

  /** The pages that redirect, in page order. */
  function RedirectingKeys(g: Graph, keys: seq<Url>): seq<Url> {
    if keys == [] then []
    else
      var last := keys[|keys| - 1];
      RedirectingKeys(g, keys[..|keys| - 1]) + (if Next(g, last).Some? then [last] else [])
  }

  lemma RedirectingNext(g: Graph, keys: seq<Url>, i: nat)
    requires i < |keys|
    ensures RedirectingKeys(g, keys[..i + 1]) ==
            if Next(g, keys[i]).Some? then RedirectingKeys(g, keys[..i]) + [keys[i]] else RedirectingKeys(g, keys[..i])
  {
    assert keys[..i + 1][..i] == keys[..i];
    assert RedirectingKeys(g, keys[..i]) + [] == RedirectingKeys(g, keys[..i]);
  }

  function InternalTo(edges: seq<Edge>, url: Url): nat {
    if edges == [] then 0
    else
      var last := edges[|edges| - 1];
      InternalTo(edges[..|edges| - 1], url) + (if last.target == url && last.isInternal then 1 else 0)
  }

  predicate IsOrphan(site: Site, g: Graph, u: Url) {
    u in g.pages.items && !g.pages.items[u].isExternal && u != site.normalize(site.normalize(site.base))
    && InternalTo(g.edges, u) == 0
  }

  function OrphanKeys(site: Site, g: Graph, keys: seq<Url>): seq<Url> {
    if keys == [] then []
    else
      var last := keys[|keys| - 1];
      OrphanKeys(site, g, keys[..|keys| - 1]) + (if IsOrphan(site, g, last) then [last] else [])
  }

  lemma OrphanNext(site: Site, g: Graph, keys: seq<Url>, i: nat)
    requires i < |keys|
    ensures OrphanKeys(site, g, keys[..i + 1]) ==
            if IsOrphan(site, g, keys[i]) then OrphanKeys(site, g, keys[..i]) + [keys[i]]
            else OrphanKeys(site, g, keys[..i])
  {
    assert keys[..i + 1][..i] == keys[..i];
    assert OrphanKeys(site, g, keys[..i]) + [] == OrphanKeys(site, g, keys[..i]);
  }

  lemma {:induction false} AllInternalOrNone(site: Site, g: Graph, edges: seq<Edge>, u: Url)
    requires forall e <- edges :: EdgeOk(site, g, e)
    ensures InternalTo(edges, u) == if site.isInternal(u) then To(edges, u) else 0
  {
    if edges != [] {
      var init, last := edges[..|edges| - 1], edges[|edges| - 1];
      assert edges == init + [last];
      assert EdgeOk(site, g, last);
      AllInternalOrNone(site, g, init, u);
    }
  }

  /** The orphan scan over the edges agrees with the counters: a page is an orphan exactly if it is
      not external, not the base page, and was never linked or has a URL that is not internal. */
  lemma OrphansByCounter(site: Site, g: Graph, u: Url)
    requires Inv(site, g) && u in g.pages.items
    ensures IsOrphan(site, g, u) <==>
            var page := g.pages.items[u];
            && !page.isExternal && u != site.normalize(site.normalize(site.base))
            && (page.inbound == 0 || !site.isInternal(u))
  {
    assert PageOk(g, u);
    AllInternalOrNone(site, g, g.edges, u);
  }
}
