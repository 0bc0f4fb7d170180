# SEO agent: verified models of its stateful algorithms

This project models the stateful core of an SEO crawler and its multi-tenant back end, and proves what
its operations keep and what whole runs of them guarantee. `dafny verify dfyconfig.toml` checks everything.

- **Crawl frontier** (`Urls` and `UrlTexts`, on the text of a URL as urlparse of Python 3.11 reads it, `UrlFrontier`, `UrlFrontierRuns`, `BreadthFirst`, `UrlDiscoveryService`). The
  class moves items between four dicts; one table with a status column and the queue's order specifies it.
  On that table: limits over arbitrary interleavings of calls, a bound on all work, draining, and
  breadth-first exactness with shortest distances.
- **Heading outline** (`Headings`). The counting pass and the stack loop, over arrays filled in place, and the
  forest they build: existence, uniqueness, and what a skipped level means in the tree. The loops of
  `src/services/headingExtractor.ts` (lines 56-109) are the same ones.
- **Browser pool** (`BrowserPool`, `BrowserPoolLoads`, `BrowserPoolRecovery`, `BrowserPoolEffects`, `BrowserPoolSharing`). Semaphore, lock, crash recovery, least-loaded choice, launch, idle cleanup
  and shutdown as atomic steps between awaits, with crashes, cancelled users and interleavings left open.
- **Pagination** (`Pagination`, `CursorCodec`). Keyset pages, scans over a table that changes between the
  fetches, and the cursor's text form.
- **Job queue** (`JobQueue`). Redis mode: four lists, a pop counter, and bounded waits.
- **Rate limiter** (`RateLimiter`). The local sliding window, the Redis sorted set, and how they relate.
- **Link graph** (`LinkGraph`). Pages with counters, edges, redirect chains and orphans.
- **robots.txt** (`RobotsLines`, `Robots`, `RobotsMatching`, `RobotsFiles`). Reading a line, grouping lines by agent,
  matching a path and deciding, after RFC 9309.
- **TTL cache** (`TtlCache`). The bounded cache against the unbounded expiring map it stands for.
- **Accounts** (`Sessions`, `Lockout`, `Organization`). Refresh-token rotation, the login lockout, and the roles
  of an organization, as runs of handler steps.

`Collections` holds the Python dict (a map that remembers insertion order), `Strings` what the code uses of str.

Where the code updates fields, a class does, and each method's `ensures` ties the new state to a
specification; what the source promises is proved of the specification. Services the code calls but does not
define are parameters: `urljoin` and which netlocs urlparse refuses, as functions;
`str.lower` and `float` in robots.txt as functions on text; page fetches, password checks and the clock as inputs of a
step. The frontier and the link graph are stated for any `normalize_url`; `Urls` defines the code's own, and
`UrlFrontierRuns.StableLinksDrain` and `LinkGraph.SlashesForgetRedirect` put it in.

## Where the code and its promises part

Each of these is proved; the model keeps what the code does.

- `normalize_url` is not idempotent, in three ways: trailing slashes go one at a time
  (`Urls.DoubleSlashChanges`), a first path segment without a slash before it is read as a host the next time
  and put in lower case (`Urls.UpperCaseSegmentChanges`), and params before a trailing slash are dropped the next
  time (`Urls.ParamsBeforeSlashChange`). `Urls.NormalizeIsIdempotentExactly` says there is no other. Marking a URL
  and counting a link normalize again, so `UrlFrontierRuns.MarkingSettles`, `UrlFrontierRuns.CrawlDrains` and
  `LinkGraph.AddLinkKeepsExactly` state exactly when they work.
- `add_link` re-adds its source page with the defaults, so a link out of a redirecting page erases the redirect. It
  also normalizes the target twice when it adds it, so a link into a redirecting page, with a slash too many,
  erases that page's redirect as well (`LinkGraph.LinkIntoForgetsRedirect`, `LinkGraph.SlashesForgetRedirect`).
  `LinkGraph.AddLinkResets` says which pages are reset, `LinkGraph.AddLinkForgetsExactly` when none loses anything.
- A robots pattern that ends in a dollar sign is not anchored at the start of the path, against RFC 9309,
  section 2.2.3 (`RobotsMatching.DollarMatchesAnySuffix`, `RobotsMatching.DollarAgreesWithRfcExactly`).
- The fairness of the queue bounds the wait of a normal job, but that of a low one only together with the normal
  jobs that arrive: each can cost it five more pops, and no smaller bound holds (`JobQueue.LowWait`,
  `JobQueue.LowWaitIsTight`, `JobQueue.LowMayStarve`).
- The sorted-set path of the rate limiter counts rejected attempts, the local path does not, and it counts
  attempts with the same time stamp once. `RateLimiter.PathsDifferExactly` and `RateLimiter.RejectionsDifferExactly`
  say exactly when the two answer differently, `RateLimiter.NoRejectionsAgree` when they cannot;
  `RateLimiter.PathsDiffer` and `RateLimiter.EqualStampsCountOnce` are instances either way.
- A user of the browser pool that is cancelled while its release waits leaves its load behind
  (`BrowserPool.StepKeepsExactly`). One such release is enough to put two users on one browser later, in every
  pool but one of a single browser, where it never happens (`BrowserPoolSharing.SharingExactly`). The size of the
  pool, its permits and the browsers in use are safe in all runs (`BrowserPoolLoads.LoadCountsUsersAndCuts`,
  `BrowserPoolLoads.InUseIsNotClosed`).
- "Remember me" promises 30 days, but a session unused for 24 hours is refused whatever its expiry
  (`Sessions.RememberMeDoesNotMatter`).
- Accepting an invitation overwrites an existing role, so the Owner can lose the role for good
  (`Organization.OwnerCanBeLost`, and exactly when in `Organization.OwnedExactly`).
- A cache with `max_size` below 1 raises on every set that finds nothing unexpired to delete
  (`TtlCache.InMemoryTTLCache.Set`).

## Model

| member | source | states |
|---|---|---|
| `Urls.ReadsBack` | backend/services/url_discovery_service.py:95-103 | A text assembled from scheme, netloc, path and query is parsed back to them, but for the params of the last path segment. |
| `UrlTexts.NormalizesWriting` | backend/services/url_discovery_service.py:91-105 | What any text becomes, written with blanks, scheme, authority, path, params, query and fragment, each there or not: the scheme in lower case, or http if there is none, the authority in lower case, the path less one trailing slash, and the query; the rest is dropped. |
| `UrlTexts.RefusedIsStripped` | backend/services/url_discovery_service.py:104-105 | A text whose authority urlparse refuses is only stripped. |
| `UrlTexts.SchemeAndHostStay` | backend/services/url_discovery_service.py:91-103 | Every text that is not refused becomes one that begins with its scheme, or with http, and is read back with that scheme and with its host in lower case. |
| `UrlTexts.LineEndsGo` | backend/services/url_discovery_service.py:95 | A tab or line end makes no difference anywhere in the text. |
| `Urls.NormalizeIsIdempotentExactly` | backend/services/url_discovery_service.py:91-105 | On the text of any URL, a second call changes nothing if and only if, of the parts the first call read, the path has no trailing double slash, its first segment is in lower case if the path starts without a slash, and no params are left in the last segment; if the second call is refused, if and only if no blank is at the end; if the first is, if and only if the stripped text is refused too or is normal already. |
| `Urls.NormalExactly` | backend/services/url_discovery_service.py:91-105 | An accepted URL is left as it is if and only if it is written as a scheme, a netloc in lower case and a path without trailing slash, with nothing that is dropped. |
| `Urls.DoubleSlashChanges` | backend/services/url_discovery_service.py:99-102 | Every written URL with a path that ends in two slashes changes again at the second call. |
| `Urls.UpperCaseSegmentChanges` | backend/services/url_discovery_service.py:96-103 | So does every URL without a netloc whose first path segment is not in lower case, as Example.com/x or mailto:Info@Example.com. |
| `Urls.ParamsBeforeSlashChange` | backend/services/url_discovery_service.py:98-103 | So does every URL whose last non-empty segment has params and is followed by a slash, as http://h/a;p/. |
| `UrlDiscoveryService.URLDiscoveryService.constructor` | backend/services/url_discovery_service.py:68-88 | A new service holds the seed at depth 0 if it is eligible and nothing else, and satisfies the invariant. |
| `UrlDiscoveryService.URLDiscoveryService.DictsPartition` | backend/services/url_discovery_service.py:82-85 | Queue, pending, visited and failed are pairwise disjoint, and together hold exactly the tracked URLs, at most max_pages of them. |
| `UrlDiscoveryService.URLDiscoveryService.StatusesMatch` | backend/services/url_discovery_service.py:34-46 | In each of the four dicts every item carries that dict's status and sits under its own URL. |
| `UrlDiscoveryService.URLDiscoveryService.IsUrlTracked` | backend/services/url_discovery_service.py:107-113 | True exactly for the URLs in the one status table that the four dicts add up to. |
| `UrlDiscoveryService.URLDiscoveryService.HasAllowedDomain` | backend/services/url_discovery_service.py:130-137 | The loop over allowed_domains accepts a host exactly if it is one of them or a subdomain of one; an unparsable URL is refused. |
| `UrlDiscoveryService.URLDiscoveryService.Enqueue` | backend/services/url_discovery_service.py:115-141 | Answers true exactly if the normalized URL is not blank, not too deep, new, in an allowed domain and there is room; then it is last in the queue, otherwise nothing changes. |
| `UrlDiscoveryService.URLDiscoveryService.AddDiscoveredUrls` | backend/services/url_discovery_service.py:143-156 | Has the effect of enqueueing the resolved links one by one a level deeper, and returns by how many the tracked URLs grew. |
| `UrlFrontier.LinksAreTracked` | backend/services/url_discovery_service.py:143-156 | Afterwards every URL a link joins to, or the link itself where joining fails, is tracked under its normalized text if it may be followed and there was room; every new item is such a URL, queued a level deeper under this source; the others are as they were. |
| `UrlFrontier.AllowedExactly` | backend/services/url_discovery_service.py:130-137 | A URL is allowed if there are no allowed domains, or if it has a host that is one of them or something, a dot and one of them. |
| `UrlDiscoveryService.URLDiscoveryService.Next` | backend/services/url_discovery_service.py:158-170 | Hands out the URL queued first, with one more attempt and status pending, and removes only it from the queue. |
| `UrlDiscoveryService.URLDiscoveryService.MarkVisited` | backend/services/url_discovery_service.py:172-185 | Moves a pending or queued item to visited with its code and redirects; answers false and changes nothing for any other URL. |
| `UrlDiscoveryService.URLDiscoveryService.MarkFailed` | backend/services/url_discovery_service.py:187-206 | Requeues the item at the end while it has attempts left, else files it as failed; a missing or zero status code keeps the old one. |
| `UrlFrontierRuns.RunKeeps` | backend/services/url_discovery_service.py:115-206 | Whatever calls are made in whatever order, the partition, depth, attempt and page limits hold, and a visited or failed item never changes again. |
| `UrlFrontierRuns.WorkBound` | backend/services/url_discovery_service.py:126-128 | Over any run of any calls, successful next() calls number at most max_pages * max(1, retry), and no URL is handed out more than max(1, retry) times. |
| `UrlFrontierRuns.SettledForGood` | backend/services/url_discovery_service.py:123-124 | Once visited or failed, a URL is never handed out again in any run. |
| `UrlFrontierRuns.MarkingSettles` | backend/services/url_discovery_service.py:172-206 | Answering a hand-out with a mark call takes the item out of pending if and only if normalize_url leaves its URL as it is. |
| `UrlFrontierRuns.CrawlDrains` | backend/services/url_discovery_service.py:158-206 | A loop that answers each next() with one mark call always empties the queue. It leaves nothing pending if and only if normalize_url leaves every URL it found as it is, and exactly then is each URL visited or failed as its fetches say. |
| `UrlFrontierRuns.SettledLinksDrain` | backend/services/url_discovery_service.py:158-206 | What a caller can check beforehand: the loop drains if the seed, normalized twice, and every resolved link, normalized once, are left as they are by normalize_url. |
| `UrlFrontierRuns.StableLinksDrain` | backend/services/url_discovery_service.py:91-105 | With the normalize_url of the code: the loop drains if the seed and every resolved link are texts on which it is idempotent, which the parts of each text decide. |
| `BreadthFirst.VisitsExactlyTheReachable` | backend/services/url_discovery_service.py:115-185 | Without fetch errors and with URLs in normal form, the crawl visits exactly the allowed URLs within max_depth hops of the seed if and only if max_pages leaves room for them. |
| `BreadthFirst.TargetsExactly` | backend/services/url_discovery_service.py:147-154 | The neighbours of that reachability are the normalized URLs that the links of a loaded page join to, or are where joining fails, unless blank or of another domain. |
| `BreadthFirst.RecordsShortestDistances` | backend/services/url_discovery_service.py:143-154 | Then the depth recorded with a URL is its shortest distance from the seed in links. |
| `Headings.Scan` | backend/services/heading_extractor.py:22-50 | The counters equal the numbers of headings per level and of blank texts, and a heading is flagged exactly if it is more than one level below the one before it. |
| `Headings.Unwind` | backend/services/heading_extractor.py:59-60 | Popping the stack leaves the path to the nearest earlier heading of strictly smaller level, if there is one. |
| `Headings.BuildTree` | backend/services/heading_extractor.py:53-69 | Each heading's parent is the nearest earlier heading of strictly smaller level; its children are listed in order and parentTag records the parent. |
| `Headings.TreeIsTheOutline` | backend/services/heading_extractor.py:53-69 | The built forest is the one and only forest whose preorder is the flat list, whose children are deeper than their parent and whose siblings never get deeper. |
| `Headings.OutlineUnique` | backend/services/heading_extractor.py:53-69 | Two forests with that preorder and those level rules are the same forest, for every segment of headings. |
| `Headings.SkipsAreWideEdges` | backend/services/heading_extractor.py:34-37 | Some heading is flagged as skipping a level if and only if some parent-child edge of the built tree spans more than one level. |
| `BrowserPool.SortFacts` | backend/browser_pool.py:123-126 | The stable sort by load keeps the browsers and puts one with the least load first. |
| `BrowserPool.FewerBrowsersThanUsers` | backend/browser_pool.py:129-130 | If every listed browser has a user and one more user waits, fewer browsers are listed than users admitted: the pigeonhole behind launching instead of sharing. |
| `BrowserPool.StepKeepsExactly` | backend/browser_pool.py:105-192 | Every atomic step of users, cancelled ones among them, crashes, cleanup and shutdown keeps the invariant, if and only if it does not cut off a user whose release still waits. |
| `BrowserPool.OneContextPerBrowser` | backend/browser_pool.py:111-140 | In every state reached without cutting off a release no browser serves two contexts, and its load counter is 1 exactly while a user is on it. |
| `BrowserPoolSharing.SharingExactly` | backend/browser_pool.py:122-140 | For every pool size, idle timeout and number of cut releases allowed: some run puts two users on one browser if and only if the pool is of two or more and at least one release may be cut off. |
| `BrowserPoolSharing.OneCutLeadsToSharing` | backend/browser_pool.py:122-140 | In every pool of two or more one cut release is enough: all browsers are launched, one user leaves its browser, and the next two are both put on it. |
| `BrowserPoolLoads.LoadCountsUsersAndCuts` | backend/browser_pool.py:111-192 | In every run, whatever is cut off, permits and admitted users add up to pool_size, at most pool_size distinct browsers are listed, and the load of a browser is the number of users on it plus the releases from it that were cut off. |
| `BrowserPoolLoads.StepIsSound` | backend/browser_pool.py:105-192 | Every step keeps those facts, and only a cut release, from that very browser, makes the load exceed the users by one more. |
| `BrowserPoolLoads.InUseIsNotClosed` | backend/browser_pool.py:215-228 | A connected browser with a context on it, also after cut releases, is disconnected by a step if and only if the step is its own crash, an exception in a context on it, or its turn in the shutdown: crash recovery and idle cleanup never close it. |
| `BrowserPool.HandsOutFreshBrowsers` | backend/browser_pool.py:122-134 | A user is only ever given a browser that no user is on and whose healthy flag is still set, and its load counter is then 1. |
| `BrowserPoolRecovery.PicksLiveBrowsers` | backend/browser_pool.py:111-134 | Over a whole choice, whatever others do meanwhile: the browsers listed afterwards are exactly those listed before that were alive and healthy when the scan came to them; they are so still unless they crashed or were broken after that; and the user is on one of them or launches its own. |
| `BrowserPoolRecovery.CrashedIsNotPicked` | backend/browser_pool.py:113-120 | A browser that is dead or marked unhealthy when a user takes the lock is neither listed nor given to the user. |
| `BrowserPoolRecovery.CleanupDropsIdle` | backend/browser_pool.py:215-228 | An idle cleanup leaves exactly the browsers that were alive, healthy and not without a context for longer than the timeout when it came to them, and closes the others. |
| `BrowserPoolEffects.ChoosesLeastLoaded` | backend/browser_pool.py:122-134 | A browser is launched if none is left, or if all have a load and there is room; else one with the least load of all is taken, and its load grows by one. |
| `BrowserPoolEffects.LaunchAdds` | backend/browser_pool.py:84-98 | A launch that succeeds puts a healthy browser, just used and used once, at the end of the list; one that fails changes no browser. |
| `BrowserPoolEffects.LastUseMoves` | backend/browser_pool.py:19-21 | A browser was last used when it was last given out or given back; no other step moves that time. |
| `BrowserPoolEffects.HealthMoves` | backend/browser_pool.py:27-41 | A browser dies by crashing or being closed and is marked unhealthy by an exception in a context on it or by being closed, and in no other way. |
| `BrowserPoolEffects.UserComesAndGoes` | backend/browser_pool.py:157-158 | A user is admitted exactly while a permit is left and takes it; it gives it back exactly when it leaves. |
| `BrowserPoolEffects.WaitingUserMoves` | backend/browser_pool.py:105-111 | A user without a browser is turned away exactly if the pool is closed when it asks, and can be cancelled. |
| `BrowserPoolEffects.UsingUserMoves` | backend/browser_pool.py:181-192 | A user with a browser leaves it when it gets the lock, or is cut off before; an exception in its context breaks its browser. |
| `BrowserPoolEffects.ShutdownClosesAll` | backend/browser_pool.py:242-263 | A shutdown that is over has closed every browser that was listed, whatever happened meanwhile, and leaves the pool closed, empty and without driver. |
| `BrowserPool.ClosedForGood` | backend/browser_pool.py:242-262 | After the shutdown no browser is launched or listed again, whatever users and cleanups still run. |
| `CursorCodec.Base64RoundTrip` | backend/database/pagination.py:15-24 | Decoding the URL-safe base64 of any sequence of bytes gives the bytes back, with the decoder lenient about padding and foreign characters. |
| `CursorCodec.CursorRoundTrip` | backend/database/pagination.py:86-92 | The cursor of an id decodes and reads back as that id, negative ones too, and is never the empty string, which would restart the scan. |
| `CursorCodec.UrlSafeAlphabet` | backend/database/pagination.py:15-17 | The 64 characters are those of the URL-safe alphabet of RFC 4648, section 5. |
| `CursorCodec.EncodesInGroups` | backend/database/pagination.py:15-17 | Each three bytes become the four digits of their number in base 64; one or two left over are filled up with zeros and padded. |
| `CursorCodec.DecimalText` | backend/database/pagination.py:17 | An id is written in ASCII decimal digits, with a minus sign if it is negative. |
| `CursorCodec.ForeignIsSkipped` | backend/database/pagination.py:19-24 | A character outside the alphabet makes no difference to what is decoded. |
| `CursorCodec.PadsDecide` | backend/database/pagination.py:19-24 | Two characters with two pads decode to one byte and three with one pad to two; with fewer pads a text that ends inside a group is refused. |
| `Pagination.PageFacts` | backend/database/pagination.py:106-123 | A page is sorted, holds the first rows after the cursor and skips none; has_more holds exactly if more than limit rows were left, and the cursor is then the last row. |
| `Pagination.PageIsExact` | backend/database/pagination.py:84-123 | In numbers: of the rows past the cursor the page holds the first, as many as there are, as were asked for and as are allowed, but never fewer than one; has_more holds exactly if some are left, and the cursor is then the last row. |
| `Pagination.ScanIsSorted` | backend/database/pagination.py:119-165 | Following next_cursor while rows are inserted and deleted at will returns rows in strict order, so no id twice. |
| `Pagination.ScanIsComplete` | backend/database/pagination.py:119-165 | Every row present at each fetch of a scan that ends is returned, and every returned row was present at some fetch. |
| `Pagination.StillTable` | backend/database/pagination.py:119-165 | On an unchanging table every scan ends and its pages concatenate to the full ordered result. |
| `Pagination.DescendingEnds` | backend/database/pagination.py:93-99 | A descending scan over positive ids ends within as many fetches as the highest id at its start, one at least, whatever changes meanwhile. |
| `Pagination.AscendingMayNotEnd` | backend/database/pagination.py:93-99 | An ascending scan has no such bound: for every n there are tables that keep it going for n fetches. |
| `Pagination.TextScanIsScan` | backend/database/pagination.py:86-123 | A client that passes back the encoded cursors it was given has none refused and gets exactly the rows of the scan by ids. |
| `Pagination.StartsOver` | backend/database/pagination.py:86 | A scan starts over without a cursor or with an empty one, and with no other. |
| `JobQueue.ScoreDecides` | backend/queue.py:19-31 | A priority, named or not, stands for the number that is its score; a smaller score never leads to a less urgent list, and none to the unsuffixed one. |
| `JobQueue.LevelsInNumbers` | backend/queue.py:19-31 | A score up to 3 is high, from 8 on low, and normal between; the three names in any case score 1, 5 and 10, everything else 5. |
| `JobQueue.RedisJobQueue.Enqueue` | backend/queue.py:89-116 | The job goes to the end of the list of its parsed level and no other list changes. |
| `JobQueue.RedisJobQueue.EnqueueBatch` | backend/queue.py:145-182 | The batch has the effect of enqueueing its jobs one after the other. |
| `JobQueue.RedisJobQueue.PopNextJob` | backend/queue.py:202-233 | Takes the head of the first non-empty list, high first, but high last on every fifth pop, and counts the pop even if nothing waits. |
| `JobQueue.ServesInOrder` | backend/queue.py:202-233 | A pop serves high, but on every fifth pop only if the other lists are empty; then normal, low and the unsuffixed list; that list loses its head, and nothing else changes but the count. |
| `JobQueue.RedisJobQueue.PopBatch` | backend/queue.py:245-253 | The batch is as long as the smaller of batch_size and the number of jobs waiting, which drops by as many; its jobs are those that many pops return. |
| `JobQueue.Conservation` | backend/queue.py:105-116 | Per level and over every run, popped jobs followed by queued ones equal what was queued at first followed by what was enqueued. |
| `JobQueue.NormalWait` | backend/queue.py:211-221 | The job at index k of the normal list is returned within 5(k+1) pops, whatever is enqueued meanwhile. |
| `JobQueue.NormalWaitIsTight` | backend/queue.py:211-221 | For every k some run of one pop fewer leaves that job waiting. |
| `JobQueue.LowWait` | backend/queue.py:211-221 | Behind n normal jobs and with m more arriving, the low job at index k is returned within 5(n+m+k+1) pops, whatever else is enqueued and whenever. |
| `JobQueue.LowWaitIsTight` | backend/queue.py:211-221 | For all n, m and k some run with exactly m normal arrivals and one pop fewer leaves that job waiting, so no smaller bound holds. |
| `JobQueue.HighWait` | backend/queue.py:223-233 | The high job at index k is returned within k + 1 + (k+4)/4 pops. |
| `JobQueue.HighWaitIsTight` | backend/queue.py:211-233 | For every k some run of one pop fewer leaves that job waiting. |
| `JobQueue.LowMayStarve` | backend/queue.py:211-221 | With a normal job arriving before each pop, no low job is returned by any number of pops. |
| `RateLimiter.DistributedRateLimiter.CheckRateLimit` | backend/rate_limiter.py:46-85 | Answers and stores as the path in use prescribes, for this client only, and always allows when limiting is off. |
| `RateLimiter.LocalExact` | backend/rate_limiter.py:75-85 | The local path accepts an attempt if and only if fewer than limit accepted attempts lie in the window that ends with it, although it forgets older ones. |
| `RateLimiter.LocalWindowBound` | backend/rate_limiter.py:75-85 | No half-open interval of the window's length holds more than limit accepted attempts, wherever it starts. |
| `RateLimiter.SetCountsStamps` | backend/rate_limiter.py:57-69 | The sorted-set path accepts an attempt if and only if at most limit different stamps, its own among them, lie in its window; equal stamps are allowed. |
| `RateLimiter.SetHoldsExactly` | backend/rate_limiter.py:57-62 | One step of the sorted set leaves the stamps of the window, those before time zero, and the new one. |
| `RateLimiter.SetExact` | backend/rate_limiter.py:57-69 | While no two attempts of the window share a stamp, that is: fewer than limit earlier attempts, accepted or not, lie in it. |
| `RateLimiter.SetRefinesLocal` | backend/rate_limiter.py:57-85 | While no two attempts of the window share a stamp, as on every strictly increasing trace (IncreasingIsDistinct), every attempt the sorted-set path accepts is accepted by the local path. |
| `RateLimiter.PathsDifferExactly` | backend/rate_limiter.py:57-85 | On every trace, equal stamps or not: only the local path accepts if and only if accepted < limit < stamps, and only the set path if and only if stamps <= limit <= accepted, for the accepted attempts and the different stamps of the window. |
| `RateLimiter.RejectionsDifferExactly` | backend/rate_limiter.py:57-85 | Without equal stamps the verdicts differ if and only if the accepted attempts of the window are fewer than limit and all its attempts are not. |
| `RateLimiter.NoRejectionsAgree` | backend/rate_limiter.py:57-85 | So they agree wherever no attempt of the window was rejected. |
| `RateLimiter.PathsDiffer` | backend/rate_limiter.py:57-85 | A trace of three attempts on which the local path accepts one that the sorted-set path rejects. |
| `RateLimiter.EqualStampsCountOnce` | backend/rate_limiter.py:61 | For every limit, of limit + 1 attempts at one moment the set path accepts the last and the local path rejects it. |
| `LinkGraph.LinkGraphService.AddPage` | backend/services/link_graph_service.py:85-99 | A new URL gets a page with zero counters; a known one keeps its counters and place and has its status, redirect and external flag replaced. |
| `LinkGraph.LinkGraphService.AddLink` | backend/services/link_graph_service.py:101-120 | Re-adds the source with the defaults, adds the target if unknown, appends one edge and counts it at both ends. |
| `LinkGraph.AddPageKeeps` | backend/services/link_graph_service.py:85-99 | Adding or re-adding a page keeps every counter equal to the number of edges at its page and both ends of every edge tracked, and adds at most that one page. |
| `LinkGraph.PageIsRecorded` | backend/services/link_graph_service.py:85-99 | An added page has the status given, the normalized redirect if one is given, and is external as said or else by its URL; counters stay, and no other page and no edge changes. |
| `LinkGraph.EdgeIsBrokenExactly` | backend/services/link_graph_service.py:106-112 | A new edge leads between the normalized ends and is broken exactly if its target had a page of status 400 or more that is not the source re-added. |
| `LinkGraph.AddLinkKeepsExactly` | backend/services/link_graph_service.py:101-120 | Adding a link keeps that if and only if both normalized ends have a page afterwards under those very keys, which a second normalization can break. |
| `LinkGraph.AddLinkResets` | backend/services/link_graph_service.py:101-120 | Of the pages there were, exactly the source's, and the one the target normalizes to once more if the target has no page, are back at status 200 without a redirect; every other page keeps status, redirect and external flag. |
| `LinkGraph.AddLinkForgetsExactly` | backend/services/link_graph_service.py:101-120 | A new link leaves every page its redirect if and only if its source has none and, when the target has no page under its own text, nor has the page that text normalizes to; the same for every page's status, with 200 in place of no redirect. |
| `LinkGraph.LinkIntoForgetsRedirect` | backend/services/link_graph_service.py:105-106 | A link into a page by a text that has to be normalized once more wipes out the page's redirect. |
| `LinkGraph.SlashesForgetRedirect` | backend/services/link_graph_service.py:105-106 | With normalize_url itself: every link to a written URL with two trailing slashes wipes out the redirect of the page without them, if the text with one slash has no page and is not the source. |
| `LinkGraph.RedirectsTo` | backend/services/link_graph_service.py:160-174 | A page redirects exactly to its redirect target, and only if that is not empty. |
| `LinkGraph.LoopsForever` | backend/services/link_graph_service.py:168-181 | Once the redirects from a URL come back to one already passed, they go on for ever. |
| `LinkGraph.LinkGraphService.FollowRedirects` | backend/services/link_graph_service.py:160-181 | The walk ends; it is a loop exactly if iterating the redirects never reaches a page without one, else it ends at that unique page; all entries but possibly the last are distinct, and there are at most as many hops as redirecting pages. |
| `LinkGraph.LinkGraphService.GetRedirectChains` | backend/services/link_graph_service.py:156-193 | One such chain for each redirecting page, in page order, and no other. |
| `LinkGraph.LinkGraphService.GetOrphanPages` | backend/services/link_graph_service.py:144-154 | Lists, in page order, the internal pages other than the base that no internal edge leads to. |
| `LinkGraph.OrphansByCounter` | backend/services/link_graph_service.py:144-154 | The scan over the edges agrees with the counters: an orphan is a non-external page, not the base, with inbound count zero or a URL that is not internal. |
| `RobotsLines.ReadsBack` | backend/services/robots_service.py:33-39 | A line is read as what is before its first colon and what is after it up to a comment, both stripped. |
| `RobotsLines.KeyDecides` | backend/services/robots_service.py:37-70 | What a line becomes by its lowered key: a user-agent line with its value lowered, a sitemap, an allow, a disallow, a crawl delay with its value as it is, or another directive. |
| `RobotsLines.IgnoredExactly` | backend/services/robots_service.py:33-35 | A line is ignored exactly if no colon comes before its comment. |
| `Strings.StripDropsPads` | backend/services/robots_service.py:38-39 | Stripping text between blanks gives the text. |
| `Robots.RobotsService.Parse` | backend/services/robots_service.py:23-70 | From the raw lines, whatever was parsed before: an agent has a rule exactly if a user-agent line names it, and its allow, disallow and delay entries are, in line order, those of the lines its open groups govern; sitemaps are the distinct non-empty ones in order. |
| `Robots.ActiveStep` | backend/services/robots_service.py:41-48 | The two local variables of the loop compute the declarative grouping: an agent stays governed through other lines and until a user-agent line follows a directive. |
| `Robots.OtherLinesDoNotBreakGroups` | backend/services/robots_service.py:53-55 | Leaving out a sitemap or ignored line, wherever it is, leaves every rule as it was. |
| `Robots.LaterGroupsAreMerged` | backend/services/robots_service.py:50-52 | After a finished group, later groups add to an agent's allow and disallow entries, and put in place of its crawl delay, exactly what they would say as a file of their own. |
| `Robots.ReparsingChangesNothing` | backend/services/robots_service.py:24-26 | Two calls of parse on the same lines leave the same rules and the same sitemaps. |
| `Robots.RobotsService.IsAllowed` | backend/services/robots_service.py:72-100 | Decides by the rule of the lowered agent, else of "*", else allows, in terms of the parsed lines alone. |
| `RobotsFiles.OneGroupDecides` | backend/services/robots_service.py:23-100 | From the text of a group to the decision: parse leaves one rule, under the lowered name, with the non-blank values of its allow and disallow lines in order and its last readable crawl delay, and is_allowed decides by it for that agent, or for all if it is the star, and allows everything else. |
| `Robots.Decide` | backend/services/robots_service.py:85-100 | The two loops answer the order-independent rule: no disallow matches, or some matching allow is at least as long as every matching disallow (RFC 9309, section 2.2.2). |
| `Robots.OrderDoesNotMatter` | backend/services/robots_service.py:88-98 | Rules with the same entries, in whatever order and however often, decide alike. |
| `Robots.PermitsIsMonotone` | backend/services/robots_service.py:88-98 | One more allow never bars what was permitted; one more disallow never permits what was barred. |
| `RobotsMatching.MatchesAsRegex` | backend/services/robots_service.py:107-116 | The recursive glob matcher agrees with searching for the regular expression the code builds, with or without a final dollar sign, newlines included. |
| `RobotsMatching.ExtendingKeepsMatch` | backend/services/robots_service.py:113-114 | Without a final dollar sign, what matches a path matches every longer one. |
| `RobotsMatching.DollarMatchesAnySuffix` | backend/services/robots_service.py:111-112 | With a final dollar sign, what matches a path matches every path that ends in it: the code leaves out the leading anchor. |
| `RobotsMatching.DollarAgreesWithRfcExactly` | backend/services/robots_service.py:110-114 | Over all paths the code agrees with RFC 9309, section 2.2.3, on a pattern with a final dollar sign if and only if the pattern begins with a star. |
| `TtlCache.InMemoryTTLCache.Get` | backend/cache.py:89-97 | A hit is the latest set of the key in the unbounded map, undeleted, unexpired and not evicted since; a miss means there is none unexpired by the latest time any call read, or that it was evicted. |
| `TtlCache.InMemoryTTLCache.GetMany` | backend/cache.py:99-110 | The same for each key asked for, at one moment. |
| `TtlCache.InMemoryTTLCache.PruneExpired` | backend/cache.py:154-158 | Leaves exactly the unexpired entries, in their old order. |
| `TtlCache.InMemoryTTLCache.Set` | backend/cache.py:112-121 | The entry becomes the key's latest; at most max_size entries are held; only the oldest unexpired entry may be pushed out; with max_size below 1 and nothing unexpired held it raises and changes no entry's meaning. |
| `TtlCache.InMemoryTTLCache.Delete` | backend/cache.py:127-129 | The key is forgotten, in the cache and in the unbounded map. |
| `TtlCache.InMemoryTTLCache.Size` | backend/cache.py:160-163 | Counts the entries a get at this moment would hit, never more than max_size. |
| `TtlCache.EvictsOnlyWhenFullOfLive` | backend/cache.py:115-120 | An unexpired entry is pushed out if and only if max_size unexpired entries are held, and it is the one inserted before all others of them. |
| `TtlCache.HoldsAllLive` | backend/cache.py:89-121 | From any time no call has gone past, the held unexpired entries are those of the unbounded map that were not evicted. |
| `Sessions.AuthRoutes.OpenNew` | backend/api/auth_routes.py:224-245 | A login adds one active session with a new token and changes no other row. |
| `Sessions.AuthRoutes.RefreshTokens` | backend/api/auth_routes.py:305-370 | Reuse is checked first and ends all sessions of the token's user; else the active session with the token is refused when expired or idle, or exchanged for the new token while the old one is registered as used. |
| `Sessions.AuthRoutes.RevokeAllSessions` | backend/database/crud.py:335-345 | Afterwards the user has no active session, and no other user's session changed. |
| `Sessions.AuthRoutes.Revoke` | backend/database/crud.py:322-333 | Ends one session if it belongs to the user, and reports whether it does. |
| `Sessions.StepKeeps` | backend/api/auth_routes.py:305-370 | Each login, refresh and revocation keeps tokens unique and unused and lifetimes tied to the last activity. |
| `Sessions.NoSessionHoldsAUsedToken` | backend/database/crud.py:186-217 | In every reachable state no session, active or not, holds a used token and no two share one. |
| `Sessions.EachTokenOnce` | backend/api/auth_routes.py:305-359 | Over any run a refresh token is exchanged for a new one at most once. |
| `Sessions.ReplayEndsAllSessions` | backend/api/auth_routes.py:306-329 | Presenting an exchanged token again is answered as reuse, and its user has no active session from then until their next login. |
| `Sessions.ReplayTouchesOneUser` | backend/api/auth_routes.py:306-309 | The sessions ended that way are those of the user the token was issued to, and no row of anybody else changes. |
| `Sessions.RememberMeDoesNotMatter` | backend/api/auth_routes.py:337-346 | In every reachable state a refresh succeeds exactly if the session was opened or refreshed at most 24 hours ago: the 7 and 30 day expiries never decide. |
| `Sessions.TimesInSeconds` | backend/api/auth_routes.py:224-362 | Sessions are opened and refreshed for 2592000 seconds with remember me and 604800 without, and refused after 86400 of inactivity. |
| `Lockout.User.IsAccountLocked` | backend/database/crud.py:106-114 | Locked exactly while locked_until is ahead; the seconds reported are the whole ones left, or one if there is less than a second. |
| `Lockout.User.RecordLoginFailure` | backend/database/crud.py:116-140 | Counts the failure, and from the fifth on locks for 15 minutes; attempts left and failures add up to five until then. |
| `Lockout.User.RecordLoginSuccess` | backend/database/crud.py:142-154 | Leaves no failures and no lock. |
| `Lockout.User.Login` | backend/api/auth_routes.py:164-221 | Checks the lock first, then the password, and records the result, as one run step. |
| `Lockout.LockoutRate` | backend/database/crud.py:106-140 | A success-free stretch of length T from no failures on records at most 5 + floor(T / 15 minutes) wrong passwords. |
| `Lockout.LockoutRateIsReached` | backend/database/crud.py:106-140 | For every T some stretch of that length records exactly so many, so the bound cannot be lowered. |
| `Lockout.FivePerQuarter` | backend/database/crud.py:106-140 | From any account state, every half-open 15 minutes without a successful login records at most five wrong passwords. |
| `Organization.Handlers.constructor` | backend/database/crud.py:465-492 | A new organization has its creator as Owner and nobody else. |
| `Organization.Handlers.TransferOwnership` | backend/api/org_routes.py:173-194 | Succeeds exactly for the Owner and another member; then that member is Owner and the former Owner an Admin. |
| `Organization.Handlers.ChangeMemberRole` | backend/api/org_routes.py:211-259 | The guards amount to ranks: the actor is at least Manager, and ranks strictly above the member and above the new role. |
| `Organization.Handlers.RemoveMember` | backend/api/org_routes.py:263-302 | Members other than the Owner may leave; others are removed exactly by a Manager or higher of strictly higher rank. |
| `Organization.Handlers.InviteMember` | backend/api/org_routes.py:308-355 | Succeeds exactly for a Manager or higher, a role strictly below theirs, and someone who is not a member yet. |
| `Organization.Handlers.AcceptInvitation` | backend/database/crud.py:1102-1133 | An open invitation for the address is used up and its role given, overwriting the role of someone who is a member already. |
| `Organization.Handlers.RejectInvitation` | backend/database/crud.py:1135-1150 | An open invitation for the address is used up and no membership changes. |
| `Organization.Handlers.CancelInvitation` | backend/api/org_routes.py:414-431 | A Manager or higher ends a pending invitation, expired or not. |
| `Organization.StepFacts` | backend/database/crud.py:1016-1045 | Every step keeps at most one Owner; the Owner is lost exactly if the Owner accepts an invitation, and gained only by transfer from the Owner to a member. |
| `Organization.RolesDecide` | backend/api/org_routes.py:211-355 | Role by role: only Owner, Admin and Manager change, remove and invite, and only roles below their own; an invitation is open for 604800 seconds. |
| `Organization.AtMostOneOwner` | backend/database/crud.py:1016-1045 | In every run there is at most one Owner and no invitation to be one. |
| `Organization.OwnedExactly` | backend/database/crud.py:1102-1119 | After any run the organization has an Owner if and only if no step was its Owner accepting an invitation; without one it never has one again. |
| `Organization.OwnerCanBeLost` | backend/database/crud.py:1102-1119 | A run of five allowed steps after which nobody is Owner. |

## Left out

- Items of the frontier, pages of the link graph and rules of robots.txt are values in their dicts, not
  objects: what a caller could do to the object `next` or `add_page` returned, by keeping a reference to it,
  is not captured. Ids, timestamps, anchor and rel text are not modelled.
- The browser pool is a state machine on values; its objects, Playwright itself and the first call of
  `initialize` are not modelled, and a launch either succeeds or fails as the environment decides.
- `BreadthFirst.VisitsExactlyTheReachable` assumes that `normalize_url` leaves the URLs concerned as they are;
  where it does not, `UrlFrontierRuns.MarkingSettles` and `UrlFrontierRuns.CrawlDrains` say what fails.
- Which netlocs urlparse refuses is a parameter, and `urljoin` is one too.
- HTML parsing, text extraction, `splitlines` and Unicode case folding; headings start from elements with a
  level, robots.txt from its lines. Only ASCII letters are lowered in `Urls` and `JobQueue`.
- The regular-expression engine: the meaning of the one kind of expression `_path_matches` builds is defined here.
- `JobQueue.NormalWait`, `JobQueue.LowWait` and `JobQueue.HighWait` hold for one consumer process: the pop counter
  is per process, while the Redis lists are shared.
- Redis outages, failover between Redis and memory, the in-memory fallback queue (which both queues a job and
  starts its thread), blocking and timeouts of `blpop` (a pop that would block returns nothing here), job groups
  and trace ids.
- `get_broken_links`, the link filters, `get_summary`, `get_stats`, `to_dict` and `get_group_jobs`: filters and counts.
- `set_many`, `delete_many`, `delete_pattern` and `clear` of the cache, and its Redis twin.
- `CursorCodec.ReadInt`: only the decimal form `str` writes is read; the spaces, signs and underscores `int`
  also takes are not, nor are non-integer columns, UTF-8 and the exceptions of a malformed cursor other than
  an unfinished group. `Pagination.PositionOf` refuses what is not such a decimal; the code compares it as text.
- Token hashing and JWTs: tokens stand for themselves and a new one is assumed never to have been issued.
  Password hashing, the progressive delay and audit events are left out.
- Concurrent logins and refreshes: each handler is one atomic step, a login reads the clock when it checks the
  lock and again when it records the result, a refresh reads it once.
- `Lockout.LockoutRate` is about logins one after another; overlapping ones can all pass the lock check before
  any of them is recorded.
- Several organizations, deleting one, and e-mail changes between an invitation and its acceptance: the address
  is an input of the step.
- The worker's retry loop, `RetryEngine`, the job service's guards and `server.ts`: their properties follow from
  reading one body, or repeat those above.
- HTTP routing, SQL and migrations, exports, telemetry and the user interface.
