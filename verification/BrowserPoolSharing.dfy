/** When two users of the browser pool come to share a browser. */
module BrowserPoolSharing {
  import opened Collections
  import opened BrowserPool
  import opened BrowserPoolLoads

  /** How many users are cut off on their way out in the steps. */
  function Cuts(steps: seq<Step>): nat {
    if steps == [] then 0
    else Cuts(steps[..|steps| - 1]) + if steps[|steps| - 1].CutRelease? then 1 else 0
  }

  /** A run with at most this many cut releases leads to the state. */
  ghost predicate RunsTo(start: Pool, most: nat, steps: seq<Step>, p: Pool) {
    Cuts(steps) <= most && Run(start, steps) == p
  }

  ghost predicate Reachable(start: Pool, most: nat, p: Pool) {
    exists steps :: RunsTo(start, most, steps, p)
  }

  ghost predicate SharedIn(start: Pool, most: nat, p: Pool, u: UserId, v: UserId, b: nat) {
    Reachable(start, most, p) && u != v && On(p, u, b) && On(p, v, b)
  }

  /** Some run with at most this many cut releases puts two users on one browser. */
  ghost predicate MayShare(start: Pool, most: nat) {
    exists p: Pool, u: UserId, v: UserId, b: nat :: SharedIn(start, most, p, u, v, b)
  }

  // ---------------------------------------------------------------- no sharing

  lemma {:induction false} NoCuts(steps: seq<Step>)
    requires Cuts(steps) == 0
    ensures NoneCut(steps)
  {
    if steps != [] {
      var init := steps[..|steps| - 1];
      NoCuts(init);
      assert steps == init + [steps[|steps| - 1]];
      forall s <- steps ensures !s.CutRelease? { assert s in init || s == steps[|steps| - 1]; }
    }
  }

  lemma SharingTakesTwoUsersAndACut(poolSize: nat, idleTimeout: int, now: int, most: nat)
    requires MayShare(Initialized(poolSize, idleTimeout, now), most)
    ensures poolSize >= 2 && most >= 1
  {
    var start := Initialized(poolSize, idleTimeout, now);
    var p: Pool, u: UserId, v: UserId, b: nat :| SharedIn(start, most, p, u, v, b);
    var steps :| RunsTo(start, most, steps, p);
    LoadCountsUsersAndCuts(poolSize, idleTimeout, now, steps, b);
    SubsetSize({u, v}, p.users.Keys);
    SizeByKeys(p.users);
    if most == 0 {
      NoCuts(steps);
      OneContextPerBrowser(poolSize, idleTimeout, now, steps, u, v, b);
    }
  }

  // ---------------------------------------------------------------- reaching a state

  lemma {:induction false} RunOneMore(p: Pool, steps: seq<Step>, step: Step)
    ensures Run(p, steps + [step]) == Apply(Run(p, steps), step)
    decreases |steps|
  {
    if steps == [] {
      assert [step][1..] == [] && [] + [step] == [step];
      assert Run(Apply(p, step), []) == Apply(p, step);
    } else {
      assert (steps + [step])[0] == steps[0] && (steps + [step])[1..] == steps[1..] + [step];
      RunOneMore(Apply(p, steps[0]), steps[1..], step);
    }
  }

  lemma StepOn(start: Pool, most: nat, p: Pool, step: Step)
    requires Reachable(start, most, p)
    ensures Reachable(start, most + if step.CutRelease? then 1 else 0, Apply(p, step))
  {
    var steps :| RunsTo(start, most, steps, p);
    RunOneMore(start, steps, step);
    var more := steps + [step];
    assert more[..|more| - 1] == steps;
    assert RunsTo(start, most + if step.CutRelease? then 1 else 0, more, Apply(p, step));
  }

  /** A user with a permit takes the lock and finds every listed browser connected. */
  function AtPick(p: Pool, u: UserId): Pool {
    p.(permits := if p.permits > 0 then p.permits - 1 else 0, users := p.users[u := Ready],
       lock := Pruning(u, [], p.browsers))
  }

  ghost predicate ReadyFor(p: Pool, u: UserId) {
    && p.lock == Free && p.permits > 0 && u !in p.users && !p.isClosed && p.hasDriver
    && forall b <- p.browsers :: IsConnected(p, b)
  }

  lemma TakesLock(start: Pool, most: nat, p: Pool, u: UserId)
    requires Reachable(start, most, p) && ReadyFor(p, u)
    ensures Reachable(start, most, AtPick(p, u).(lock := Pruning(u, p.browsers, [])))
  {
    var p1 := Apply(p, Enter(u));
    StepOn(start, most, p, Enter(u));
    var p2 := Apply(p1, CheckOpen(u));
    StepOn(start, most, p1, CheckOpen(u));
    StepOn(start, most, p2, TakeLock(u));
    assert p2.users == p.users[u := Ready];
    assert Apply(p2, TakeLock(u)) == AtPick(p, u).(lock := Pruning(u, p.browsers, []));
  }

  lemma {:induction false} Prunes(start: Pool, most: nat, p: Pool, u: UserId, todo: seq<nat>, kept: seq<nat>)
    requires Reachable(start, most, p.(lock := Pruning(u, todo, kept))) && forall b <- todo :: IsConnected(p, b)
    ensures Reachable(start, most, p.(lock := Pruning(u, [], kept + todo)))
    decreases |todo|
  {
    if todo == [] {
      assert kept + todo == kept;
    } else {
      var q := p.(lock := Pruning(u, todo, kept));
      assert todo[0] in todo;
      StepOn(start, most, q, PruneNext);
      assert Apply(q, PruneNext) == p.(lock := Pruning(u, todo[1..], kept + [todo[0]]));
      Prunes(start, most, p, u, todo[1..], kept + [todo[0]]);
      assert kept + [todo[0]] + todo[1..] == kept + todo;
    }
  }

  lemma GetsToPick(start: Pool, most: nat, p: Pool, u: UserId)
    requires Reachable(start, most, p) && ReadyFor(p, u)
    ensures Reachable(start, most, AtPick(p, u))
  {
    TakesLock(start, most, p, u);
    assert forall b <- p.browsers :: IsConnected(AtPick(p, u), b);
    Prunes(start, most, AtPick(p, u), u, p.browsers, []);
    assert [] + p.browsers == p.browsers;
  }

  /** The user is put on the least loaded browser: it has no load, or the pool is full. */
  lemma IsPutOn(start: Pool, most: nat, p: Pool, u: UserId, sorted: seq<nat>)
    requires Reachable(start, most, p) && ReadyFor(p, u) && sorted == SortedByLoad(AtPick(p, u), p.browsers)
    requires sorted != [] && sorted[0] in p.launched && (|sorted| >= p.poolSize || Load(p, sorted[0]) == 0)
    ensures Reachable(start, most, Assign(AtPick(p, u).(browsers := sorted), u, sorted[0]))
  {
    GetsToPick(start, most, p, u);
    StepOn(start, most, AtPick(p, u), Pick);
  }

  /** The pool after a user found no browser without load and launched another. */
  function WithLaunched(p: Pool, u: UserId, sorted: seq<nat>): Pool {
    var b := p.counter + 1;
    p.(permits := if p.permits > 0 then p.permits - 1 else 0, users := p.users[u := Using(b)],
       launched := p.launched[b := Browser(1, true, true, p.clock)], browsers := sorted + [b], counter := b)
  }

  lemma Launches(start: Pool, most: nat, p: Pool, u: UserId, sorted: seq<nat>)
    requires Reachable(start, most, p) && ReadyFor(p, u) && sorted == SortedByLoad(AtPick(p, u), p.browsers)
    requires sorted == [] || (|sorted| < p.poolSize && Load(p, sorted[0]) > 0)
    ensures Reachable(start, most, WithLaunched(p, u, sorted))
  {
    GetsToPick(start, most, p, u);
    var q := AtPick(p, u);
    StepOn(start, most, q, Pick);
    var r := Apply(q, Pick);
    assert r == q.(browsers := sorted, counter := p.counter + 1, lock := Launching(u));
    StepOn(start, most, r, Launched(true));
    assert q.users[u := Using(p.counter + 1)] == p.users[u := Using(p.counter + 1)];
    assert Apply(r, Launched(true)) == WithLaunched(p, u, sorted);
  }

  /** The user leaves, cut off or not, and gives its permit back. */
  function WithExit(p: Pool, u: UserId): Pool {
    p.(users := p.users - {u}, permits := p.permits + 1)
  }

  lemma Exits(start: Pool, most: nat, p: Pool, u: UserId)
    requires Reachable(start, most, p) && u in p.users && p.users[u] == Leaving
    ensures Reachable(start, most, WithExit(p, u))
  {
    StepOn(start, most, p, Exit(u));
  }

  lemma IsCutAndExits(start: Pool, most: nat, p: Pool, u: UserId)
    requires Reachable(start, most, p) && u in p.users && p.users[u].Using?
    ensures Reachable(start, most + 1, WithExit(p, u))
  {
    var q := Apply(p, CutRelease(u));
    StepOn(start, most, p, CutRelease(u));
    Exits(start, most + 1, q, u);
    assert q.users - {u} == p.users - {u};
  }

  /** The user gives its browser back and leaves. */
  function WithReleased(p: Pool, u: UserId, b: nat): Pool
    requires b in p.launched
  {
    var pb := p.launched[b];
    WithExit(p.(launched := p.launched[b := pb.(activeContexts := Load(p, b) - if Load(p, b) == 0 then 0 else 1,
                                                lastUsedAt := p.clock)]), u)
  }

  lemma ReleasesAndExits(start: Pool, most: nat, p: Pool, u: UserId, b: nat)
    requires Reachable(start, most, p) && u in p.users && p.users[u] == Using(b) && b in p.launched && p.lock == Free
    ensures Reachable(start, most, WithReleased(p, u, b))
  {
    var q := Apply(p, Release(u));
    StepOn(start, most, p, Release(u));
    Exits(start, most, q, u);
    assert q.users - {u} == p.users - {u};
  }

  // ---------------------------------------------------------------- the run that shares

  /** One of the first k browsers, in use or leaked. */
  ghost predicate LoadedOnce(p: Pool, b: nat, k: nat) {
    1 <= b <= k && IsConnected(p, b) && Load(p, b) == 1
  }

  /** User 1 was cut off its browser, users 2 to k have launched one each. */
  ghost predicate AllLoaded(p: Pool, k: nat) {
    && p.lock == Free && !p.isClosed && p.hasDriver && p.counter == k && p.permits + k == p.poolSize + 1
    && |p.browsers| == k && (forall b <- p.browsers :: LoadedOnce(p, b, k))
    && (forall u: UserId :: u in p.users ==> 2 <= u <= k)
    && (k >= 2 ==> 2 in p.browsers && 2 in p.users && p.users[2] == Using(2))
  }

  ghost predicate LoadedAt(start: Pool, p: Pool, k: nat, n: nat) {
    Reachable(start, 1, p) && AllLoaded(p, k) && p.poolSize == n
  }

  ghost predicate ReachesLoaded(start: Pool, k: nat, n: nat) {
    exists p: Pool :: LoadedAt(start, p, k, n)
  }

  lemma FirstIsCut(n: nat, idleTimeout: int, now: int)
    requires n >= 1
    ensures ReachesLoaded(Initialized(n, idleTimeout, now), 1, n)
  {
    var start := Initialized(n, idleTimeout, now);
    assert RunsTo(start, 0, [], start);
    assert SortedByLoad(AtPick(start, 1), []) == [];
    Launches(start, 0, start, 1, []);
    var q := WithLaunched(start, 1, []);
    IsCutAndExits(start, 0, q, 1);
    assert LoadedAt(start, WithExit(q, 1), 1, n);
  }

  lemma LoadedIsReady(p: Pool, k: nat, u: UserId)
    requires AllLoaded(p, k) && k <= p.poolSize && u > k
    ensures ReadyFor(p, u)
  {
    forall b <- p.browsers ensures IsConnected(p, b) { assert LoadedOnce(p, b, k); }
  }

  lemma LoadedOneMore(p: Pool, k: nat, sorted: seq<nat>)
    requires AllLoaded(p, k) && 1 <= k < p.poolSize
    requires |sorted| == k && forall b :: b in sorted <==> b in p.browsers
    ensures AllLoaded(WithLaunched(p, k + 1, sorted), k + 1)
  {
    var q := WithLaunched(p, k + 1, sorted);
    forall b <- q.browsers ensures LoadedOnce(q, b, k + 1) {
      if b != k + 1 { assert b in sorted && LoadedOnce(p, b, k); }
    }
    if k + 1 == 2 { assert q.browsers[k] == 2; } else { assert 2 in sorted; }
  }

  lemma NextLaunches(start: Pool, p: Pool, k: nat)
    requires Reachable(start, 1, p) && AllLoaded(p, k) && 1 <= k < p.poolSize
    ensures ReachesLoaded(start, k + 1, p.poolSize)
  {
    var before := AtPick(p, k + 1);
    var sorted := SortedByLoad(before, p.browsers);
    SortFacts(before, p.browsers);
    assert sorted[0] in p.browsers && LoadedOnce(p, sorted[0], k);
    LoadedIsReady(p, k, k + 1);
    Launches(start, 1, p, k + 1, sorted);
    LoadedOneMore(p, k, sorted);
    assert LoadedAt(start, WithLaunched(p, k + 1, sorted), k + 1, p.poolSize);
  }

  lemma {:induction false} AllLaunch(n: nat, idleTimeout: int, now: int, k: nat)
    requires 1 <= k <= n
    ensures ReachesLoaded(Initialized(n, idleTimeout, now), k, n)
  {
    var start := Initialized(n, idleTimeout, now);
    if k == 1 {
      FirstIsCut(n, idleTimeout, now);
    } else {
      AllLaunch(n, idleTimeout, now, k - 1);
      var p :| LoadedAt(start, p, k - 1, n);
      NextLaunches(start, p, k - 1);
    }
  }

  /** The pool is full, user 2 has left its browser, and the other browsers are loaded. */
  ghost predicate TwoIsFree(p: Pool, n: nat) {
    && p.lock == Free && !p.isClosed && p.hasDriver && p.permits >= 2
    && |p.browsers| == p.poolSize && 2 in p.browsers && (forall u: UserId :: u in p.users ==> u <= n)
    && forall b <- p.browsers :: LoadedBut(p, b)
  }

  ghost predicate LoadedBut(p: Pool, b: nat) {
    IsConnected(p, b) && Load(p, b) == if b == 2 then 0 else 1
  }

  /** The pool is full and evenly loaded, and the first in its list is in use by user n + 1. */
  ghost predicate EvenlyLoaded(p: Pool, n: nat) {
    && p.lock == Free && !p.isClosed && p.hasDriver && p.permits >= 1
    && |p.browsers| == p.poolSize > 0 && p.browsers[0] == 2 && On(p, n + 1, 2)
    && (forall u: UserId :: u in p.users ==> u <= n + 1)
    && forall b <- p.browsers :: IsConnected(p, b) && Load(p, b) == 1
  }

  lemma SecondLeaves(start: Pool, p: Pool, n: nat)
    requires LoadedAt(start, p, n, n) && n >= 2
    ensures 2 in p.launched && Reachable(start, 1, WithReleased(p, 2, 2)) && TwoIsFree(WithReleased(p, 2, 2), n)
  {
    assert LoadedOnce(p, 2, n);
    ReleasesAndExits(start, 1, p, 2, 2);
    var q := WithReleased(p, 2, 2);
    forall b <- q.browsers ensures LoadedBut(q, b) { assert LoadedOnce(p, b, n); }
  }

  lemma NextIsPutOnTwo(start: Pool, p: Pool, n: nat) returns (q: Pool)
    requires Reachable(start, 1, p) && TwoIsFree(p, n)
    ensures Reachable(start, 1, q) && EvenlyLoaded(q, n)
  {
    var before := AtPick(p, n + 1);
    var sorted := SortedByLoad(before, p.browsers);
    SortFacts(before, p.browsers);
    assert LoadedBut(p, 2) && LoadedBut(p, sorted[0]);
    forall b <- p.browsers ensures IsConnected(p, b) { assert LoadedBut(p, b); }
    IsPutOn(start, 1, p, n + 1, sorted);
    q := Assign(before.(browsers := sorted), n + 1, 2);
    forall b <- q.browsers ensures IsConnected(q, b) && Load(q, b) == 1 { assert b in sorted && LoadedBut(p, b); }
  }

  lemma InsertLast(p: Pool, ids: seq<nat>, b: nat)
    requires ids == [] || Load(p, ids[|ids| - 1]) <= Load(p, b)
    ensures Insert(p, ids, b) == ids + [b]
  {
  }

  /** A stable sort leaves equally loaded browsers in their order. */
  lemma {:induction false} SortStays(p: Pool, ids: seq<nat>)
    requires forall i :: 0 <= i < |ids| ==> Load(p, ids[i]) == 1
    ensures SortedByLoad(p, ids) == ids
  {
    if ids != [] {
      var k := |ids| - 1;
      var init := ids[..k];
      SortStays(p, init);
      assert init != [] ==> init[|init| - 1] == ids[k - 1];
      InsertLast(p, init, ids[k]);
      assert init + [ids[k]] == ids;
    }
  }

  /** Picking moves nobody but the picker. */
  lemma OthersStayOn(p: Pool, u: UserId, b: nat, v: UserId)
    requires b in p.launched && v != u && On(p, v, b)
    ensures var q := Assign(AtPick(p, u), u, b); On(q, v, b) && On(q, u, b)
  {
  }

  lemma AnotherIsPutOnTwo(start: Pool, p: Pool, n: nat)
    requires Reachable(start, 1, p) && EvenlyLoaded(p, n)
    ensures MayShare(start, 1)
  {
    var u, before := n + 2, AtPick(p, n + 2);
    assert 2 in p.browsers;
    forall i | 0 <= i < |p.browsers| ensures Load(before, p.browsers[i]) == 1 { assert p.browsers[i] in p.browsers; }
    SortStays(before, p.browsers);
    assert before.(browsers := p.browsers) == before;
    IsPutOn(start, 1, p, u, p.browsers);
    OthersStayOn(p, u, 2, n + 1);
    assert SharedIn(start, 1, Assign(before, u, 2), n + 1, u, 2);
  }

  lemma OneCutLeadsToSharing(n: nat, idleTimeout: int, now: int)
    requires n >= 2
    ensures MayShare(Initialized(n, idleTimeout, now), 1)
  {
    var start := Initialized(n, idleTimeout, now);
    AllLaunch(n, idleTimeout, now, n);
    var p :| LoadedAt(start, p, n, n);
    SecondLeaves(start, p, n);
    var q := NextIsPutOnTwo(start, WithReleased(p, 2, 2), n);
    AnotherIsPutOnTwo(start, q, n);
  }

  /** Two users can come to share a browser if and only if the pool is of two or more browsers and at least one
      release may be cut off. */
  lemma SharingExactly(poolSize: nat, idleTimeout: int, now: int, most: nat)
    ensures MayShare(Initialized(poolSize, idleTimeout, now), most) <==> poolSize >= 2 && most >= 1
  {
    var start := Initialized(poolSize, idleTimeout, now);
    if MayShare(start, most) { SharingTakesTwoUsersAndACut(poolSize, idleTimeout, now, most); }
    if poolSize >= 2 && most >= 1 {
      OneCutLeadsToSharing(poolSize, idleTimeout, now);
      var p: Pool, u: UserId, v: UserId, b: nat :| SharedIn(start, 1, p, u, v, b);
      var steps :| RunsTo(start, 1, steps, p);
      assert RunsTo(start, most, steps, p);
      assert SharedIn(start, most, p, u, v, b);
    }
  }
}
