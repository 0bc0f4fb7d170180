/** The browser pool as the interleaved steps of its users: between any two awaits another user, a
    crash, the idle cleanup or the shutdown may run. The lock's holder keeps its place in `lock`. */
module BrowserPool {
  import opened Collections

  type UserId = nat

  /** One launched browser. `alive` is Playwright's own is_connected(). */
  datatype Browser = Browser(activeContexts: nat, isHealthy: bool, alive: bool, lastUsedAt: int)

  /** Where a user of get_context stands: waiting with a permit, past the closed check, with a context
      on a browser, with that context broken by an exception, or done with its browser. */
  datatype Phase = Admitted | Ready | Using(browser: nat) | Broken(browser: nat) | Leaving

  /** What the lock's holder is in the middle of. */
  datatype Lock =
    | Free
    | Pruning(user: UserId, todo: seq<nat>, kept: seq<nat>)
    | Launching(user: UserId)
    | Cleaning(todo: seq<nat>, kept: seq<nat>)
    | Closing(todo: seq<nat>)

  datatype Pool = Pool(
    poolSize: nat, idleTimeout: int,
    permits: nat, users: map<UserId, Phase>, lock: Lock,
    launched: map<nat, Browser>, browsers: seq<nat>, counter: nat,
    isClosed: bool, hasDriver: bool, clock: int)

  function Initialized(poolSize: nat, idleTimeout: int, now: int): Pool {
    Pool(poolSize, idleTimeout, poolSize, map[], Free, map[], [], 0, false, true, now)
  }

  predicate IsConnected(p: Pool, b: nat) {
    b in p.launched && p.launched[b].isHealthy && p.launched[b].alive
  }

  predicate IsIdle(p: Pool, b: nat) {
    b in p.launched && p.launched[b].activeContexts == 0 && p.clock - p.launched[b].lastUsedAt > p.idleTimeout
  }

  function Load(p: Pool, b: nat): nat {
    if b in p.launched then p.launched[b].activeContexts else 0
  }

  function Closed(p: Pool, b: nat): Pool {
    if b in p.launched
    then p.(launched := p.launched[b := p.launched[b].(isHealthy := false, alive := false)])
    else p
  }

  /** Insertion after the browsers of no more load, which makes the sort stable. */
  function Insert(p: Pool, sorted: seq<nat>, b: nat): seq<nat> {
    if sorted == [] || Load(p, sorted[|sorted| - 1]) <= Load(p, b) then sorted + [b]
    else Insert(p, sorted[..|sorted| - 1], b) + [sorted[|sorted| - 1]]
  }

  function SortedByLoad(p: Pool, ids: seq<nat>): seq<nat> {
    if ids == [] then [] else Insert(p, SortedByLoad(p, ids[..|ids| - 1]), ids[|ids| - 1])
  }

  // ---------------------------------------------------------------- steps

  /** Cancel is the cancellation of a user that has no browser yet, CutRelease of one whose release still waits
      for the lock (or for its context to close): the load is then never taken back. */
  datatype Step =
    | Enter(user: UserId)
    | CheckOpen(user: UserId)
    | TakeLock(user: UserId)
    | PruneNext
    | Pick
    | Launched(ok: bool)
    | Cancel(user: UserId)
    | RaiseInContext(user: UserId)
    | CutRelease(user: UserId)
    | Release(user: UserId)
    | Exit(user: UserId)
    | Crash(browser: nat)
    | StartCleanup
    | CleanNext
    | EndCleanup
    | StartClose
    | CloseNext
    | EndClose
    | Wait(seconds: nat)

  function Assign(p: Pool, u: UserId, b: nat): Pool
    requires b in p.launched
  {
    var pb := p.launched[b];
    p.(users := p.users[u := Using(b)],
       launched := p.launched[b := pb.(activeContexts := pb.activeContexts + 1, lastUsedAt := p.clock)],
       lock := Free)
  }

  /** After the dead browsers are dropped: take the least loaded one, or launch another. */
  function PickOrLaunch(p: Pool, u: UserId, kept: seq<nat>): Pool {
    var sorted := SortedByLoad(p, kept);
    var q := p.(browsers := sorted);
    if sorted == [] || (|sorted| < p.poolSize && Load(p, sorted[0]) > 0) || sorted[0] !in p.launched then
      if p.hasDriver then q.(counter := p.counter + 1, lock := Launching(u))
      else q.(users := p.users[u := Leaving], lock := Free)
    else Assign(q, u, sorted[0])
  }

  predicate HoldsLock(p: Pool, u: UserId) {
    (p.lock.Pruning? || p.lock.Launching?) && p.lock.user == u
  }

  /** The step's effect; a step that is not possible now changes nothing. */
  function Apply(p: Pool, step: Step): Pool {
    match step
    case Enter(u) =>
      if u !in p.users && p.permits > 0 then p.(permits := p.permits - 1, users := p.users[u := Admitted]) else p
    case CheckOpen(u) =>
      if u in p.users && p.users[u] == Admitted then
        p.(users := p.users[u := if p.isClosed then Leaving else Ready])
      else p
    case TakeLock(u) =>
      if u in p.users && p.users[u] == Ready && p.lock == Free then p.(lock := Pruning(u, p.browsers, [])) else p
    case PruneNext =>
      if p.lock.Pruning? && p.lock.todo != [] then
        var b := p.lock.todo[0];
        if IsConnected(p, b) then p.(lock := Pruning(p.lock.user, p.lock.todo[1..], p.lock.kept + [b]))
        else Closed(p.(lock := Pruning(p.lock.user, p.lock.todo[1..], p.lock.kept)), b)
      else p
    case Pick =>
      if p.lock.Pruning? && p.lock.todo == [] then PickOrLaunch(p, p.lock.user, p.lock.kept) else p
    case Launched(ok) =>
      if p.lock.Launching? then
        var u := p.lock.user;
        if ok then
          Assign(p.(launched := p.launched[p.counter := Browser(0, true, true, p.clock)],
                    browsers := p.browsers + [p.counter]),
                 u, p.counter)
        else p.(users := p.users[u := Leaving], lock := Free)
      else p
    case Cancel(u) =>
      if u in p.users && (p.users[u] == Admitted || p.users[u] == Ready) then
        p.(users := p.users[u := Leaving], lock := if HoldsLock(p, u) then Free else p.lock)
      else p
    case CutRelease(u) =>
      if u in p.users && (p.users[u].Using? || p.users[u].Broken?) then p.(users := p.users[u := Leaving]) else p
    case RaiseInContext(u) =>
      if u in p.users && p.users[u].Using? && p.users[u].browser in p.launched then
        var b := p.users[u].browser;
        p.(users := p.users[u := Broken(b)], launched := p.launched[b := p.launched[b].(isHealthy := false)])
      else p
    case Release(u) =>
      if u in p.users && (p.users[u].Using? || p.users[u].Broken?) && p.users[u].browser in p.launched
         && p.lock == Free then
        var b := p.users[u].browser;
        var pb := p.launched[b];
        p.(users := p.users[u := Leaving],
           launched := p.launched[b :=
             pb.(activeContexts := if pb.activeContexts == 0 then 0 else pb.activeContexts - 1, lastUsedAt := p.clock)])
      else p
    case Exit(u) =>
      if u in p.users && p.users[u] == Leaving then p.(users := p.users - {u}, permits := p.permits + 1) else p
    case Crash(b) =>
      if b in p.launched then p.(launched := p.launched[b := p.launched[b].(alive := false)]) else p
    case StartCleanup =>
      if p.lock == Free then p.(lock := Cleaning(p.browsers, [])) else p
    case CleanNext =>
      if p.lock.Cleaning? && p.lock.todo != [] then
        var b := p.lock.todo[0];
        if IsIdle(p, b) || !IsConnected(p, b) then Closed(p.(lock := Cleaning(p.lock.todo[1..], p.lock.kept)), b)
        else p.(lock := Cleaning(p.lock.todo[1..], p.lock.kept + [b]))
      else p
    case EndCleanup =>
      if p.lock.Cleaning? && p.lock.todo == [] then p.(browsers := p.lock.kept, lock := Free) else p
    case StartClose =>
      if p.lock == Free then p.(isClosed := true, lock := Closing(p.browsers)) else p
    case CloseNext =>
      if p.lock.Closing? && p.lock.todo != [] then Closed(p.(lock := Closing(p.lock.todo[1..])), p.lock.todo[0]) else p
    case EndClose =>
      if p.lock.Closing? && p.lock.todo == [] then p.(browsers := [], hasDriver := false, lock := Free) else p
    case Wait(seconds) => p.(clock := p.clock + seconds)
  }

  function Run(p: Pool, steps: seq<Step>): Pool
    decreases |steps|
  {
    if steps == [] then p else Run(Apply(p, steps[0]), steps[1..])
  }

  // ---------------------------------------------------------------- the invariant

  /** The user has an open context on the browser. */
  predicate On(p: Pool, u: UserId, b: nat) {
    u in p.users && (p.users[u] == Using(b) || p.users[u] == Broken(b))
  }

  /** A launched browser's load is 1 while a user is on it, else 0. */
  ghost predicate LoadOk(p: Pool, b: nat) {
    b in p.launched ==>
      && 1 <= b <= p.counter
      && p.launched[b].activeContexts <= 1
      && (p.launched[b].activeContexts == 1 <==> exists u: UserId :: On(p, u, b))
  }

  ghost predicate NotShared(p: Pool, u: UserId, v: UserId, b: nat) {
    On(p, u, b) && On(p, v, b) ==> u == v
  }

  ghost predicate OnLaunched(p: Pool, u: UserId, b: nat) {
    On(p, u, b) ==> b in p.launched
  }

  /** A list of distinct launched browsers. */
  ghost predicate Listed(p: Pool, ids: seq<nat>) {
    NoDuplicates(ids) && forall b <- ids :: b in p.launched
  }

  /** A scan's two halves together are part of the pool's list. */
  ghost predicate ScanOk(p: Pool, todo: seq<nat>, kept: seq<nat>) {
    Listed(p, kept + todo) && |kept| + |todo| <= |p.browsers|
  }

  /** A browser passed by the pruning scan is healthy unless its user broke it since. */
  ghost predicate KeptOk(p: Pool, b: nat) {
    b in p.launched && (p.launched[b].isHealthy || p.launched[b].activeContexts > 0)
  }

  /** The lock's holder is a user that waits for a browser, and its scan is part of the list. */
  ghost predicate LockHeld(p: Pool) {
    match p.lock
    case Free => true
    case Pruning(u, todo, kept) => u in p.users && p.users[u] == Ready && ScanOk(p, todo, kept)
    case Launching(u) =>
      u in p.users && p.users[u] == Ready && |p.browsers| < p.poolSize && p.counter !in p.launched && p.counter >= 1
    case Cleaning(todo, kept) => ScanOk(p, todo, kept)
    case Closing(todo) => ScanOk(p, todo, [])
  }

  ghost predicate LockOk(p: Pool) {
    LockHeld(p) && (p.lock.Pruning? ==> forall b <- p.lock.kept :: KeptOk(p, b))
  }

  ghost predicate Inv(p: Pool) {
    && p.permits + |p.users| == p.poolSize
    && Listed(p, p.browsers) && |p.browsers| <= p.poolSize
    && (forall b: nat :: LoadOk(p, b))
    && (forall u: UserId, v: UserId, b: nat :: NotShared(p, u, v, b))
    && (forall u: UserId, b: nat :: OnLaunched(p, u, b))
    && LockOk(p)
  }

  // ---------------------------------------------------------------- picking a browser

  lemma {:induction false} InsertFacts(p: Pool, sorted: seq<nat>, b: nat)
    requires sorted != [] ==> forall c <- sorted :: Load(p, sorted[0]) <= Load(p, c)
    ensures var r := Insert(p, sorted, b);
            && |r| == |sorted| + 1
            && (forall c :: c in r <==> c in sorted || c == b)
            && (forall c <- r :: Load(p, r[0]) <= Load(p, c))
            && (NoDuplicates(sorted) && b !in sorted ==> NoDuplicates(r))
  {
    if sorted != [] && Load(p, sorted[|sorted| - 1]) > Load(p, b) {
      var init := sorted[..|sorted| - 1];
      assert sorted == init + [sorted[|sorted| - 1]];
      assert init != [] ==> init[0] == sorted[0];
      InsertFacts(p, init, b);
      assert NoDuplicates(sorted) ==> NoDuplicates(init) && sorted[|sorted| - 1] !in init;
    }
  }

  lemma {:induction false} SortFacts(p: Pool, ids: seq<nat>)
    ensures var r := SortedByLoad(p, ids);
            && |r| == |ids|
            && (forall c :: c in r <==> c in ids)
            && (forall c <- r :: Load(p, r[0]) <= Load(p, c))
            && (NoDuplicates(ids) ==> NoDuplicates(r))
  {
    if ids != [] {
      var init := ids[..|ids| - 1];
      assert ids == init + [ids[|ids| - 1]];
      SortFacts(p, init);
      InsertFacts(p, SortedByLoad(p, init), ids[|ids| - 1]);
    }
  }

  /** Pigeonhole: distinct browsers that are all in use are fewer than the permit holders when one
      holder uses none. */
  lemma {:induction false} FewerBrowsersThanUsers(ids: seq<nat>, users: map<UserId, Phase>, idle: UserId,
                                                  owner: nat -> UserId)
    requires NoDuplicates(ids)
    requires idle in users && !users[idle].Using? && !users[idle].Broken?
    requires forall b <- ids :: owner(b) in users && (users[owner(b)] == Using(b) || users[owner(b)] == Broken(b))
    ensures |ids| < |users|
    decreases |ids|
  {
    if ids == [] {
      assert idle in users.Keys && |users| == |users.Keys|;
    } else {
      var b := ids[|ids| - 1];
      var init := ids[..|ids| - 1];
      var rest := users - {owner(b)};
      assert rest.Keys == users.Keys - {owner(b)};
      assert |rest| == |users| - 1;
      forall c <- init
        ensures owner(c) in rest && (rest[owner(c)] == Using(c) || rest[owner(c)] == Broken(c))
      {
        assert c in ids && c != b;
      }
      FewerBrowsersThanUsers(init, rest, idle, owner);
    }
  }

  // ---------------------------------------------------------------- every step keeps the invariant

  /** A step that leaves every user on its browser and every load as it was. */
  lemma SameClaims(p: Pool, q: Pool)
    requires Inv(p) && q.permits + |q.users| == q.poolSize && q.counter >= p.counter
    requires forall u: UserId, b: nat :: On(q, u, b) == On(p, u, b)
    requires forall b: nat :: b in q.launched <==> b in p.launched
    requires forall b <- p.launched :: q.launched[b].activeContexts == p.launched[b].activeContexts
    requires Listed(q, q.browsers) && |q.browsers| <= q.poolSize && LockOk(q)
    ensures Inv(q)
  {
    forall b: nat ensures LoadOk(q, b) {
      assert LoadOk(p, b);
      if b in p.launched && p.launched[b].activeContexts == 1 {
        var u: UserId :| On(p, u, b);
        assert On(q, u, b);
      }
    }
    forall u: UserId, v: UserId, b: nat ensures NotShared(q, u, v, b) { assert NotShared(p, u, v, b); }
    forall u: UserId, b: nat ensures OnLaunched(q, u, b) { assert OnLaunched(p, u, b); }
  }

  /** Giving a free browser to a user that waits for one. */
  lemma AssignKeeps(p: Pool, u: UserId, b: nat)
    requires Inv(p) && u in p.users && p.users[u] == Ready && b in p.launched && p.launched[b].activeContexts == 0
    ensures Inv(Assign(p, u, b))
  {
    var q := Assign(p, u, b);
    assert q.users.Keys == p.users.Keys && |q.users| == |q.users.Keys|;
    assert LoadOk(p, b);
    assert forall v: UserId, c: nat :: On(q, v, c) <==> (if v == u then c == b else On(p, v, c));
    assert On(q, u, b);
    forall c: nat ensures LoadOk(q, c) {
      assert LoadOk(p, c);
      if c != b && c in p.launched && p.launched[c].activeContexts == 1 {
        var v: UserId :| On(p, v, c);
        assert On(q, v, c);
      }
    }
    forall v: UserId, w: UserId, c: nat ensures NotShared(q, v, w, c) { assert NotShared(p, v, w, c); }
    forall v: UserId, c: nat ensures OnLaunched(q, v, c) { assert OnLaunched(p, v, c); }
  }

  lemma ReleaseKeeps(p: Pool, u: UserId)
    requires Inv(p)
    ensures Inv(Apply(p, Release(u)))
  {
    var q := Apply(p, Release(u));
    if q != p {
      var b := p.users[u].browser;
      assert On(p, u, b) && LoadOk(p, b);
      assert q.users.Keys == p.users.Keys && |q.users| == |q.users.Keys|;
      assert forall v: UserId, c: nat :: On(q, v, c) <==> v != u && On(p, v, c);
      forall c: nat ensures LoadOk(q, c) {
        assert LoadOk(p, c);
        if v: UserId :| On(q, v, c) { assert NotShared(p, u, v, c); }
        if c != b && c in p.launched && p.launched[c].activeContexts == 1 {
          var v: UserId :| On(p, v, c);
          assert OnOne(p, v, c, b) && On(q, v, c);
        }
      }
      forall v: UserId, w: UserId, c: nat ensures NotShared(q, v, w, c) { assert NotShared(p, v, w, c); }
      forall v: UserId, c: nat ensures OnLaunched(q, v, c) { assert OnLaunched(p, v, c); }
    }
  }

  ghost predicate OnOne(p: Pool, u: UserId, b: nat, c: nat) {
    On(p, u, b) && On(p, u, c) ==> b == c
  }

  ghost function Owner(p: Pool, b: nat): UserId {
    if exists u: UserId :: On(p, u, b) then var u: UserId :| On(p, u, b); u else 0
  }

  /** If the least loaded browser is busy, they all are, and the user that picks is one more. */
  lemma RoomToLaunch(p: Pool, u: UserId, ids: seq<nat>)
    requires Inv(p) && u in p.users && p.users[u] == Ready && Listed(p, ids)
    requires forall b <- ids :: Load(p, b) > 0
    ensures |ids| < p.poolSize
  {
    forall b <- ids
      ensures On(p, Owner(p, b), b)
    {
      assert LoadOk(p, b);
      var v: UserId :| On(p, v, b);
    }
    FewerBrowsersThanUsers(ids, p.users, u, b => Owner(p, b));
  }

  /** Starting a launch, or failing to, leaves every claim as it was. */
  lemma StartLaunch(p: Pool, u: UserId, ids: seq<nat>)
    requires Inv(p) && u in p.users && p.users[u] == Ready
    requires Listed(p, ids) && |ids| < p.poolSize
    ensures Inv(p.(browsers := ids, counter := p.counter + 1, lock := Launching(u)))
    ensures Inv(p.(browsers := ids, users := p.users[u := Leaving], lock := Free))
  {
    forall b: nat ensures b in p.launched ==> b <= p.counter { assert LoadOk(p, b); }
    SameClaims(p, p.(browsers := ids, counter := p.counter + 1, lock := Launching(u)));
    var r := p.(browsers := ids, users := p.users[u := Leaving], lock := Free);
    assert r.users.Keys == p.users.Keys && |r.users| == |r.users.Keys| && |p.users| == |p.users.Keys|;
    SameClaims(p, r);
  }

  lemma Relist(p: Pool, ids: seq<nat>)
    requires Inv(p) && Listed(p, ids) && |ids| <= p.poolSize
    ensures Inv(p.(browsers := ids, lock := Free))
  {
    SameClaims(p, p.(browsers := ids, lock := Free));
  }

  lemma PutOnKeeps(p: Pool, sorted: seq<nat>)
    requires Inv(p) && p.lock.Pruning? && Listed(p, sorted) && |sorted| <= p.poolSize
    requires sorted != [] && Load(p, sorted[0]) == 0
    ensures sorted[0] in p.launched && Inv(Assign(p.(browsers := sorted), p.lock.user, sorted[0]))
  {
    var u := p.lock.user;
    assert sorted[0] in sorted;
    Relist(p, sorted);
    var q := p.(browsers := sorted, lock := Free);
    AssignKeeps(q, u, sorted[0]);
    assert Assign(p.(browsers := sorted), u, sorted[0]) == Assign(q, u, sorted[0]);
  }

  lemma PickKeeps(p: Pool)
    requires Inv(p) && p.lock.Pruning? && p.lock.todo == []
    ensures Inv(Apply(p, Pick))
  {
    var u, kept := p.lock.user, p.lock.kept;
    var sorted := SortedByLoad(p, kept);
    assert kept + [] == kept;
    SortFacts(p, kept);
    assert Listed(p, sorted);
    if sorted == [] {
      assert u in p.users.Keys && |p.users| == |p.users.Keys| > 0;
      StartLaunch(p, u, sorted);
    } else if Load(p, sorted[0]) > 0 {
      RoomToLaunch(p, u, sorted);
      StartLaunch(p, u, sorted);
    } else {
      PutOnKeeps(p, sorted);
    }
  }

  lemma LaunchedKeeps(p: Pool, ok: bool)
    requires Inv(p) && p.lock.Launching?
    ensures Inv(Apply(p, Launched(ok)))
  {
    var u := p.lock.user;
    var b := p.counter;
    if ok {
      var q := p.(launched := p.launched[b := Browser(0, true, true, p.clock)],
                  browsers := p.browsers + [b], lock := Free);
      forall c: nat ensures LoadOk(q, c) {
        assert LoadOk(p, c);
        assert forall v: UserId :: On(q, v, c) == On(p, v, c);
        forall v: UserId ensures c == b ==> !On(q, v, c) { assert OnLaunched(p, v, c); }
        if c != b && c in p.launched && p.launched[c].activeContexts == 1 {
          var v: UserId :| On(p, v, c);
          assert On(q, v, c);
        }
      }
      forall v: UserId, w: UserId, c: nat ensures NotShared(q, v, w, c) { assert NotShared(p, v, w, c); }
      forall v: UserId, c: nat ensures OnLaunched(q, v, c) { assert OnLaunched(p, v, c); }
      assert Inv(q);
      AssignKeeps(q, u, b);
      assert Apply(p, Launched(ok)) == Assign(q, u, b);
    } else {
      var q := Apply(p, Launched(ok));
      assert q.users.Keys == p.users.Keys && |q.users| == |q.users.Keys|;
      SameClaims(p, q);
    }
  }

  lemma ScanAdvances(p: Pool, todo: seq<nat>, kept: seq<nat>)
    requires ScanOk(p, todo, kept) && todo != []
    ensures todo[0] in p.launched && todo[0] !in kept
    ensures ScanOk(p, todo[1..], kept) && ScanOk(p, todo[1..], kept + [todo[0]])
  {
    var all, fewer := kept + todo, kept + todo[1..];
    assert all[|kept|] == todo[0];
    assert forall i :: 0 <= i < |kept| ==> all[i] == kept[i];
    assert kept + [todo[0]] + todo[1..] == all;
    assert forall i :: 0 <= i < |fewer| ==> fewer[i] == all[if i < |kept| then i else i + 1];
    forall b <- fewer
      ensures b in p.launched
    {
      assert b in all;
    }
  }

  lemma ScanSame(p: Pool, q: Pool, todo: seq<nat>, kept: seq<nat>)
    requires ScanOk(p, todo, kept) && q.browsers == p.browsers && forall b: nat :: b in q.launched <==> b in p.launched
    ensures ScanOk(q, todo, kept)
  {
  }

  /** The lock's holder does not mind what other users do. */
  lemma LockStays(p: Pool, q: Pool)
    requires LockHeld(p) && q.lock == p.lock && q.browsers == p.browsers
    requires q.poolSize == p.poolSize && q.counter == p.counter
    requires forall b: nat :: b in q.launched <==> b in p.launched
    requires p.lock.Pruning? || p.lock.Launching? ==>
               p.lock.user in q.users && (p.users[p.lock.user] == Ready ==> q.users[p.lock.user] == Ready)
    ensures LockHeld(q)
    ensures LockOk(p) && (forall b: nat :: KeptOk(p, b) ==> KeptOk(q, b)) ==> LockOk(q)
  {
    match p.lock {
      case Pruning(_, todo, kept) => ScanSame(p, q, todo, kept);
      case Cleaning(todo, kept) => ScanSame(p, q, todo, kept);
      case Closing(todo) => ScanSame(p, q, todo, []);
      case _ =>
    }
  }

  /** One step of a scan: the lock moves on, and the browser it passes may be closed if the scan drops it. */
  lemma ScanKeeps(p: Pool, q: Pool, lock: Lock, b: nat)
    requires Inv(p) && LockHeld(p.(lock := lock))
    requires lock.Pruning? ==> forall c <- lock.kept :: KeptOk(p, c)
    requires q == p.(lock := lock) || (q == Closed(p.(lock := lock), b) && (lock.Pruning? ==> b !in lock.kept))
    ensures Inv(q)
  {
    LockStays(p.(lock := lock), q);
    SameClaims(p, q);
  }

  lemma PruneNextKeeps(p: Pool)
    requires Inv(p)
    ensures Inv(Apply(p, PruneNext))
  {
    if p.lock.Pruning? && p.lock.todo != [] {
      var u, todo, kept := p.lock.user, p.lock.todo, p.lock.kept;
      ScanAdvances(p, todo, kept);
      var keep := IsConnected(p, todo[0]);
      ScanKeeps(p, Apply(p, PruneNext), Pruning(u, todo[1..], if keep then kept + [todo[0]] else kept), todo[0]);
    }
  }

  lemma CleanNextKeeps(p: Pool)
    requires Inv(p)
    ensures Inv(Apply(p, CleanNext))
  {
    if p.lock.Cleaning? && p.lock.todo != [] {
      var todo, kept := p.lock.todo, p.lock.kept;
      ScanAdvances(p, todo, kept);
      var drop := IsIdle(p, todo[0]) || !IsConnected(p, todo[0]);
      ScanKeeps(p, Apply(p, CleanNext), Cleaning(todo[1..], if drop then kept else kept + [todo[0]]), todo[0]);
    }
  }

  lemma CloseNextKeeps(p: Pool)
    requires Inv(p)
    ensures Inv(Apply(p, CloseNext))
  {
    if p.lock.Closing? && p.lock.todo != [] {
      ScanAdvances(p, p.lock.todo, []);
      ScanKeeps(p, Apply(p, CloseNext), Closing(p.lock.todo[1..]), p.lock.todo[0]);
    }
  }

  lemma OneMoreUser(users: map<UserId, Phase>, u: UserId, phase: Phase)
    requires u !in users
    ensures |users[u := phase]| == |users| + 1
  {
    assert users[u := phase].Keys == users.Keys + {u};
    assert |users| == |users.Keys| && |users[u := phase]| == |users[u := phase].Keys|;
  }

  lemma EnterKeeps(p: Pool, u: UserId)
    requires Inv(p)
    ensures Inv(Apply(p, Enter(u)))
  {
    if u !in p.users && p.permits > 0 {
      var q := p.(permits := p.permits - 1, users := p.users[u := Admitted]);
      OneMoreUser(p.users, u, Admitted);
      LockStays(p, q);
      SameClaims(p, q);
    }
  }

  lemma CheckOpenKeeps(p: Pool, u: UserId)
    requires Inv(p)
    ensures Inv(Apply(p, CheckOpen(u)))
  {
    var q := Apply(p, CheckOpen(u));
    if q != p {
      assert q.users.Keys == p.users.Keys && |p.users| == |p.users.Keys| && |q.users| == |q.users.Keys|;
      LockStays(p, q);
      SameClaims(p, q);
    }
  }

  lemma ExitKeeps(p: Pool, u: UserId)
    requires Inv(p)
    ensures Inv(Apply(p, Exit(u)))
  {
    var q := Apply(p, Exit(u));
    if q != p {
      assert q.users.Keys == p.users.Keys - {u} && |p.users| == |p.users.Keys| && |q.users| == |q.users.Keys|;
      LockStays(p, q);
      SameClaims(p, q);
    }
  }

  lemma TakeLockKeeps(p: Pool, u: UserId)
    requires Inv(p)
    ensures Inv(Apply(p, TakeLock(u)))
  {
    if Apply(p, TakeLock(u)) != p {
      assert [] + p.browsers == p.browsers;
      SameClaims(p, Apply(p, TakeLock(u)));
    }
  }

  lemma RaiseKeeps(p: Pool, u: UserId)
    requires Inv(p)
    ensures Inv(Apply(p, RaiseInContext(u)))
  {
    var q := Apply(p, RaiseInContext(u));
    if q != p {
      var b := p.users[u].browser;
      assert On(p, u, b) && LoadOk(p, b);
      assert q.users.Keys == p.users.Keys && |p.users| == |p.users.Keys| && |q.users| == |q.users.Keys|;
      LockStays(p, q);
      SameClaims(p, q);
    }
  }

  lemma CleanupKeeps(p: Pool)
    requires Inv(p)
    ensures Inv(Apply(p, StartCleanup)) && Inv(Apply(p, EndCleanup))
  {
    if p.lock == Free {
      assert [] + p.browsers == p.browsers;
      SameClaims(p, Apply(p, StartCleanup));
    }
    if p.lock.Cleaning? && p.lock.todo == [] {
      assert p.lock.kept + p.lock.todo == p.lock.kept;
      SameClaims(p, Apply(p, EndCleanup));
    }
  }

  lemma CloseKeeps(p: Pool)
    requires Inv(p)
    ensures Inv(Apply(p, StartClose)) && Inv(Apply(p, EndClose))
  {
    if p.lock == Free {
      assert [] + p.browsers == p.browsers;
      SameClaims(p, Apply(p, StartClose));
    }
    if p.lock.Closing? && p.lock.todo == [] {
      SameClaims(p, Apply(p, EndClose));
    }
  }

  lemma CrashKeeps(p: Pool, b: nat)
    requires Inv(p)
    ensures Inv(Apply(p, Crash(b)))
  {
    var q := Apply(p, Crash(b));
    if q != p {
      LockStays(p, q);
      SameClaims(p, q);
    }
  }

  lemma WaitKeeps(p: Pool, seconds: nat)
    requires Inv(p)
    ensures Inv(Apply(p, Wait(seconds)))
  {
    LockStays(p, Apply(p, Wait(seconds)));
    SameClaims(p, Apply(p, Wait(seconds)));
  }

  lemma CancelKeeps(p: Pool, u: UserId)
    requires Inv(p)
    ensures Inv(Apply(p, Cancel(u)))
  {
    var q := Apply(p, Cancel(u));
    if q != p {
      assert q.users.Keys == p.users.Keys && |p.users| == |p.users.Keys| && |q.users| == |q.users.Keys|;
      if !HoldsLock(p, u) { LockStays(p, q); }
      SameClaims(p, q);
    }
  }

  /** The user is cut off on its way out of a browser. */
  predicate CutsRelease(p: Pool, step: Step) {
    step.CutRelease? && step.user in p.users && (p.users[step.user].Using? || p.users[step.user].Broken?)
  }

  /** A load without a user is left behind. */
  lemma CutLeaks(p: Pool, step: Step)
    requires Inv(p) && CutsRelease(p, step)
    ensures !Inv(Apply(p, step))
  {
    var u := step.user;
    var b := p.users[u].browser;
    var q := Apply(p, step);
    assert On(p, u, b) && OnLaunched(p, u, b) && LoadOk(p, b);
    forall v: UserId ensures !On(q, v, b) {
      assert NotShared(p, u, v, b);
    }
    assert !LoadOk(q, b);
  }

  /** Every step keeps the invariant but one: a step keeps it if and only if it does not cut off a release. */
  lemma StepKeepsExactly(p: Pool, step: Step)
    requires Inv(p)
    ensures Inv(Apply(p, step)) <==> !CutsRelease(p, step)
  {
    if CutsRelease(p, step) { CutLeaks(p, step); } else { StepKeeps(p, step); }
  }

  lemma StepKeeps(p: Pool, step: Step)
    requires Inv(p) && !CutsRelease(p, step)
    ensures Inv(Apply(p, step))
  {
    match step
    case PruneNext => PruneNextKeeps(p);
    case CleanNext => CleanNextKeeps(p);
    case CloseNext => CloseNextKeeps(p);
    case Pick => if Apply(p, step) != p { PickKeeps(p); }
    case Launched(ok) => if Apply(p, step) != p { LaunchedKeeps(p, ok); }
    case Release(u) => ReleaseKeeps(p, u);
    case Enter(u) => EnterKeeps(p, u);
    case CheckOpen(u) => CheckOpenKeeps(p, u);
    case TakeLock(u) => TakeLockKeeps(p, u);
    case Exit(u) => ExitKeeps(p, u);
    case Cancel(u) => CancelKeeps(p, u);
    case CutRelease(u) =>
    case RaiseInContext(u) => RaiseKeeps(p, u);
    case StartCleanup => CleanupKeeps(p);
    case EndCleanup => CleanupKeeps(p);
    case StartClose => CloseKeeps(p);
    case EndClose => CloseKeeps(p);
    case Crash(b) => CrashKeeps(p, b);
    case Wait(seconds) => WaitKeeps(p, seconds);
  }

  // ---------------------------------------------------------------- the results

  /** No user is cut off on its way out. */
  predicate NoneCut(steps: seq<Step>) {
    forall s <- steps :: !s.CutRelease?
  }

  lemma {:induction false} RunKeeps(p: Pool, steps: seq<Step>)
    requires Inv(p) && NoneCut(steps)
    ensures Inv(Run(p, steps))
    decreases |steps|
  {
    if steps != [] {
      assert steps[0] in steps && forall s <- steps[1..] :: s in steps;
      StepKeeps(p, steps[0]);
      RunKeeps(Apply(p, steps[0]), steps[1..]);
    }
  }

  lemma InitializedOk(poolSize: nat, idleTimeout: int, now: int)
    ensures Inv(Initialized(poolSize, idleTimeout, now))
  {
    var start := Initialized(poolSize, idleTimeout, now);
    forall b: nat ensures LoadOk(start, b) {}
  }

  /** In every state any interleaving of get_context users, cancelled ones among them, crashes, cleanups and a
      shutdown can reach, if no release was cut off: no browser serves two contexts, its recorded load is 1
      exactly while a user is on it, and the pool lists at most pool_size browsers. */
  lemma OneContextPerBrowser(poolSize: nat, idleTimeout: int, now: int, steps: seq<Step>, u: UserId, v: UserId, b: nat)
    requires NoneCut(steps)
    ensures var p := Run(Initialized(poolSize, idleTimeout, now), steps);
            && |p.browsers| <= poolSize && NoDuplicates(p.browsers)
            && p.permits + |p.users| == poolSize
            && (On(p, u, b) && On(p, v, b) ==> u == v)
            && (b in p.launched ==> p.launched[b].activeContexts == if exists w: UserId :: On(p, w, b) then 1 else 0)
  {
    var start := Initialized(poolSize, idleTimeout, now);
    InitializedOk(poolSize, idleTimeout, now);
    RunKeeps(start, steps);
    SameSize(start, steps);
    var p := Run(start, steps);
    assert NotShared(p, u, v, b) && LoadOk(p, b);
  }

  lemma SameSizeStep(p: Pool, step: Step)
    ensures Apply(p, step).poolSize == p.poolSize
  {
  }

  lemma {:induction false} SameSize(p: Pool, steps: seq<Step>)
    ensures Run(p, steps).poolSize == p.poolSize
    decreases |steps|
  {
    if steps != [] {
      SameSizeStep(p, steps[0]);
      SameSize(Apply(p, steps[0]), steps[1..]);
    }
  }

  /** A user is only ever handed a browser that no one else is on and that the pool holds healthy. */
  lemma HandsOutFreshBrowsers(p: Pool, step: Step, u: UserId, b: nat)
    requires Inv(p) && !On(p, u, b) && On(Apply(p, step), u, b)
    ensures !exists v: UserId :: On(p, v, b)
    ensures var q := Apply(p, step); b in q.launched && q.launched[b].isHealthy && q.launched[b].activeContexts == 1
  {
    if step.Pick? {
      PickHandsOut(p, u, b);
    } else if step.Launched? {
      forall v: UserId ensures !On(p, v, b) { assert OnLaunched(p, v, b); }
    } else {
      assert false;
    }
  }

  /** A browser that is picked and not launched has no load: otherwise there was room to launch. */
  lemma PickedIsFree(p: Pool)
    requires Inv(p) && p.lock.Pruning? && p.lock.todo == []
    ensures
      var sorted := SortedByLoad(p, p.lock.kept);
      && (forall b <- sorted :: b in p.lock.kept && b in p.launched)
      && (sorted != [] ==> Load(p, sorted[0]) == 0 || |sorted| < p.poolSize)
  {
    var kept := p.lock.kept;
    var sorted := SortedByLoad(p, kept);
    SortFacts(p, kept);
    assert kept + [] == kept;
    if sorted != [] && Load(p, sorted[0]) > 0 { RoomToLaunch(p, p.lock.user, sorted); }
  }

  /** Picking gives the picker a kept browser that nobody is on. */
  lemma PickAssigns(p: Pool, u: UserId, b: nat)
    requires Inv(p) && !On(p, u, b) && On(Apply(p, Pick), u, b)
    ensures p.lock.Pruning? && b in p.lock.kept && b in p.launched && p.launched[b].activeContexts == 0
    ensures Apply(p, Pick) == Assign(p.(browsers := SortedByLoad(p, p.lock.kept)), u, b)
  {
    PickedIsFree(p);
  }

  lemma PickHandsOut(p: Pool, u: UserId, b: nat)
    requires Inv(p) && !On(p, u, b) && On(Apply(p, Pick), u, b)
    ensures !exists v: UserId :: On(p, v, b)
    ensures var q := Apply(p, Pick); b in q.launched && q.launched[b].isHealthy && q.launched[b].activeContexts == 1
  {
    PickAssigns(p, u, b);
    assert KeptOk(p, b) && LoadOk(p, b);
  }

  /** Shut down: driver gone, nothing listed, nothing under way but scans of nothing. */
  ghost predicate ShutDown(p: Pool) {
    && p.isClosed && !p.hasDriver && p.browsers == [] && !p.lock.Launching?
    && (p.lock.Pruning? || p.lock.Cleaning? ==> p.lock.todo == [] && p.lock.kept == [])
  }

  lemma ShutDownStays(p: Pool, step: Step)
    requires ShutDown(p)
    ensures ShutDown(Apply(p, step))
    ensures Apply(p, step).counter == p.counter && Apply(p, step).launched.Keys == p.launched.Keys
  {
    if step.Pick? { assert SortedByLoad(p, []) == []; }
  }

  /** After the shutdown no browser is launched or listed again, whatever users still try. */
  lemma {:induction false} ClosedForGood(p: Pool, steps: seq<Step>)
    requires ShutDown(p)
    ensures var q := Run(p, steps); q.browsers == [] && q.counter == p.counter && q.launched.Keys == p.launched.Keys
    decreases |steps|
  {
    if steps != [] {
      ShutDownStays(p, steps[0]);
      ClosedForGood(Apply(p, steps[0]), steps[1..]);
    }
  }
}
