/** What holds of the browser pool in every run, also when releases are cut off: its size, its permits, and
    what a browser's recorded load counts. */
module BrowserPoolLoads {
  import opened Collections
  import opened BrowserPool

  ghost function UsersOn(p: Pool, b: nat): set<UserId> {
    set u: UserId | u in p.users && On(p, u, b)
  }

  /** The part of a browser's load that no user accounts for. */
  ghost function Leak(p: Pool, b: nat): int {
    Load(p, b) - |UsersOn(p, b)|
  }

  ghost predicate Covered(p: Pool, b: nat) {
    Leak(p, b) >= 0 && (b in p.launched ==> b <= p.counter)
  }

  /** The invariant that cut releases do not break. */
  ghost predicate Sound(p: Pool) {
    && p.permits + |p.users| == p.poolSize
    && Listed(p, p.browsers) && |p.browsers| <= p.poolSize
    && (forall b: nat :: Covered(p, b))
    && (forall u: UserId, b: nat :: OnLaunched(p, u, b))
    && LockHeld(p)
  }

  /** The step cuts off a release from this browser. */
  predicate CutsFrom(p: Pool, step: Step, b: nat) {
    step.CutRelease? && On(p, step.user, b)
  }

  /** A load loses its user when, and only when, a release from the browser is cut off. */
  ghost predicate LeakMoves(p: Pool, step: Step, b: nat) {
    Leak(Apply(p, step), b) == Leak(p, b) + if CutsFrom(p, step, b) then 1 else 0
  }

  ghost predicate SameLeak(p: Pool, q: Pool, b: nat) {
    Leak(q, b) == Leak(p, b)
  }

  /** What every step but a cut release does. */
  ghost predicate Kept(p: Pool, q: Pool) {
    Sound(q) && forall b: nat :: SameLeak(p, q, b)
  }

  // ---------------------------------------------------------------- steps that move no user

  ghost predicate SameOn(p: Pool, q: Pool, b: nat) {
    (forall u: UserId :: On(q, u, b) == On(p, u, b)) && Load(q, b) == Load(p, b)
  }

  lemma SameOnSameLeak(p: Pool, q: Pool, b: nat)
    requires SameOn(p, q, b)
    ensures SameLeak(p, q, b)
  {
    assert UsersOn(q, b) == UsersOn(p, b);
  }

  /** Every user stays on its browser and every load is as it was. */
  lemma NobodyMoves(p: Pool, q: Pool)
    requires Sound(p) && q.permits + |q.users| == q.poolSize && q.counter >= p.counter
    requires forall b: nat :: SameOn(p, q, b)
    requires forall b: nat :: b in q.launched <==> b in p.launched
    requires Listed(q, q.browsers) && |q.browsers| <= q.poolSize && LockHeld(q)
    ensures Kept(p, q)
  {
    forall b: nat ensures Covered(q, b) && SameLeak(p, q, b) {
      assert Covered(p, b) && SameOn(p, q, b);
      SameOnSameLeak(p, q, b);
    }
    forall u: UserId, b: nat ensures OnLaunched(q, u, b) { assert OnLaunched(p, u, b) && SameOn(p, q, b); }
  }

  lemma SizeByKeys(users: map<UserId, Phase>)
    ensures |users| == |users.Keys|
  {
  }

  /** Only the phase of one user changes, and that user is on no browser before or after. */
  lemma PhaseMoves(p: Pool, u: UserId, phase: Phase, lock: Lock)
    requires Sound(p) && u in p.users && !p.users[u].Using? && !p.users[u].Broken? && !phase.Using? && !phase.Broken?
    requires LockHeld(p.(users := p.users[u := phase], lock := lock))
    ensures Kept(p, p.(users := p.users[u := phase], lock := lock))
  {
    var q := p.(users := p.users[u := phase], lock := lock);
    assert q.users.Keys == p.users.Keys;
    SizeByKeys(q.users);
    SizeByKeys(p.users);
    NobodyMoves(p, q);
  }

  lemma TakeLockSound(p: Pool, u: UserId)
    requires Sound(p)
    ensures Kept(p, Apply(p, TakeLock(u)))
  {
    if u in p.users && p.users[u] == Ready && p.lock == Free {
      assert [] + p.browsers == p.browsers;
      NobodyMoves(p, Apply(p, TakeLock(u)));
    }
  }

  lemma EnterSound(p: Pool, u: UserId)
    requires Sound(p)
    ensures Kept(p, Apply(p, Enter(u)))
  {
    if u !in p.users && p.permits > 0 {
      OneMoreUser(p.users, u, Admitted);
      LockStays(p, Apply(p, Enter(u)));
    }
    NobodyMoves(p, Apply(p, Enter(u)));
  }

  lemma CheckOpenSound(p: Pool, u: UserId)
    requires Sound(p)
    ensures Kept(p, Apply(p, CheckOpen(u)))
  {
    if u in p.users && p.users[u] == Admitted {
      LockStays(p, Apply(p, CheckOpen(u)));
      PhaseMoves(p, u, if p.isClosed then Leaving else Ready, p.lock);
    } else {
      NobodyMoves(p, Apply(p, CheckOpen(u)));
    }
  }

  lemma CancelSound(p: Pool, u: UserId)
    requires Sound(p)
    ensures Kept(p, Apply(p, Cancel(u)))
  {
    if u in p.users && (p.users[u] == Admitted || p.users[u] == Ready) {
      if !HoldsLock(p, u) { LockStays(p, Apply(p, Cancel(u))); }
      PhaseMoves(p, u, Leaving, if HoldsLock(p, u) then Free else p.lock);
    } else {
      NobodyMoves(p, Apply(p, Cancel(u)));
    }
  }

  lemma ExitSound(p: Pool, u: UserId)
    requires Sound(p)
    ensures Kept(p, Apply(p, Exit(u)))
  {
    if u in p.users && p.users[u] == Leaving {
      var q := Apply(p, Exit(u));
      assert q.users.Keys == p.users.Keys - {u};
      SizeByKeys(q.users);
      SizeByKeys(p.users);
      LockStays(p, q);
    }
    NobodyMoves(p, Apply(p, Exit(u)));
  }

  /** One step of a scan: the lock moves on, and the browser it passes may be closed. */
  lemma ScanSound(p: Pool, q: Pool, lock: Lock, b: nat)
    requires Sound(p) && LockHeld(p.(lock := lock))
    requires q == p.(lock := lock) || q == Closed(p.(lock := lock), b)
    ensures Kept(p, q)
  {
    LockStays(p.(lock := lock), q);
    NobodyMoves(p, q);
  }

  lemma PruneNextSound(p: Pool)
    requires Sound(p)
    ensures Kept(p, Apply(p, PruneNext))
  {
    if p.lock.Pruning? && p.lock.todo != [] {
      var u, todo, kept := p.lock.user, p.lock.todo, p.lock.kept;
      ScanAdvances(p, todo, kept);
      var keep := IsConnected(p, todo[0]);
      ScanSound(p, Apply(p, PruneNext), Pruning(u, todo[1..], if keep then kept + [todo[0]] else kept), todo[0]);
    }
  }

  lemma CleanNextSound(p: Pool)
    requires Sound(p)
    ensures Kept(p, Apply(p, CleanNext))
  {
    if p.lock.Cleaning? && p.lock.todo != [] {
      var todo, kept := p.lock.todo, p.lock.kept;
      ScanAdvances(p, todo, kept);
      var drop := IsIdle(p, todo[0]) || !IsConnected(p, todo[0]);
      ScanSound(p, Apply(p, CleanNext), Cleaning(todo[1..], if drop then kept else kept + [todo[0]]), todo[0]);
    }
  }

  lemma CloseNextSound(p: Pool)
    requires Sound(p)
    ensures Kept(p, Apply(p, CloseNext))
  {
    if p.lock.Closing? && p.lock.todo != [] {
      ScanAdvances(p, p.lock.todo, []);
      ScanSound(p, Apply(p, CloseNext), Closing(p.lock.todo[1..]), p.lock.todo[0]);
    }
  }

  lemma ScanStartsSound(p: Pool)
    requires Sound(p)
    ensures Kept(p, Apply(p, StartCleanup)) && Kept(p, Apply(p, StartClose))
  {
    assert [] + p.browsers == p.browsers;
    if p.lock == Free {
      NobodyMoves(p, Apply(p, StartCleanup));
      NobodyMoves(p, Apply(p, StartClose));
    }
  }

  lemma EndCleanupSound(p: Pool)
    requires Sound(p)
    ensures Kept(p, Apply(p, EndCleanup))
  {
    if p.lock.Cleaning? && p.lock.todo == [] {
      assert p.lock.kept + p.lock.todo == p.lock.kept;
      NobodyMoves(p, Apply(p, EndCleanup));
    }
  }

  lemma EndCloseSound(p: Pool)
    requires Sound(p)
    ensures Kept(p, Apply(p, EndClose))
  {
    if p.lock.Closing? && p.lock.todo == [] {
      NobodyMoves(p, Apply(p, EndClose));
    }
  }

  lemma CrashSound(p: Pool, b: nat)
    requires Sound(p)
    ensures Kept(p, Apply(p, Crash(b)))
  {
    if b in p.launched {
      LockStays(p, Apply(p, Crash(b)));
      NobodyMoves(p, Apply(p, Crash(b)));
    }
  }

  lemma WaitSound(p: Pool, seconds: nat)
    requires Sound(p)
    ensures Kept(p, Apply(p, Wait(seconds)))
  {
    LockStays(p, Apply(p, Wait(seconds)));
    NobodyMoves(p, Apply(p, Wait(seconds)));
  }

  lemma RaiseSound(p: Pool, u: UserId)
    requires Sound(p)
    ensures Kept(p, Apply(p, RaiseInContext(u)))
  {
    var q := Apply(p, RaiseInContext(u));
    if q != p {
      assert q.users.Keys == p.users.Keys;
      SizeByKeys(q.users);
      SizeByKeys(p.users);
      LockStays(p, q);
    }
    NobodyMoves(p, Apply(p, RaiseInContext(u)));
  }

  // ---------------------------------------------------------------- steps that move one user

  /** One user gets off its browser, and that browser's load drops by less than two. */
  ghost predicate GetsOff(p: Pool, q: Pool, u: UserId, b: nat, drop: nat) {
    && On(p, u, b) && drop <= 1
    && q == p.(users := p.users[u := Leaving], launched := q.launched)
    && (forall c: nat :: c in q.launched <==> c in p.launched)
    && (forall c: nat :: Load(q, c) == if c == b then Load(p, b) - drop else Load(p, c))
  }

  lemma GetsOffLeak(p: Pool, q: Pool, u: UserId, b: nat, drop: nat, c: nat)
    requires GetsOff(p, q, u, b, drop)
    ensures Leak(q, c) == Leak(p, c) + if c == b then 1 - drop else 0
  {
    assert UsersOn(q, c) == if c == b then UsersOn(p, c) - {u} else UsersOn(p, c);
    assert c == b ==> u in UsersOn(p, c);
  }

  lemma GetsOffSound(p: Pool, q: Pool, u: UserId, b: nat, drop: nat)
    requires Sound(p) && GetsOff(p, q, u, b, drop)
    ensures Sound(q)
  {
    assert q.users.Keys == p.users.Keys;
    SizeByKeys(q.users);
    SizeByKeys(p.users);
    LockStays(p, q);
    forall c: nat ensures Covered(q, c) {
      assert Covered(p, c);
      GetsOffLeak(p, q, u, b, drop, c);
    }
    forall v: UserId, c: nat ensures OnLaunched(q, v, c) { assert OnLaunched(p, v, c); }
  }

  lemma CutReleaseSound(p: Pool, u: UserId)
    requires Sound(p)
    ensures Sound(Apply(p, CutRelease(u))) && forall b: nat :: LeakMoves(p, CutRelease(u), b)
  {
    if u in p.users && (p.users[u].Using? || p.users[u].Broken?) {
      var q, b := Apply(p, CutRelease(u)), p.users[u].browser;
      GetsOffSound(p, q, u, b, 0);
      forall c: nat ensures LeakMoves(p, CutRelease(u), c) { GetsOffLeak(p, q, u, b, 0, c); }
    } else {
      forall c: nat ensures LeakMoves(p, CutRelease(u), c) {}
    }
  }

  lemma ReleaseSound(p: Pool, u: UserId)
    requires Sound(p)
    ensures Kept(p, Apply(p, Release(u)))
  {
    if u in p.users && (p.users[u].Using? || p.users[u].Broken?) && p.users[u].browser in p.launched && p.lock == Free {
      var b := p.users[u].browser;
      assert On(p, u, b) && u in UsersOn(p, b) && Covered(p, b);
      assert p.launched[b].activeContexts >= 1;
      var q := Apply(p, Release(u));
      GetsOffSound(p, q, u, b, 1);
      forall c: nat ensures SameLeak(p, q, c) { GetsOffLeak(p, q, u, b, 1, c); }
    }
  }

  /** A user that waits for a browser is put on one. */
  lemma AssignSound(p: Pool, u: UserId, b: nat)
    requires Sound(p) && u in p.users && p.users[u] == Ready && b in p.launched
    ensures Kept(p, Assign(p, u, b))
  {
    var q := Assign(p, u, b);
    assert q.users.Keys == p.users.Keys;
    SizeByKeys(q.users);
    SizeByKeys(p.users);
    forall c: nat ensures SameLeak(p, q, c) && Covered(q, c) {
      assert Covered(p, c);
      assert u !in UsersOn(p, c);
      assert UsersOn(q, c) == if c == b then UsersOn(p, c) + {u} else UsersOn(p, c);
    }
    forall v: UserId, c: nat ensures OnLaunched(q, v, c) { assert OnLaunched(p, v, c); }
  }

  /** The pool with the browser under way launched and the lock given back. */
  function WithNew(p: Pool): Pool {
    p.(launched := p.launched[p.counter := Browser(0, true, true, p.clock)], browsers := p.browsers + [p.counter],
       lock := Free)
  }

  lemma WithNewSound(p: Pool)
    requires Sound(p) && p.lock.Launching?
    ensures Kept(p, WithNew(p))
  {
    var q := WithNew(p);
    forall b: nat ensures SameLeak(p, q, b) && Covered(q, b) {
      assert Covered(p, b);
      assert UsersOn(q, b) == UsersOn(p, b);
      forall u: UserId ensures b == p.counter ==> !On(p, u, b) { assert OnLaunched(p, u, b); }
      assert b == p.counter ==> UsersOn(p, b) == {};
    }
    forall u: UserId, b: nat ensures OnLaunched(q, u, b) { assert OnLaunched(p, u, b); }
  }

  lemma KeptTwice(p: Pool, q: Pool, r: Pool)
    requires Kept(p, q) && Kept(q, r)
    ensures Kept(p, r)
  {
    forall b: nat ensures SameLeak(p, r, b) { assert SameLeak(p, q, b) && SameLeak(q, r, b); }
  }

  lemma LaunchedSound(p: Pool, ok: bool)
    requires Sound(p)
    ensures Kept(p, Apply(p, Launched(ok)))
  {
    if p.lock.Launching? {
      var u, q := p.lock.user, WithNew(p);
      if ok {
        WithNewSound(p);
        AssignSound(q, u, p.counter);
        KeptTwice(p, q, Assign(q, u, p.counter));
        assert Apply(p, Launched(true)) == Assign(q, u, p.counter);
      } else {
        PhaseMoves(p, u, Leaving, Free);
      }
    }
  }

  /** Starting a launch, or failing to, moves nobody. */
  lemma LaunchStartsSound(p: Pool, q: Pool, u: UserId, sorted: seq<nat>)
    requires Sound(p) && u in p.users && p.users[u] == Ready && Listed(p, sorted) && |sorted| <= p.poolSize
    requires sorted == [] || |sorted| < p.poolSize
    requires q == if p.hasDriver then p.(browsers := sorted, counter := p.counter + 1, lock := Launching(u))
                  else p.(browsers := sorted, users := p.users[u := Leaving], lock := Free)
    ensures Kept(p, q)
  {
    assert u in p.users.Keys;
    SizeByKeys(p.users);
    assert |p.users.Keys| > 0;
    forall b: nat ensures b in p.launched ==> b <= p.counter { assert Covered(p, b); }
    if !p.hasDriver {
      assert q.users.Keys == p.users.Keys;
      SizeByKeys(q.users);
    }
    NobodyMoves(p, q);
  }

  lemma PutOnSound(p: Pool, u: UserId, sorted: seq<nat>)
    requires Sound(p) && u in p.users && p.users[u] == Ready && Listed(p, sorted) && 0 < |sorted| <= p.poolSize
    requires sorted[0] in p.launched
    ensures Kept(p, Assign(p.(browsers := sorted), u, sorted[0]))
  {
    var q := p.(browsers := sorted, lock := Free);
    NobodyMoves(p, q);
    AssignSound(q, u, sorted[0]);
    KeptTwice(p, q, Assign(q, u, sorted[0]));
    assert Assign(p.(browsers := sorted), u, sorted[0]) == Assign(q, u, sorted[0]);
  }

  lemma PickedList(p: Pool)
    requires Sound(p) && p.lock.Pruning? && p.lock.todo == []
    ensures var sorted := SortedByLoad(p, p.lock.kept);
            && Listed(p, sorted) && |sorted| <= p.poolSize && (sorted != [] ==> sorted[0] in p.launched)
  {
    var sorted := SortedByLoad(p, p.lock.kept);
    assert p.lock.kept + [] == p.lock.kept;
    SortFacts(p, p.lock.kept);
    assert sorted != [] ==> sorted[0] in sorted;
  }

  lemma PickSound(p: Pool)
    requires Sound(p)
    ensures Kept(p, Apply(p, Pick))
  {
    if p.lock.Pruning? && p.lock.todo == [] {
      var u, sorted := p.lock.user, SortedByLoad(p, p.lock.kept);
      PickedList(p);
      var q := Apply(p, Pick);
      if sorted == [] || (|sorted| < p.poolSize && Load(p, sorted[0]) > 0) {
        LaunchStartsSound(p, q, u, sorted);
      } else {
        PutOnSound(p, u, sorted);
      }
    }
  }

  // ---------------------------------------------------------------- every step and every run

  lemma StepKept(p: Pool, step: Step)
    requires Sound(p) && !step.CutRelease?
    ensures Kept(p, Apply(p, step))
  {
    match step
    case Enter(u) => EnterSound(p, u);
    case CheckOpen(u) => CheckOpenSound(p, u);
    case TakeLock(u) => TakeLockSound(p, u);
    case PruneNext => PruneNextSound(p);
    case Pick => PickSound(p);
    case Launched(ok) => LaunchedSound(p, ok);
    case Cancel(u) => CancelSound(p, u);
    case RaiseInContext(u) => RaiseSound(p, u);
    case Release(u) => ReleaseSound(p, u);
    case Exit(u) => ExitSound(p, u);
    case Crash(b) => CrashSound(p, b);
    case StartCleanup => ScanStartsSound(p);
    case CleanNext => CleanNextSound(p);
    case EndCleanup => EndCleanupSound(p);
    case StartClose => ScanStartsSound(p);
    case CloseNext => CloseNextSound(p);
    case EndClose => EndCloseSound(p);
    case Wait(seconds) => WaitSound(p, seconds);
  }

  /** Every step keeps the weaker invariant, and only a cut release parts a load from its user. */
  lemma StepIsSound(p: Pool, step: Step)
    requires Sound(p)
    ensures Sound(Apply(p, step)) && forall b: nat :: LeakMoves(p, step, b)
  {
    if step.CutRelease? {
      CutReleaseSound(p, step.user);
    } else {
      StepKept(p, step);
      forall b: nat ensures LeakMoves(p, step, b) { assert SameLeak(p, Apply(p, step), b); }
    }
  }

  /** How many releases from the browser were cut off in a run. */
  function CutsOn(p: Pool, steps: seq<Step>, b: nat): nat
    decreases |steps|
  {
    if steps == [] then 0
    else (if CutsFrom(p, steps[0], b) then 1 else 0) + CutsOn(Apply(p, steps[0]), steps[1..], b)
  }

  lemma {:induction false} RunIsSound(p: Pool, steps: seq<Step>, b: nat)
    requires Sound(p)
    ensures Sound(Run(p, steps)) && Leak(Run(p, steps), b) == Leak(p, b) + CutsOn(p, steps, b)
    decreases |steps|
  {
    if steps != [] {
      StepIsSound(p, steps[0]);
      assert LeakMoves(p, steps[0], b);
      RunIsSound(Apply(p, steps[0]), steps[1..], b);
    }
  }

  lemma InitializedIsSound(poolSize: nat, idleTimeout: int, now: int)
    ensures var p := Initialized(poolSize, idleTimeout, now); Sound(p) && forall b: nat :: Leak(p, b) == 0
  {
    var p := Initialized(poolSize, idleTimeout, now);
    forall b: nat ensures Leak(p, b) == 0 && Covered(p, b) { assert UsersOn(p, b) == {}; }
  }

  /** In every run, whatever is cut off: permits and admitted users add up to pool_size, at most pool_size
      distinct browsers are listed, and a browser's load is its users plus the releases from it cut off so far. */
  lemma LoadCountsUsersAndCuts(poolSize: nat, idleTimeout: int, now: int, steps: seq<Step>, b: nat)
    ensures var start := Initialized(poolSize, idleTimeout, now);
            var p := Run(start, steps);
            && p.permits + |p.users| == poolSize
            && |p.browsers| <= poolSize && NoDuplicates(p.browsers)
            && Load(p, b) == |UsersOn(p, b)| + CutsOn(start, steps, b)
  {
    var start := Initialized(poolSize, idleTimeout, now);
    InitializedIsSound(poolSize, idleTimeout, now);
    RunIsSound(start, steps, b);
    SameSize(start, steps);
  }

  /** The browser crashes, an exception is raised in a context on it, or the shutdown closes it. */
  predicate Ends(p: Pool, step: Step, b: nat) {
    match step
    case Crash(c) => c == b
    case RaiseInContext(u) => u in p.users && p.users[u] == Using(b)
    case CloseNext => p.lock.Closing? && p.lock.todo != [] && p.lock.todo[0] == b
    case _ => false
  }

  /** A connected browser that someone is on stays connected through every step of other users, of crash
      recovery and of idle cleanup, also after cut releases: a step ends it if and only if it is its own crash,
      an exception in a context on it or the pool's shutdown. */
  lemma InUseIsNotClosed(p: Pool, step: Step, u: UserId, b: nat)
    requires Sound(p) && On(p, u, b) && IsConnected(p, b)
    ensures IsConnected(Apply(p, step), b) <==> !Ends(p, step, b)
  {
    assert Covered(p, b) && u in UsersOn(p, b);
    assert p.launched[b].activeContexts > 0;
  }
}
