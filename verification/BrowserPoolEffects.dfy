/** What a step does to the users and the browsers, the choice of a browser, and the shutdown. */
module BrowserPoolEffects {
  import opened Collections
  import opened BrowserPool
  import opened BrowserPoolLoads
  import opened BrowserPoolRecovery

  // ---------------------------------------------------------------- users

  /** A user enters while a permit is left, and takes it; it goes once it is leaving, and gives it back. */
  lemma UserComesAndGoes(p: Pool, step: Step, u: UserId)
    requires Sound(p)
    ensures
      var q := Apply(p, step);
      && (u !in p.users ==> (u in q.users <==> step == Enter(u) && p.permits > 0))
      && (u !in p.users && u in q.users ==> q.users[u] == Admitted && q.permits == p.permits - 1)
      && (u in p.users ==> (u !in q.users <==> step == Exit(u) && p.users[u] == Leaving))
      && (u in p.users && u !in q.users ==> q.permits == p.permits + 1)
  {
  }

  /** The step is one the user takes, or that happens to it. */
  predicate Concerns(step: Step, u: UserId) {
    match step
    case CheckOpen(v) => v == u
    case Cancel(v) => v == u
    case RaiseInContext(v) => v == u
    case CutRelease(v) => v == u
    case Release(v) => v == u
    case Exit(v) => v == u
    case _ => false
  }

  lemma OthersDoNotMove(p: Pool, step: Step, u: UserId)
    requires u in p.users && !HoldsLock(p, u) && !Concerns(step, u)
    ensures var q := Apply(p, step); u in q.users && q.users[u] == p.users[u]
  {
  }

  /** A user without a browser that does not hold the lock is turned away once the pool is closed, and can be
      cancelled. */
  lemma WaitingUserMoves(p: Pool, step: Step, u: UserId)
    requires u in p.users && u in Apply(p, step).users && !HoldsLock(p, u)
    requires p.users[u] == Admitted || p.users[u] == Ready || p.users[u] == Leaving
    ensures
      Apply(p, step).users[u] ==
        if step == Cancel(u) then Leaving
        else if step == CheckOpen(u) && p.users[u] == Admitted then if p.isClosed then Leaving else Ready
        else p.users[u]
  {
    if !Concerns(step, u) { OthersDoNotMove(p, step, u); }
  }

  /** A user with a browser leaves it when the lock is free, or is cut off; an exception in its context breaks it. */
  lemma UsingUserMoves(p: Pool, step: Step, u: UserId, b: nat)
    requires On(p, u, b) && b in p.launched && !HoldsLock(p, u)
    ensures
      var q := Apply(p, step);
      u in q.users && q.users[u] ==
        if step == CutRelease(u) || (step == Release(u) && p.lock == Free) then Leaving
        else if step == RaiseInContext(u) then Broken(b)
        else p.users[u]
  {
    if !Concerns(step, u) { OthersDoNotMove(p, step, u); }
  }

  /** A user that launches a browser is put on it, or leaves if that fails or if it is cancelled, and lets go of the
      lock; nothing else concerns it. */
  lemma LauncherMoves(p: Pool, step: Step, u: UserId)
    requires Sound(p) && p.lock == Launching(u)
    ensures
      var q := Apply(p, step);
      u in q.users &&
      if step == Cancel(u) then q.users[u] == Leaving && q.lock == Free
      else if step.Launched? then q.lock == Free && q.users[u] == if step.ok then Using(p.counter) else Leaving
      else q.users[u] == Ready && q.lock == p.lock
  {
  }

  /** A user that scans goes on until its choice, unless it is cancelled and lets go of the lock. */
  lemma ScannerMoves(p: Pool, step: Step, u: UserId)
    requires Sound(p) && p.lock.Pruning? && p.lock.user == u && (step.Pick? ==> p.lock.todo != [])
    ensures
      var q := Apply(p, step);
      u in q.users &&
      if step == Cancel(u) then q.users[u] == Leaving && q.lock == Free
      else q.users[u] == Ready && q.lock.Pruning? && q.lock.user == u
  {
  }

  // ---------------------------------------------------------------- the choice

  /** Some browser is without a load, or the list is full. */
  predicate Shares(p: Pool, kept: seq<nat>) {
    kept != [] && (|kept| >= p.poolSize || exists b <- kept :: Load(p, b) == 0)
  }

  /** The choice launches a browser, or gives up without a driver, unless there is one without a load or the pool is
      full; then it takes a browser with the least load of all. */
  lemma ChoosesLeastLoaded(p: Pool, u: UserId)
    requires Sound(p) && p.lock.Pruning? && p.lock.user == u && p.lock.todo == []
    ensures
      var q, kept := Apply(p, Pick), p.lock.kept;
      if Shares(p, kept) then
        && q.lock == Free && q.users[u].Using? && q.counter == p.counter
        && var b := q.users[u].browser;
           b in kept && (forall c <- kept :: Load(p, b) <= Load(p, c)) && Load(q, b) == Load(p, b) + 1
      else if p.hasDriver then
        q.lock == Launching(u) && q.users[u] == Ready && q.counter == p.counter + 1
      else
        q.lock == Free && q.users[u] == Leaving && q.counter == p.counter
  {
    var sorted := SortedByLoad(p, p.lock.kept);
    SortFacts(p, p.lock.kept);
    PickedList(p);
    if sorted != [] { assert sorted[0] in sorted; }
  }

  /** A launch that succeeds adds a browser to the list that is alive, healthy, just used and in use once; one that
      fails leaves list and browsers as they were. */
  lemma LaunchAdds(p: Pool, ok: bool)
    requires p.lock.Launching?
    ensures
      var q, b := Apply(p, Launched(ok)), p.counter;
      if ok then
        && q.browsers == p.browsers + [b]
        && b in q.launched && q.launched[b] == Browser(1, true, true, p.clock)
      else q.browsers == p.browsers && q.launched == p.launched
  {
  }

  // ---------------------------------------------------------------- browsers

  /** The step puts a user on the browser, or takes one off it in order. */
  predicate Uses(p: Pool, step: Step, b: nat) {
    var q := Apply(p, step);
    || (step.Pick? && p.lock.Pruning? && p.lock.user in q.users && q.users[p.lock.user] == Using(b))
    || (step.Launched? && step.ok && p.lock.Launching? && p.counter == b)
    || (step.Release? && On(p, step.user, b) && p.lock == Free)
  }

  /** When a browser was last used is when it was last given out or given back. */
  lemma LastUseMoves(p: Pool, step: Step, b: nat)
    requires Sound(p) && b in p.launched
    ensures
      var q := Apply(p, step);
      b in q.launched && q.launched[b].lastUsedAt == if Uses(p, step, b) then p.clock else p.launched[b].lastUsedAt
  {
    if step.Pick? {
      ChoiceUses(p, b);
    } else if step.Launched? {
      assert p.lock.Launching? ==> b != p.counter;
    } else {
      OtherStepsUse(p, step, b);
    }
  }

  lemma OtherStepsUse(p: Pool, step: Step, b: nat)
    requires b in p.launched && !step.Pick? && !step.Launched?
    ensures
      var q := Apply(p, step);
      && b in q.launched
      && q.launched[b].lastUsedAt ==
           if step.Release? && On(p, step.user, b) && p.lock == Free then p.clock else p.launched[b].lastUsedAt
  {
  }

  lemma ChoiceUses(p: Pool, b: nat)
    requires Sound(p) && b in p.launched
    ensures
      var q := Apply(p, Pick);
      b in q.launched && q.launched[b].lastUsedAt == if Uses(p, Pick, b) then p.clock else p.launched[b].lastUsedAt
  {
    if p.lock.Pruning? && p.lock.todo == [] {
      var sorted := SortedByLoad(p, p.lock.kept);
      PickedList(p);
      assert Apply(p, Pick) == PickOrLaunch(p, p.lock.user, p.lock.kept);
    }
  }

  /** The clock moves with time alone. */
  lemma ClockMoves(p: Pool, step: Step)
    ensures Apply(p, step).clock == p.clock + if step.Wait? then step.seconds else 0
  {
  }

  /** Closed by the step: by a scan that does not spare the browser, or by the shutdown. */
  predicate ClosedBy(p: Pool, step: Step, b: nat) {
    || (Reaches(p, step, b) && !Spared(p, b))
    || (step.CloseNext? && p.lock.Closing? && p.lock.todo != [] && p.lock.todo[0] == b)
  }

  predicate BrokenBy(p: Pool, step: Step, b: nat) {
    step.RaiseInContext? && step.user in p.users && p.users[step.user] == Using(b)
  }

  /** A browser goes down by crashing, or by being closed; it is marked unhealthy by an exception in a context on it,
      or by being closed. */
  ghost predicate HealthFollows(p: Pool, step: Step, b: nat) {
    var q := Apply(p, step);
    && b in p.launched && b in q.launched
    && (q.launched[b].alive <==> p.launched[b].alive && step != Crash(b) && !ClosedBy(p, step, b))
    && (q.launched[b].isHealthy <==>
         p.launched[b].isHealthy && !BrokenBy(p, step, b) && !ClosedBy(p, step, b))
  }

  lemma HealthMoves(p: Pool, step: Step, b: nat)
    requires Sound(p) && b in p.launched
    ensures HealthFollows(p, step, b)
  {
    if step.PruneNext? || step.CleanNext? || step.CloseNext? {
      ScanHealth(p, step, b);
    } else if step.Pick? || step.Launched? {
      ChoiceHealth(p, step, b);
    } else {
      OtherHealth(p, step, b);
    }
  }

  lemma ScanHealth(p: Pool, step: Step, b: nat)
    requires b in p.launched && (step.PruneNext? || step.CleanNext? || step.CloseNext?)
    ensures HealthFollows(p, step, b)
  {
  }

  lemma ChoiceHealth(p: Pool, step: Step, b: nat)
    requires Sound(p) && b in p.launched && (step.Pick? || step.Launched?)
    ensures HealthFollows(p, step, b)
  {
    assert !ClosedBy(p, step, b) && !BrokenBy(p, step, b);
    if step.Pick? && p.lock.Pruning? && p.lock.todo == [] {
      PickedList(p);
      assert Apply(p, Pick) == PickOrLaunch(p, p.lock.user, p.lock.kept);
    }
  }

  lemma OtherHealth(p: Pool, step: Step, b: nat)
    requires b in p.launched && !step.PruneNext? && !step.CleanNext? && !step.CloseNext?
    requires !step.Pick? && !step.Launched?
    ensures HealthFollows(p, step, b)
  {
    assert !ClosedBy(p, step, b);
  }

  // ---------------------------------------------------------------- the shutdown

  /** The shutdown holds the lock throughout. */
  predicate ShuttingDown(p: Pool, steps: seq<Step>)
    decreases |steps|
  {
    p.lock.Closing? && (steps == [] || ShuttingDown(Apply(p, steps[0]), steps[1..]))
  }

  /** Down, or still to be closed. */
  predicate DownOrToDo(p: Pool, b: nat) {
    p.lock.Closing? && b in p.launched && (b in p.lock.todo || !Sane(p, b))
  }

  lemma {:induction false} ClosingGoesOn(p: Pool, steps: seq<Step>, b: nat)
    requires Sound(p) && p.isClosed && ShuttingDown(p, steps) && DownOrToDo(p, b)
    ensures var q := Run(p, steps); q.isClosed && DownOrToDo(q, b) && Sound(q)
    decreases |steps|
  {
    if steps != [] {
      StepIsSound(p, steps[0]);
      ClosingStep(p, steps[0], b);
      ClosingGoesOn(Apply(p, steps[0]), steps[1..], b);
    }
  }

  lemma ClosingStep(p: Pool, step: Step, b: nat)
    requires Sound(p) && p.isClosed && p.lock.Closing? && Apply(p, step).lock.Closing? && DownOrToDo(p, b)
    ensures Apply(p, step).isClosed && DownOrToDo(Apply(p, step), b)
  {
    HealthMoves(p, step, b);
    if b in p.lock.todo && b !in Apply(p, step).lock.todo { assert ClosedBy(p, step, b); }
  }

  /** A shutdown that is over has taken down every browser that was listed, and leaves the pool closed, without driver
      and empty: the state that ClosedForGood is about. */
  lemma ShutdownClosesAll(p: Pool, steps: seq<Step>, b: nat)
    requires Sound(p) && p.lock == Free && b in p.browsers
    requires var locked := Apply(p, StartClose); ShuttingDown(locked, steps) && Run(locked, steps).lock == Closing([])
    ensures var q := Apply(Run(Apply(p, StartClose), steps), EndClose); ShutDown(q) && q.lock == Free && !Sane(q, b)
  {
    var locked := Apply(p, StartClose);
    StepIsSound(p, StartClose);
    ClosingGoesOn(locked, steps, b);
  }

  /** The settings stay what they were at the start. */
  lemma SettingsStay(poolSize: nat, idleTimeout: int, now: int, p: Pool, step: Step)
    ensures Apply(p, step).poolSize == p.poolSize && Apply(p, step).idleTimeout == p.idleTimeout
    ensures
      var start := Initialized(poolSize, idleTimeout, now);
      && start.poolSize == poolSize && start.idleTimeout == idleTimeout && start.clock == now
      && !start.isClosed && start.hasDriver && start.lock == Free
  {
  }
}
