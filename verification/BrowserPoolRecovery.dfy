/** What the two scans of the browser list keep, crash recovery before a choice and idle cleanup, and in what state a
    browser is handed out. */
module BrowserPoolRecovery {
  import opened Collections
  import opened BrowserPool
  import opened BrowserPoolLoads

  /** Launched, alive, and not marked unhealthy. */
  predicate Sane(p: Pool, b: nat) {
    b in p.launched && p.launched[b].alive && p.launched[b].isHealthy
  }

  /** Without a context, and unused for longer than the idle timeout. */
  predicate LongIdle(p: Pool, b: nat) {
    b in p.launched && p.launched[b].activeContexts == 0 && p.launched[b].lastUsedAt + p.idleTimeout < p.clock
  }

  /** Who scans: a user before its choice, or the cleanup. */
  predicate HeldBy(p: Pool, holder: Option<UserId>) {
    match holder
    case Some(u) => p.lock.Pruning? && p.lock.user == u
    case None => p.lock.Cleaning?
  }

  /** The holder keeps the lock for its scan throughout. */
  predicate Scanning(p: Pool, holder: Option<UserId>, steps: seq<Step>)
    decreases |steps|
  {
    HeldBy(p, holder) && (steps == [] || Scanning(Apply(p, steps[0]), holder, steps[1..]))
  }

  function ToDo(p: Pool): seq<nat> { if p.lock.Pruning? || p.lock.Cleaning? then p.lock.todo else [] }

  function KeptSoFar(p: Pool): seq<nat> { if p.lock.Pruning? || p.lock.Cleaning? then p.lock.kept else [] }

  /** The step is the scan coming to this browser. */
  predicate Reaches(p: Pool, step: Step, b: nat) {
    && ToDo(p) != [] && ToDo(p)[0] == b
    && ((step == PruneNext && p.lock.Pruning?) || (step == CleanNext && p.lock.Cleaning?))
  }

  /** What a scan spares: a browser that is sane, and for the cleanup not idle for long. */
  predicate Spared(p: Pool, b: nat) {
    Sane(p, b) && (p.lock.Cleaning? ==> !LongIdle(p, b))
  }

  /** The browser is to be spared at the moment the scan comes to it. */
  predicate SparedWhenReached(p: Pool, steps: seq<Step>, b: nat)
    decreases |steps|
  {
    steps != [] &&
    if Reaches(p, steps[0], b) then Spared(p, b) else SparedWhenReached(Apply(p, steps[0]), steps[1..], b)
  }

  /** The browser crashes, or an exception is raised in a context on it. */
  predicate HurtBy(p: Pool, step: Step, b: nat) {
    || step == Crash(b)
    || (step.RaiseInContext? && step.user in p.users && p.users[step.user] == Using(b))
  }

  predicate Hurt(p: Pool, steps: seq<Step>, b: nat)
    decreases |steps|
  {
    steps != [] && (HurtBy(p, steps[0], b) || Hurt(Apply(p, steps[0]), steps[1..], b))
  }

  predicate HurtAfterwards(p: Pool, steps: seq<Step>, b: nat)
    decreases |steps|
  {
    steps != [] &&
    if Reaches(p, steps[0], b) then Hurt(Apply(p, steps[0]), steps[1..], b)
    else HurtAfterwards(Apply(p, steps[0]), steps[1..], b)
  }

  // ---------------------------------------------------------------- one step during a scan

  /** While a scan is on, its list changes only where the scan comes to a browser. */
  lemma ScanMoves(p: Pool, step: Step, holder: Option<UserId>)
    requires HeldBy(p, holder) && HeldBy(Apply(p, step), holder)
    ensures
      var q := Apply(p, step);
      if ToDo(p) != [] && Reaches(p, step, ToDo(p)[0]) then
        && ToDo(q) == ToDo(p)[1..]
        && KeptSoFar(q) == if Spared(p, ToDo(p)[0]) then KeptSoFar(p) + [ToDo(p)[0]] else KeptSoFar(p)
      else ToDo(q) == ToDo(p) && KeptSoFar(q) == KeptSoFar(p)
  {
  }

  /** What a step does to a browser the scan is not at. */
  lemma SaneStays(p: Pool, step: Step, holder: Option<UserId>, b: nat)
    requires Sound(p) && HeldBy(p, holder) && HeldBy(Apply(p, step), holder)
    requires !Reaches(p, step, b) && b in p.launched
    ensures Sane(Apply(p, step), b) <==> Sane(p, b) && !HurtBy(p, step, b)
  {
  }

  lemma LaunchedStays(p: Pool, step: Step, b: nat)
    requires b in p.launched
    ensures b in Apply(p, step).launched
  {
  }

  /** What the scan does not spare it takes down. */
  lemma DroppedIsDown(p: Pool, step: Step, b: nat)
    requires Reaches(p, step, b)
    ensures Sane(Apply(p, step), b) <==> Spared(p, b)
    ensures !Spared(p, b) && b in p.launched ==> !Apply(p, step).launched[b].alive
  {
  }

  lemma DownStaysDown(p: Pool, step: Step, holder: Option<UserId>, b: nat)
    requires Sound(p) && HeldBy(p, holder) && HeldBy(Apply(p, step), holder) && b in p.launched && !Sane(p, b)
    ensures !Sane(Apply(p, step), b)
  {
    if Reaches(p, step, b) { DroppedIsDown(p, step, b); } else { SaneStays(p, step, holder, b); }
  }

  // ---------------------------------------------------------------- a whole scan

  lemma KeptIsNotToDo(p: Pool, holder: Option<UserId>, b: nat)
    requires Sound(p) && HeldBy(p, holder) && b in KeptSoFar(p)
    ensures b !in ToDo(p) && b in p.launched
  {
    var todo, kept := ToDo(p), KeptSoFar(p);
    var all := kept + todo;
    assert b in all;
    var i :| 0 <= i < |kept| && kept[i] == b;
    assert all[i] == b && forall k :: 0 <= k < |todo| ==> all[|kept| + k] == todo[k];
  }

  lemma ToDoIsNew(p: Pool, holder: Option<UserId>)
    requires Sound(p) && HeldBy(p, holder) && ToDo(p) != []
    ensures var b := ToDo(p)[0]; b in p.launched && b !in ToDo(p)[1..] && b !in KeptSoFar(p)
  {
    var todo, kept := ToDo(p), KeptSoFar(p);
    ScanAdvances(p, todo, kept);
    var all := kept + todo;
    assert all[|kept|] == todo[0];
    forall k | 1 <= k < |todo| ensures todo[k] != todo[0] { assert all[|kept| + k] == todo[k]; }
  }

  /** A browser the scan has kept stays kept, and sane unless it is hurt. */
  lemma {:induction false} KeptFate(p: Pool, holder: Option<UserId>, steps: seq<Step>, b: nat)
    requires Sound(p) && Scanning(p, holder, steps) && b in KeptSoFar(p)
    ensures var q := Run(p, steps); b in KeptSoFar(q) && (Sane(q, b) <==> Sane(p, b) && !Hurt(p, steps, b))
    decreases |steps|
  {
    if steps != [] {
      var step := steps[0];
      KeptIsNotToDo(p, holder, b);
      StepIsSound(p, step);
      ScanMoves(p, step, holder);
      SaneStays(p, step, holder, b);
      KeptFate(Apply(p, step), holder, steps[1..], b);
    }
  }

  /** A browser that the scan is past, or never comes to, is not kept, and stays down if it is. */
  lemma {:induction false} DroppedFate(p: Pool, holder: Option<UserId>, steps: seq<Step>, b: nat)
    requires Sound(p) && Scanning(p, holder, steps) && b !in KeptSoFar(p) && b !in ToDo(p)
    ensures var q := Run(p, steps); b !in KeptSoFar(q) && (b in p.launched && !Sane(p, b) ==> !Sane(q, b))
    decreases |steps|
  {
    if steps != [] {
      var step := steps[0];
      StepIsSound(p, step);
      ScanMoves(p, step, holder);
      if b in p.launched {
        LaunchedStays(p, step, b);
        if !Sane(p, b) { DownStaysDown(p, step, holder, b); }
      }
      DroppedFate(Apply(p, step), holder, steps[1..], b);
    }
  }

  /** A browser the scan still has to come to is kept if and only if it is to be spared then, and afterwards sane
      unless it is hurt. */
  lemma {:induction false} ToDoFate(p: Pool, holder: Option<UserId>, steps: seq<Step>, b: nat)
    requires Sound(p) && Scanning(p, holder, steps) && b in ToDo(p) && ToDo(Run(p, steps)) == []
    ensures var q := Run(p, steps);
            && (b in KeptSoFar(q) <==> SparedWhenReached(p, steps, b))
            && (Sane(q, b) <==> b in KeptSoFar(q) && !HurtAfterwards(p, steps, b))
    decreases |steps|
  {
    if steps != [] {
      var step, after := steps[0], Apply(p, steps[0]);
      StepIsSound(p, step);
      ScanMoves(p, step, holder);
      ToDoIsNew(p, holder);
      if Reaches(p, step, b) {
        DroppedIsDown(p, step, b);
        LaunchedStays(p, step, b);
        if Spared(p, b) { KeptFate(after, holder, steps[1..], b); } else { DroppedFate(after, holder, steps[1..], b); }
      } else {
        assert b in ToDo(after);
        ToDoFate(after, holder, steps[1..], b);
      }
    }
  }

  lemma {:induction false} ScanningHolds(p: Pool, holder: Option<UserId>, steps: seq<Step>)
    requires Scanning(p, holder, steps)
    ensures HeldBy(Run(p, steps), holder)
    decreases |steps|
  {
    if steps != [] { ScanningHolds(Apply(p, steps[0]), holder, steps[1..]); }
  }

  /** What a scan that is over has kept of a browser. */
  ghost predicate ScanResult(p: Pool, steps: seq<Step>, b: nat) {
    var q := Run(p, steps);
    && (b in KeptSoFar(q) <==> b in ToDo(p) && SparedWhenReached(p, steps, b))
    && (b in ToDo(p) ==> (Sane(q, b) <==> b in KeptSoFar(q) && !HurtAfterwards(p, steps, b)))
  }

  lemma ScanKeepsExactly(p: Pool, holder: Option<UserId>, steps: seq<Step>, b: nat)
    requires Sound(p) && Scanning(p, holder, steps) && KeptSoFar(p) == [] && ToDo(Run(p, steps)) == []
    ensures ScanResult(p, steps, b) && HeldBy(Run(p, steps), holder) && Sound(Run(p, steps))
  {
    if b in ToDo(p) { ToDoFate(p, holder, steps, b); } else { DroppedFate(p, holder, steps, b); }
    ScanningHolds(p, holder, steps);
    RunIsSound(p, steps, b);
  }

  // ---------------------------------------------------------------- crash recovery

  lemma PickListsKept(p: Pool, u: UserId, b: nat)
    requires Sound(p) && HeldBy(p, Some(u)) && ToDo(p) == []
    ensures var q := Apply(p, Pick);
            && (b in q.browsers <==> b in KeptSoFar(p))
            && (Sane(q, b) <==> Sane(p, b))
            && (On(q, u, b) ==> b in q.browsers)
  {
    SortFacts(p, p.lock.kept);
    PickedList(p);
  }

  /** From the state in which a user takes the lock, through whatever steps of others, crashes and cancelled users
      among them, to its choice: the browsers listed then are those listed before that were alive and healthy when the
      scan came to them; they are so still unless hurt after that; and the user is put on one of them, or launches
      its own. */
  lemma PicksLiveBrowsers(p: Pool, u: UserId, steps: seq<Step>, b: nat)
    requires Sound(p) && u in p.users && p.users[u] == Ready && p.lock == Free
    requires var locked := Apply(p, TakeLock(u)); Scanning(locked, Some(u), steps) && ToDo(Run(locked, steps)) == []
    ensures
      var locked := Apply(p, TakeLock(u));
      var q := Apply(Run(locked, steps), Pick);
      && (b in q.browsers <==> b in p.browsers && SparedWhenReached(locked, steps, b))
      && (b in p.browsers ==> (Sane(q, b) <==> b in q.browsers && !HurtAfterwards(locked, steps, b)))
      && (On(q, u, b) ==> b in q.browsers)
  {
    var locked := Apply(p, TakeLock(u));
    StepIsSound(p, TakeLock(u));
    ScanKeepsExactly(locked, Some(u), steps, b);
    PickListsKept(Run(locked, steps), u, b);
  }

  lemma {:induction false} DownIsNeverSpared(p: Pool, holder: Option<UserId>, steps: seq<Step>, b: nat)
    requires Sound(p) && Scanning(p, holder, steps) && b in p.launched && !Sane(p, b)
    ensures !SparedWhenReached(p, steps, b)
    decreases |steps|
  {
    if steps != [] {
      StepIsSound(p, steps[0]);
      LaunchedStays(p, steps[0], b);
      DownStaysDown(p, steps[0], holder, b);
      DownIsNeverSpared(Apply(p, steps[0]), holder, steps[1..], b);
    }
  }

  /** A browser that has crashed, or is marked unhealthy, when a user takes the lock is neither listed nor the
      user's after its choice. */
  lemma CrashedIsNotPicked(p: Pool, u: UserId, steps: seq<Step>, b: nat)
    requires Sound(p) && u in p.users && p.users[u] == Ready && p.lock == Free
    requires var locked := Apply(p, TakeLock(u)); Scanning(locked, Some(u), steps) && ToDo(Run(locked, steps)) == []
    requires b in p.launched && (!p.launched[b].alive || !p.launched[b].isHealthy)
    ensures var q := Apply(Run(Apply(p, TakeLock(u)), steps), Pick); b !in q.browsers && !On(q, u, b)
  {
    var locked := Apply(p, TakeLock(u));
    StepIsSound(p, TakeLock(u));
    DownIsNeverSpared(locked, Some(u), steps, b);
    PicksLiveBrowsers(p, u, steps, b);
  }

  // ---------------------------------------------------------------- idle cleanup

  /** The cleanup leaves listed exactly the browsers that were alive, healthy and not idle for longer than the timeout
      when it came to them, and takes the others down. */
  lemma CleanupDropsIdle(p: Pool, steps: seq<Step>, b: nat)
    requires Sound(p) && p.lock == Free
    requires var locked := Apply(p, StartCleanup); Scanning(locked, None, steps) && ToDo(Run(locked, steps)) == []
    ensures
      var locked := Apply(p, StartCleanup);
      var q := Apply(Run(locked, steps), EndCleanup);
      && q.lock == Free
      && (b in q.browsers <==> b in p.browsers && SparedWhenReached(locked, steps, b))
      && (b in p.browsers ==> (Sane(q, b) <==> b in q.browsers && !HurtAfterwards(locked, steps, b)))
  {
    var locked := Apply(p, StartCleanup);
    StepIsSound(p, StartCleanup);
    ScanKeepsExactly(locked, None, steps, b);
  }
}
