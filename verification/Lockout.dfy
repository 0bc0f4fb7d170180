/** The account lockout: how many wrong passwords it lets through, and how fast. */
module Lockout {
  import opened Collections

  /** Times are in microseconds. */
  const SECOND := 1_000_000
  const LOCKOUT_THRESHOLD := 5
  const LOCKOUT_DURATION := 15 * 60 * SECOND

  /** The two columns of a user row the lockout uses. */
  datatype Account = Account(failedLoginAttempts: nat, lockedUntil: Option<int>)

  const FRESH := Account(0, None)

  /** One login: the time of the lock check, the time the password's result is recorded, and that result. */
  datatype Attempt = Attempt(checkAt: int, recordAt: int, rightPassword: bool)

  datatype Answer = Blocked | Failed | Succeeded

  predicate Locked(a: Account, now: int) {
    a.lockedUntil.Some? && a.lockedUntil.value > now
  }

  function AnswerTo(a: Account, t: Attempt): Answer {
    if Locked(a, t.checkAt) then Blocked else if t.rightPassword then Succeeded else Failed
  }

  function After(a: Account, t: Attempt): Account {
    match AnswerTo(a, t)
    case Blocked => a
    case Succeeded => FRESH
    case Failed =>
      var n := a.failedLoginAttempts + 1;
      Account(n, if n >= LOCKOUT_THRESHOLD then Some(t.recordAt + LOCKOUT_DURATION) else a.lockedUntil)
  }

  function Run(a: Account, attempts: seq<Attempt>): Account {
    if attempts == [] then a else After(Run(a, attempts[..|attempts| - 1]), attempts[|attempts| - 1])
  }

  /** The answer to the i-th attempt. */
  function AnswerAt(a: Account, attempts: seq<Attempt>, i: nat): Answer
    requires i < |attempts|
  {
    AnswerTo(Run(a, attempts[..i]), attempts[i])
  }

  /** Logins one after another: each is checked, then recorded, before the next is checked. */
  ghost predicate Sequential(attempts: seq<Attempt>) {
    forall i :: 0 <= i < |attempts| ==>
      attempts[i].checkAt <= attempts[i].recordAt && (i > 0 ==> attempts[i - 1].recordAt <= attempts[i].checkAt)
  }

  ghost predicate Within(attempts: seq<Attempt>, start: int, latest: int) {
    forall i :: 0 <= i < |attempts| ==> start <= attempts[i].checkAt && attempts[i].recordAt <= latest
  }

  ghost predicate SuccessFree(a: Account, attempts: seq<Attempt>) {
    forall i: nat :: i < |attempts| ==> AnswerAt(a, attempts, i) != Succeeded
  }

  /** The wrong passwords recorded within [from, to). */
  function FailuresIn(a: Account, attempts: seq<Attempt>, from: int, to: int): (n: nat)
    ensures n <= |attempts|
  {
    if attempts == [] then 0
    else
      var before := attempts[..|attempts| - 1];
      var last := attempts[|attempts| - 1];
      FailuresIn(a, before, from, to) +
      if AnswerTo(Run(a, before), last) == Failed && from <= last.recordAt < to then 1 else 0
  }

  lemma PrefixOf(a: Account, attempts: seq<Attempt>)
    requires attempts != [] && Sequential(attempts)
    ensures
      var before := attempts[..|attempts| - 1];
      && Sequential(before)
      && (SuccessFree(a, attempts) ==>
            SuccessFree(a, before) && AnswerTo(Run(a, before), attempts[|attempts| - 1]) != Succeeded)
      && (before != [] ==> before[|before| - 1].recordAt <= attempts[|attempts| - 1].checkAt)
  {
    var before := attempts[..|attempts| - 1];
    forall i: nat | i < |before|
      ensures before[..i] == attempts[..i]
    {
    }
    if SuccessFree(a, attempts) {
      forall i: nat | i < |before| ensures AnswerAt(a, before, i) != Succeeded {
        assert before[..i] == attempts[..i] && AnswerAt(a, attempts, i) != Succeeded;
      }
      assert AnswerAt(a, attempts, |before|) != Succeeded;
    }
  }

  // ---------------------------------------------------------------- over a stretch without a success

  /** What holds after n wrong passwords and no right one, all within [start, end). */
  ghost predicate Counted(a: Account, n: nat, start: int, end: int) {
    && a.failedLoginAttempts == n
    && (n < LOCKOUT_THRESHOLD ==> a.lockedUntil == None)
    && (n >= LOCKOUT_THRESHOLD ==>
          && a.lockedUntil.Some?
          && start + (n - LOCKOUT_THRESHOLD + 1) * LOCKOUT_DURATION <= a.lockedUntil.value < end + LOCKOUT_DURATION)
  }

  lemma CountedStep(a: Account, n: nat, t: Attempt, start: int, end: int)
    requires Counted(a, n, start, end) && start <= t.checkAt <= t.recordAt < end && AnswerTo(a, t) != Succeeded
    ensures Counted(After(a, t), if AnswerTo(a, t) == Failed then n + 1 else n, start, end)
  {
  }

  /** From no failures on, the counter counts them, and from the fifth on each locks the account for a full
      period: the n-th cannot come earlier than n - 5 periods after the start. */
  lemma {:induction false} StretchFacts(attempts: seq<Attempt>, start: int, end: int)
    requires Sequential(attempts) && SuccessFree(FRESH, attempts) && start <= end
    requires Within(attempts, start, end - 1)
    ensures Counted(Run(FRESH, attempts), FailuresIn(FRESH, attempts, start, end), start, end)
  {
    if attempts != [] {
      var before, t := attempts[..|attempts| - 1], attempts[|attempts| - 1];
      PrefixOf(FRESH, attempts);
      StretchFacts(before, start, end);
      CountedStep(Run(FRESH, before), FailuresIn(FRESH, before, start, end), t, start, end);
    }
  }

  /** A success-free stretch of length T records at most 5 + floor(T / 15 minutes) wrong passwords. */
  lemma LockoutRate(attempts: seq<Attempt>, start: int, T: nat)
    requires Sequential(attempts) && SuccessFree(FRESH, attempts)
    requires Within(attempts, start, start + T)
    ensures FailuresIn(FRESH, attempts, start, start + T + 1) <= LOCKOUT_THRESHOLD + T / LOCKOUT_DURATION
  {
    StretchFacts(attempts, start, start + T + 1);
    var n := FailuresIn(FRESH, attempts, start, start + T + 1);
    if n >= LOCKOUT_THRESHOLD {
      assert (n - LOCKOUT_THRESHOLD) * LOCKOUT_DURATION <= T;
    }
  }

  // ---------------------------------------------------------------- the bound is reached

  /** Five wrong passwords at once, and then one whenever the lock runs out. */
  function SteadyTime(start: int, n: nat): (at: int)
    ensures at >= start
  {
    if n == 0 then start else SteadyTime(start, n - 1) + if n < LOCKOUT_THRESHOLD then 0 else LOCKOUT_DURATION
  }

  lemma {:induction false} SteadyTimeIs(start: int, k: nat)
    ensures SteadyTime(start, LOCKOUT_THRESHOLD - 1 + k) == start + k * LOCKOUT_DURATION
  {
    if k == 0 {
      assert SteadyTime(start, 1) == SteadyTime(start, 0) && SteadyTime(start, 3) == SteadyTime(start, 1);
    } else {
      SteadyTimeIs(start, k - 1);
    }
  }

  /** The account after n of them. */
  function SteadyAccount(start: int, n: nat): Account {
    Account(n, if n < LOCKOUT_THRESHOLD then None else Some(SteadyTime(start, n)))
  }

  lemma SteadyStep(start: int, n: nat, t: Attempt)
    requires t == Attempt(SteadyTime(start, n), SteadyTime(start, n), false)
    ensures AnswerTo(SteadyAccount(start, n), t) == Failed
    ensures After(SteadyAccount(start, n), t) == SteadyAccount(start, n + 1)
    ensures SteadyTime(start, n) <= SteadyTime(start, n + 1)
  {
  }

  /** A success-free run of n wrong passwords, none before `from` and none after `last`, that ends in this
      account. */
  ghost predicate Reached(attempts: seq<Attempt>, a: Account, n: nat, from: int, last: int, to: int) {
    && Sequential(attempts) && SuccessFree(FRESH, attempts) && Within(attempts, from, last) && last < to
    && Run(FRESH, attempts) == a && FailuresIn(FRESH, attempts, from, to) == n
  }

  lemma OneMore(attempts: seq<Attempt>, a: Account, n: nat, t: Attempt, from: int, last: int, to: int)
    requires Reached(attempts, a, n, from, last, to) && AnswerTo(a, t) == Failed
    requires from <= t.checkAt <= t.recordAt < to && last <= t.checkAt
    ensures Reached(attempts + [t], After(a, t), n + 1, from, t.recordAt, to)
  {
    var more := attempts + [t];
    assert more[..|attempts|] == attempts;
    forall i: nat | i < |more| ensures AnswerAt(FRESH, more, i) != Succeeded {
      if i < |attempts| {
        assert more[..i] == attempts[..i];
        assert AnswerAt(FRESH, attempts, i) != Succeeded;
      }
    }
  }

  /** At least one attempt is made, so that there is a last one. */
  lemma {:induction false} Steady(start: int, n: nat, to: int) returns (attempts: seq<Attempt>)
    requires SteadyTime(start, n) < to
    ensures Reached(attempts, SteadyAccount(start, n + 1), n + 1, start, SteadyTime(start, n), to)
  {
    var t := Attempt(SteadyTime(start, n), SteadyTime(start, n), false);
    SteadyStep(start, n, t);
    if n == 0 {
      assert Reached([], SteadyAccount(start, 0), 0, start, start, to);
      OneMore([], SteadyAccount(start, 0), 0, t, start, start, to);
      attempts := [] + [t];
    } else {
      SteadyStep(start, n - 1, Attempt(SteadyTime(start, n - 1), SteadyTime(start, n - 1), false));
      var before := Steady(start, n - 1, to);
      OneMore(before, SteadyAccount(start, n), n, t, start, SteadyTime(start, n - 1), to);
      attempts := before + [t];
    }
  }

  ghost predicate Records(attempts: seq<Attempt>, start: int, T: nat, n: nat) {
    && Sequential(attempts) && SuccessFree(FRESH, attempts) && Within(attempts, start, start + T)
    && FailuresIn(FRESH, attempts, start, start + T + 1) == n
  }

  ghost predicate Recordable(start: int, T: nat, n: nat) {
    exists attempts :: Records(attempts, start, T, n)
  }

  /** No smaller bound would do: for every T some stretch of that length records exactly so many. */
  lemma LockoutRateIsReached(start: int, T: nat)
    ensures Recordable(start, T, LOCKOUT_THRESHOLD + T / LOCKOUT_DURATION)
  {
    var k := T / LOCKOUT_DURATION;
    assert k * LOCKOUT_DURATION <= T;
    SteadyTimeIs(start, k);
    var attempts := Steady(start, LOCKOUT_THRESHOLD - 1 + k, start + T + 1);
    assert Records(attempts, start, T, LOCKOUT_THRESHOLD + k);
  }

  // ---------------------------------------------------------------- in any quarter of an hour

  /** No login succeeds within [from, to). */
  ghost predicate NoSuccessIn(a: Account, attempts: seq<Attempt>, from: int, to: int) {
    forall i: nat :: i < |attempts| && from <= attempts[i].recordAt < to ==> AnswerAt(a, attempts, i) != Succeeded
  }

  lemma NoSuccessBefore(a: Account, attempts: seq<Attempt>, from: int, to: int)
    requires attempts != [] && NoSuccessIn(a, attempts, from, to)
    ensures NoSuccessIn(a, attempts[..|attempts| - 1], from, to)
    ensures from <= attempts[|attempts| - 1].recordAt < to ==>
      AnswerTo(Run(a, attempts[..|attempts| - 1]), attempts[|attempts| - 1]) != Succeeded
  {
    var before := attempts[..|attempts| - 1];
    forall i: nat | i < |before| && from <= before[i].recordAt < to ensures AnswerAt(a, before, i) != Succeeded {
      assert before[..i] == attempts[..i] && AnswerAt(a, attempts, i) != Succeeded;
    }
    if from <= attempts[|attempts| - 1].recordAt < to { assert AnswerAt(a, attempts, |before|) != Succeeded; }
  }

  /** Whatever came before, every half-open quarter of an hour without a successful login records at most
      five wrong passwords. */
  lemma {:induction false} FivePerQuarter(a: Account, attempts: seq<Attempt>, from: int)
    requires Sequential(attempts) && NoSuccessIn(a, attempts, from, from + LOCKOUT_DURATION)
    ensures FailuresIn(a, attempts, from, from + LOCKOUT_DURATION) <= LOCKOUT_THRESHOLD
    ensures
      var b, n := Run(a, attempts), FailuresIn(a, attempts, from, from + LOCKOUT_DURATION);
      || n == 0
      || (attempts != [] && attempts[|attempts| - 1].recordAt >= from + LOCKOUT_DURATION)
      || (b.failedLoginAttempts >= n && attempts[|attempts| - 1].recordAt >= from &&
          (b.failedLoginAttempts >= LOCKOUT_THRESHOLD ==> Locked(b, from + LOCKOUT_DURATION - 1)))
  {
    if attempts != [] {
      PrefixOf(a, attempts);
      NoSuccessBefore(a, attempts, from, from + LOCKOUT_DURATION);
      FivePerQuarter(a, attempts[..|attempts| - 1], from);
    }
  }

  // ---------------------------------------------------------------- the code

  class User {
    var failedLoginAttempts: nat
    var lockedUntil: Option<int>

    ghost function Row(): Account
      reads this
    {
      Account(failedLoginAttempts, lockedUntil)
    }

    constructor ()
      ensures Row() == FRESH
    {
      failedLoginAttempts, lockedUntil := 0, None;
    }

    /** Whether the account is locked, and for how many whole seconds, but at least one, it still is. */
    method IsAccountLocked(now: int) returns (locked: bool, remainingSeconds: int)
      ensures locked <==> Locked(Row(), now)
      ensures locked ==>
        && remainingSeconds >= 1
        && (lockedUntil.value < now + SECOND ==> remainingSeconds == 1)
        && (lockedUntil.value >= now + SECOND ==>
             now + remainingSeconds * SECOND <= lockedUntil.value < now + (remainingSeconds + 1) * SECOND)
      ensures !locked ==> remainingSeconds == 0
    {
      if lockedUntil.None? {
        return false, 0;
      }
      if lockedUntil.value > now {
        var seconds := (lockedUntil.value - now) / SECOND;
        return true, if seconds < 1 then 1 else seconds;
      }
      return false, 0;
    }

    method RecordLoginFailure(now: int) returns (locked: bool, remainingAttempts: nat, lockoutSeconds: nat)
      modifies this
      ensures failedLoginAttempts == old(failedLoginAttempts) + 1
      ensures locked <==> remainingAttempts == 0
      ensures lockedUntil == if locked then Some(now + lockoutSeconds * SECOND) else old(lockedUntil)
      ensures locked ==> lockoutSeconds == 900 && lockedUntil == Some(now + 900_000_000)
      ensures !locked ==> failedLoginAttempts + remainingAttempts == 5 && lockoutSeconds == 0
      ensures locked <==> failedLoginAttempts >= 5
    {
      failedLoginAttempts := failedLoginAttempts + 1;
      locked, lockoutSeconds := false, 0;
      if failedLoginAttempts >= LOCKOUT_THRESHOLD {
        lockedUntil := Some(now + LOCKOUT_DURATION);
        locked := true;
        lockoutSeconds := 15 * 60;
      }
      remainingAttempts :=
        if LOCKOUT_THRESHOLD < failedLoginAttempts then 0 else LOCKOUT_THRESHOLD - failedLoginAttempts;
    }

    method RecordLoginSuccess()
      modifies this
      ensures Row() == FRESH
    {
      failedLoginAttempts := 0;
      lockedUntil := None;
    }

    /** The lockout part of login; the lock is checked once, before the progressive delay. */
    method Login(checkAt: int, recordAt: int, rightPassword: bool) returns (answer: Answer)
      modifies this
      ensures answer == AnswerTo(old(Row()), Attempt(checkAt, recordAt, rightPassword))
      ensures Row() == After(old(Row()), Attempt(checkAt, recordAt, rightPassword))
    {
      var locked, _ := IsAccountLocked(checkAt);
      if locked {
        return Blocked;
      }
      if !rightPassword {
        var _, _, _ := RecordLoginFailure(recordAt);
        return Failed;
      }
      RecordLoginSuccess();
      answer := Succeeded;
    }
  }
}
