/** Login sessions and the rotation of refresh tokens. */
module Sessions {
  import opened Collections

  /** Row ids start at 1, so a stored user id is never falsy. */
  type UserId = id: int | id > 0 witness 1

  datatype Token = Token(text: string)

  const DAY := 24 * 60 * 60
  const IDLE_TIMEOUT := 24 * 60 * 60

  datatype Session = Session(user: UserId, token: Token, active: bool, rememberMe: bool,
                             expiresAt: int, lastActiveAt: int)

  /** The session table, a row's id being its index, and the registry of used refresh tokens. */
  datatype Tables = Tables(sessions: seq<Session>, used: map<Token, UserId>)

  function Lifetime(rememberMe: bool): int { if rememberMe then 30 * DAY else 7 * DAY }

  datatype Outcome = Refreshed(token: Token) | ReuseDetected | InvalidToken | TokenExpired | SessionIdle | UserNotFound

  predicate IsActive(db: Tables, i: int, token: Token) {
    0 <= i < |db.sessions| && db.sessions[i].active && db.sessions[i].token == token
  }

  function Revoked(sessions: seq<Session>, user: UserId): (r: seq<Session>)
    ensures |r| == |sessions|
  {
    seq(|sessions|, i requires 0 <= i < |sessions| =>
      if sessions[i].user == user then sessions[i].(active := false) else sessions[i])
  }

  // ---------------------------------------------------------------- steps

  datatype Step =
    | Login(user: UserId, minted: Token, rememberMe: bool, now: int)
    | Refresh(token: Token, minted: Token, now: int, userExists: bool)
    | RevokeAll(user: UserId)
    | RevokeSession(id: int, user: UserId)

  ghost predicate Issued(db: Tables, token: Token) {
    token in db.used || exists i :: 0 <= i < |db.sessions| && db.sessions[i].token == token
  }

  /** A token made by create_refresh_token has not been seen before. */
  ghost predicate Legal(db: Tables, step: Step) {
    (step.Login? || step.Refresh?) ==> !Issued(db, step.minted)
  }

  ghost predicate NoneActive(db: Tables, token: Token) {
    forall i :: !IsActive(db, i, token)
  }

  /** What the handler leaves behind, and its answer; the active session with the token, if there is one,
      is row i. */
  ghost predicate RefreshesTo(db: Tables, step: Step, i: int, after: Tables, outcome: Outcome)
    requires step.Refresh?
  {
    var token := step.token;
    if token in db.used then
      after == db.(sessions := Revoked(db.sessions, db.used[token])) && outcome == ReuseDetected
    else if !IsActive(db, i, token) then
      NoneActive(db, token) && after == db && outcome == InvalidToken
    else
      var s := db.sessions[i];
      if s.expiresAt < step.now then
        after == db.(sessions := db.sessions[i := s.(active := false)]) && outcome == TokenExpired
      else if step.now - s.lastActiveAt > IDLE_TIMEOUT then
        after == db.(sessions := db.sessions[i := s.(active := false)]) && outcome == SessionIdle
      else if !step.userExists then
        after == db && outcome == UserNotFound
      else
        && after.used == db.used[token := s.user]
        && after.sessions == db.sessions[i :=
             s.(token := step.minted, expiresAt := step.now + Lifetime(s.rememberMe), lastActiveAt := step.now)]
        && outcome == Refreshed(step.minted)
  }

  function OpenSession(db: Tables, step: Step): Tables
    requires step.Login?
  {
    db.(sessions := db.sessions +
      [Session(step.user, step.minted, true, step.rememberMe, step.now + Lifetime(step.rememberMe), step.now)])
  }

  function RevokeOne(db: Tables, id: int, user: UserId): Tables {
    if 0 <= id < |db.sessions| && db.sessions[id].user == user
    then db.(sessions := db.sessions[id := db.sessions[id].(active := false)]) else db
  }

  ghost predicate Next(db: Tables, step: Step, after: Tables, outcome: Outcome) {
    match step
    case Login(_, _, _, _) => after == OpenSession(db, step)
    case Refresh(_, _, _, _) => exists i :: RefreshesTo(db, step, i, after, outcome)
    case RevokeAll(user) => after == db.(sessions := Revoked(db.sessions, user))
    case RevokeSession(id, user) => after == RevokeOne(db, id, user)
  }

  // ---------------------------------------------------------------- what every step keeps

  /** No row holds a used token or one's lifetime starts anywhere but at its last activity. */
  ghost predicate RowOk(db: Tables, i: int) {
    0 <= i < |db.sessions| ==>
      && db.sessions[i].token !in db.used
      && db.sessions[i].expiresAt == db.sessions[i].lastActiveAt + Lifetime(db.sessions[i].rememberMe)
  }

  ghost predicate Apart(db: Tables, i: int, j: int) {
    0 <= i < j < |db.sessions| ==> db.sessions[i].token != db.sessions[j].token
  }

  ghost predicate Inv(db: Tables) {
    && (forall i :: RowOk(db, i))
    && (forall i, j :: Apart(db, i, j))
  }

  lemma StepKeeps(db: Tables, step: Step, after: Tables, outcome: Outcome)
    requires Inv(db) && Legal(db, step) && Next(db, step, after, outcome)
    ensures Inv(after)
  {
    if step.Refresh? {
      var i :| RefreshesTo(db, step, i, after, outcome);
      RefreshKeeps(db, step, i, after, outcome);
    } else {
      forall i ensures RowOk(after, i) {
        assert RowOk(db, i);
      }
      forall i, j ensures Apart(after, i, j) {
        assert Apart(db, i, j);
      }
    }
  }

  lemma RefreshKeeps(db: Tables, step: Step, row: int, after: Tables, outcome: Outcome)
    requires Inv(db) && Legal(db, step) && step.Refresh? && RefreshesTo(db, step, row, after, outcome)
    ensures Inv(after)
  {
    forall i ensures RowOk(after, i) {
      assert RowOk(db, i);
      if IsActive(db, row, step.token) && i != row { assert Apart(db, i, row) && Apart(db, row, i); }
    }
    forall i, j ensures Apart(after, i, j) {
      assert Apart(db, i, j);
    }
  }

  /** In every reachable state the stored expiry decides nothing: a session is refreshed if and only if it
      is active and was opened or refreshed at most a day ago, "remember me" or not. */
  lemma RememberMeDoesNotMatter(db: Tables, step: Step, i: int, after: Tables, outcome: Outcome)
    requires Inv(db) && step.Refresh? && RefreshesTo(db, step, i, after, outcome)
    ensures outcome.Refreshed? <==>
      step.userExists &&
      exists k :: IsActive(db, k, step.token) && step.now - db.sessions[k].lastActiveAt <= IDLE_TIMEOUT
  {
    forall k | IsActive(db, k, step.token)
      ensures step.token !in db.used && IsActive(db, i, step.token) && k == i
    {
      assert RowOk(db, k);
      assert Apart(db, k, i) && Apart(db, i, k);
    }
    if IsActive(db, i, step.token) { assert RowOk(db, i); }
  }

  /** In numbers: a session is opened and refreshed for 30 days or for 7, and refused after 24 hours of not being
      used. */
  lemma TimesInSeconds(db: Tables, step: Step, i: int, after: Tables, outcome: Outcome)
    ensures step.Login? ==>
      OpenSession(db, step).sessions == db.sessions +
        [Session(step.user, step.minted, true, step.rememberMe,
                 step.now + (if step.rememberMe then 2592000 else 604800), step.now)]
    ensures step.Refresh? && RefreshesTo(db, step, i, after, outcome) && outcome.Refreshed? ==>
      && 0 <= i < |db.sessions| == |after.sessions|
      && step.now - db.sessions[i].lastActiveAt <= 86400
      && after.sessions[i].expiresAt == step.now + (if db.sessions[i].rememberMe then 2592000 else 604800)
    ensures step.Refresh? && RefreshesTo(db, step, i, after, outcome) && outcome == SessionIdle ==>
      0 <= i < |db.sessions| && step.now - db.sessions[i].lastActiveAt > 86400
  {
  }

  // ---------------------------------------------------------------- runs

  /** A run: the states before, between and after its steps, and each step's answer. */
  ghost predicate Run(states: seq<Tables>, steps: seq<Step>, outcomes: seq<Outcome>) {
    && |states| == |steps| + 1 && |outcomes| == |steps|
    && forall n :: 0 <= n < |steps| ==> StepAt(states, steps, outcomes, n)
  }

  ghost predicate StepAt(states: seq<Tables>, steps: seq<Step>, outcomes: seq<Outcome>, n: nat)
    requires n < |steps| == |outcomes| == |states| - 1
  {
    Legal(states[n], steps[n]) && Next(states[n], steps[n], states[n + 1], outcomes[n])
  }

  lemma {:induction false} RunKeeps(states: seq<Tables>, steps: seq<Step>, outcomes: seq<Outcome>, n: nat)
    requires Run(states, steps, outcomes) && n < |states| && Inv(states[0])
    ensures Inv(states[n])
  {
    if n > 0 {
      RunKeeps(states, steps, outcomes, n - 1);
      assert StepAt(states, steps, outcomes, n - 1);
      StepKeeps(states[n - 1], steps[n - 1], states[n], outcomes[n - 1]);
    }
  }

  /** From the empty tables on, no session, active or not, holds a used token, and no two share one. */
  lemma NoSessionHoldsAUsedToken(states: seq<Tables>, steps: seq<Step>, outcomes: seq<Outcome>, n: nat, i: nat, j: nat)
    requires Run(states, steps, outcomes) && n < |states| && states[0] == Tables([], map[])
    requires i < |states[n].sessions| && j < |states[n].sessions|
    ensures states[n].sessions[i].token !in states[n].used
    ensures i != j ==> states[n].sessions[i].token != states[n].sessions[j].token
  {
    RunKeeps(states, steps, outcomes, n);
    assert RowOk(states[n], i);
    assert Apart(states[n], i, j) && Apart(states[n], j, i);
  }

  lemma {:induction false} UsedForGood(states: seq<Tables>, steps: seq<Step>, outcomes: seq<Outcome>, m: nat, n: nat,
                                       token: Token)
    requires Run(states, steps, outcomes) && m <= n < |states| && token in states[m].used
    ensures token in states[n].used
    decreases n - m
  {
    if m < n {
      UsedForGood(states, steps, outcomes, m, n - 1, token);
      assert StepAt(states, steps, outcomes, n - 1);
    }
  }

  /** Over a whole run, a refresh token is exchanged for a new one at most once. */
  lemma EachTokenOnce(states: seq<Tables>, steps: seq<Step>, outcomes: seq<Outcome>, m: nat, n: nat)
    requires Run(states, steps, outcomes) && m < |steps| && n < |steps|
    requires steps[m].Refresh? && outcomes[m].Refreshed?
    requires steps[n].Refresh? && outcomes[n].Refreshed?
    requires steps[m].token == steps[n].token
    ensures m == n
  {
    assert StepAt(states, steps, outcomes, m) && StepAt(states, steps, outcomes, n);
    if m < n {
      UsedForGood(states, steps, outcomes, m + 1, n, steps[n].token);
    } else if n < m {
      UsedForGood(states, steps, outcomes, n + 1, m, steps[m].token);
    }
  }

  ghost predicate NoSession(db: Tables, user: UserId) {
    forall i :: 0 <= i < |db.sessions| && db.sessions[i].user == user ==> !db.sessions[i].active
  }

  /** Once a token has been exchanged, presenting it again ends every session of its user, and the user has
      none until the next login. */
  lemma {:induction false} ReplayEndsAllSessions(states: seq<Tables>, steps: seq<Step>, outcomes: seq<Outcome>,
                                                 replay: nat, n: nat)
    requires Run(states, steps, outcomes) && replay < n < |states|
    requires steps[replay].Refresh? && steps[replay].token in states[replay].used
    requires forall k :: replay < k < n && steps[k].Login? ==>
      steps[k].user != states[replay].used[steps[replay].token]
    ensures outcomes[replay] == ReuseDetected
    ensures NoSession(states[n], states[replay].used[steps[replay].token])
    decreases n
  {
    assert StepAt(states, steps, outcomes, replay);
    if n > replay + 1 {
      ReplayEndsAllSessions(states, steps, outcomes, replay, n - 1);
      assert StepAt(states, steps, outcomes, n - 1);
    }
  }

  ghost predicate EndedFor(owner: UserId, before: Session, after: Session) {
    after == if before.user == owner then before.(active := false) else before
  }

  /** The used token is filed under the user whose session it refreshed, so the replay ends that user's
      sessions and nobody else's. */
  lemma ReplayTouchesOneUser(states: seq<Tables>, steps: seq<Step>, outcomes: seq<Outcome>, m: nat, n: nat, i: nat)
    requires Run(states, steps, outcomes) && m < n < |steps|
    requires steps[m].Refresh? && outcomes[m].Refreshed?
    requires steps[n].Refresh? && steps[n].token == steps[m].token
    requires i < |states[n].sessions|
    ensures |states[n + 1].sessions| == |states[n].sessions|
    ensures exists k :: IsActive(states[m], k, steps[m].token)
                        && EndedFor(states[m].sessions[k].user, states[n].sessions[i], states[n + 1].sessions[i])
  {
    assert StepAt(states, steps, outcomes, m) && StepAt(states, steps, outcomes, n);
    var k :| RefreshesTo(states[m], steps[m], k, states[m + 1], outcomes[m]);
    assert IsActive(states[m], k, steps[m].token);
    FiledUnderOwner(states, steps, outcomes, m + 1, n, steps[m].token);
  }

  lemma {:induction false} FiledUnderOwner(states: seq<Tables>, steps: seq<Step>, outcomes: seq<Outcome>, m: nat,
                                           n: nat, token: Token)
    requires Run(states, steps, outcomes) && m <= n < |states| && token in states[m].used
    ensures token in states[n].used && states[n].used[token] == states[m].used[token]
    decreases n - m
  {
    if m < n {
      FiledUnderOwner(states, steps, outcomes, m, n - 1, token);
      assert StepAt(states, steps, outcomes, n - 1);
    }
  }

  // ---------------------------------------------------------------- the handlers

  class AuthRoutes {
    var sessions: seq<Session>
    var used: map<Token, UserId>

    ghost function State(): Tables
      reads this
    {
      Tables(sessions, used)
    }

    constructor ()
      ensures State() == Tables([], map[])
    {
      sessions, used := [], map[];
    }

    /** The session part of login, once the password was right, and of registering. */
    method OpenNew(user: UserId, minted: Token, rememberMe: bool, now: int)
      modifies this
      ensures forall any :: Next(old(State()), Login(user, minted, rememberMe, now), State(), any)
    {
      var expiresAt := now + (if rememberMe then 30 * DAY else 7 * DAY);
      sessions := sessions + [Session(user, minted, true, rememberMe, expiresAt, now)];
    }

    /** get_session_by_refresh_token_async: the first active row with the token. */
    method FindActive(token: Token) returns (row: Option<nat>)
      ensures row.Some? ==> IsActive(State(), row.value, token)
      ensures row.None? ==> NoneActive(State(), token)
    {
      for i := 0 to |sessions|
        invariant forall k :: k < i ==> !IsActive(State(), k, token)
      {
        if sessions[i].active && sessions[i].token == token {
          return Some(i);
        }
      }
      return None;
    }

    method RefreshTokens(token: Token, minted: Token, now: int, userExists: bool) returns (outcome: Outcome)
      modifies this
      ensures Next(old(State()), Refresh(token, minted, now, userExists), State(), outcome)
    {
      ghost var step := Refresh(token, minted, now, userExists);
      if token in used {
        sessions := Revoked(sessions, used[token]);
        outcome := ReuseDetected;
        assert RefreshesTo(old(State()), step, 0, State(), outcome);
        return;
      }
      var row := FindActive(token);
      if row.None? {
        outcome := InvalidToken;
        assert RefreshesTo(old(State()), step, 0, State(), outcome);
        return;
      }
      var i := row.value;
      if sessions[i].expiresAt < now {
        sessions := sessions[i := sessions[i].(active := false)];
        outcome := TokenExpired;
        assert RefreshesTo(old(State()), step, i, State(), outcome);
        return;
      }
      if now - sessions[i].lastActiveAt > IDLE_TIMEOUT {
        sessions := sessions[i := sessions[i].(active := false)];
        outcome := SessionIdle;
        assert RefreshesTo(old(State()), step, i, State(), outcome);
        return;
      }
      if !userExists {
        outcome := UserNotFound;
        assert RefreshesTo(old(State()), step, i, State(), outcome);
        return;
      }
      used := used[token := sessions[i].user];
      var expiresAt := now + (if sessions[i].rememberMe then 30 * DAY else 7 * DAY);
      sessions := sessions[i := sessions[i].(token := minted, expiresAt := expiresAt, lastActiveAt := now)];
      outcome := Refreshed(minted);
      assert RefreshesTo(old(State()), step, i, State(), outcome);
    }

    /** revoke_all_user_sessions_async, as logout, a changed or reset password and revoke-all call it. */
    method RevokeAllSessions(user: UserId) returns (count: nat)
      modifies this`sessions
      ensures forall any :: Next(old(State()), RevokeAll(user), State(), any)
      ensures count == |set i | 0 <= i < |old(sessions)| && old(sessions)[i].user == user && old(sessions)[i].active|
      ensures NoSession(State(), user)
    {
      var matched := set i | 0 <= i < |sessions| && sessions[i].user == user && sessions[i].active;
      count := |matched|;
      sessions := Revoked(sessions, user);
    }

    method Revoke(id: int, user: UserId) returns (found: bool)
      modifies this`sessions
      ensures forall any :: Next(old(State()), RevokeSession(id, user), State(), any)
      ensures found <==> 0 <= id < |old(sessions)| && old(sessions)[id].user == user
    {
      found := 0 <= id < |sessions| && sessions[id].user == user;
      if found {
        sessions := sessions[id := sessions[id].(active := false)];
      }
    }
  }
}
