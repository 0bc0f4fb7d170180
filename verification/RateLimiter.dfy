/** The rate limiter's two paths: the local sliding window, and the Redis sorted set that also counts
    rejected attempts. */
module RateLimiter {
  import opened Collections

  datatype Client = Client(id: string)

  /** The stamps later than the cutoff, in order. */
  function Recent(stamps: seq<real>, cutoff: real): seq<real> {
    if stamps == [] then []
    else
      var last := stamps[|stamps| - 1];
      Recent(stamps[..|stamps| - 1], cutoff) + (if last > cutoff then [last] else [])
  }

  function LocalVerdict(stamps: seq<real>, now: real, limit: int, window: int): bool {
    |Recent(stamps, now - window as real)| < limit
  }

  function LocalStamps(stamps: seq<real>, now: real, limit: int, window: int): seq<real> {
    var valid := Recent(stamps, now - window as real);
    if |valid| >= limit then valid else valid + [now]
  }

  /** The sorted set without what the window has left behind, and with the attempt itself. */
  function SetStamps(members: set<real>, now: real, window: int): set<real> {
    (set t | t in members && !(0.0 <= t <= now - window as real)) + {now}
  }

  function SetVerdict(members: set<real>, now: real, limit: int, window: int): bool {
    |SetStamps(members, now, window)| <= limit
  }

  /** One step of the sorted set, its oddities included: what was stamped before time zero is never removed. */
  lemma SetHoldsExactly(members: set<real>, now: real, window: int, t: real)
    ensures t in SetStamps(members, now, window) <==>
      t == now || (t in members && (t < 0.0 || t + window as real > now))
  {
  }

  class DistributedRateLimiter {
    var localRequests: map<Client, seq<real>>
    /** The sorted sets Redis holds. */
    var sortedSets: map<Client, set<real>>

    constructor ()
      ensures localRequests == map[] && sortedSets == map[]
    {
      localRequests, sortedSets := map[], map[];
    }

    function LocalOf(client: Client): seq<real>
      reads this
    {
      if client in localRequests then localRequests[client] else []
    }

    function SetOf(client: Client): set<real>
      reads this
    {
      if client in sortedSets then sortedSets[client] else {}
    }

    method CheckRateLimit(client: Client, enabled: bool, redisUp: bool, now: real, limit: int, window: int)
      returns (allowed: bool)
      modifies this
      ensures !enabled ==> allowed && localRequests == old(localRequests) && sortedSets == old(sortedSets)
      ensures enabled && redisUp ==>
                && allowed == SetVerdict(old(SetOf(client)), now, limit, window)
                && sortedSets == old(sortedSets)[client := SetStamps(old(SetOf(client)), now, window)]
                && localRequests == old(localRequests)
      ensures enabled && !redisUp ==>
                && allowed == LocalVerdict(old(LocalOf(client)), now, limit, window)
                && localRequests == old(localRequests)[client := LocalStamps(old(LocalOf(client)), now, limit, window)]
                && sortedSets == old(sortedSets)
    {
      if !enabled { return true; }
      if redisUp {
        var members := SetStamps(SetOf(client), now, window);
        sortedSets := sortedSets[client := members];
        return |members| <= limit;
      }
      var cutoff := now - window as real;
      var stamps := LocalOf(client);
      var valid := [];
      for i := 0 to |stamps|
        invariant valid == Recent(stamps[..i], cutoff)
      {
        assert stamps[..i + 1][..i] == stamps[..i];
        if stamps[i] > cutoff { valid := valid + [stamps[i]]; }
      }
      assert stamps[..|stamps|] == stamps;
      if |valid| >= limit {
        localRequests := localRequests[client := valid];
        return false;
      }
      valid := valid + [now];
      localRequests := localRequests[client := valid];
      return true;
    }
  }

  // ---------------------------------------------------------------- traces of one client

  /** What the local path stores after these attempts, the latest last. */
  function StoredAfter(times: seq<real>, limit: int, window: int): seq<real> {
    if times == [] then []
    else LocalStamps(StoredAfter(times[..|times| - 1], limit, window), times[|times| - 1], limit, window)
  }

  predicate LocalAccepts(times: seq<real>, k: nat, limit: int, window: int)
    requires k < |times|
  {
    LocalVerdict(StoredAfter(times[..k], limit, window), times[k], limit, window)
  }

  /** The attempts the local path accepts. */
  function Accepted(times: seq<real>, limit: int, window: int): seq<real> {
    if times == [] then []
    else
      var before := times[..|times| - 1];
      var now := times[|times| - 1];
      Accepted(before, limit, window) +
      (if LocalVerdict(StoredAfter(before, limit, window), now, limit, window) then [now] else [])
  }

  function MembersAfter(times: seq<real>, window: int): set<real> {
    if times == [] then {}
    else SetStamps(MembersAfter(times[..|times| - 1], window), times[|times| - 1], window)
  }

  predicate SetAccepts(times: seq<real>, k: nat, limit: int, window: int)
    requires k < |times|
  {
    SetVerdict(MembersAfter(times[..k], window), times[k], limit, window)
  }

  /** How many of the stamps lie in the half-open interval (lo, hi]. */
  function CountIn(stamps: seq<real>, lo: real, hi: real): nat {
    if stamps == [] then 0
    else CountIn(stamps[..|stamps| - 1], lo, hi) + (if lo < stamps[|stamps| - 1] <= hi then 1 else 0)
  }

  ghost predicate NonDecreasing(times: seq<real>) {
    forall i, j :: 0 <= i < j < |times| ==> times[i] <= times[j]
  }

  ghost predicate Increasing(times: seq<real>) {
    forall i, j :: 0 <= i < j < |times| ==> times[i] < times[j]
  }

  ghost predicate UpTo(stamps: seq<real>, now: real) {
    forall i :: 0 <= i < |stamps| ==> stamps[i] <= now
  }

  lemma {:induction false} RecentOfRecent(stamps: seq<real>, early: real, late: real)
    requires early <= late
    ensures Recent(Recent(stamps, early), late) == Recent(stamps, late)
  {
    if stamps != [] {
      var before, last := stamps[..|stamps| - 1], stamps[|stamps| - 1];
      RecentOfRecent(before, early, late);
      if last > early {
        var kept := Recent(before, early);
        assert (kept + [last])[..|kept|] == kept;
      } else {
        assert Recent(stamps, early) == Recent(before, early);
      }
    }
  }

  lemma RecentAppend(stamps: seq<real>, now: real, cutoff: real)
    ensures Recent(stamps + [now], cutoff) == Recent(stamps, cutoff) + if now > cutoff then [now] else []
  {
    assert (stamps + [now])[..|stamps|] == stamps;
  }

  /** Counting the stored stamps is counting an interval, once nothing lies beyond its end. */
  lemma {:induction false} RecentCounts(stamps: seq<real>, lo: real, hi: real)
    requires UpTo(stamps, hi)
    ensures |Recent(stamps, lo)| == CountIn(stamps, lo, hi)
  {
    if stamps != [] { RecentCounts(stamps[..|stamps| - 1], lo, hi); }
  }

  lemma {:induction false} CountWithin(stamps: seq<real>, lo: real, hi: real, lo': real, hi': real)
    requires lo' <= lo && hi <= hi'
    ensures CountIn(stamps, lo, hi) <= CountIn(stamps, lo', hi')
  {
    if stamps != [] { CountWithin(stamps[..|stamps| - 1], lo, hi, lo', hi'); }
  }

  lemma CountAppend(stamps: seq<real>, now: real, lo: real, hi: real)
    ensures CountIn(stamps + [now], lo, hi) == CountIn(stamps, lo, hi) + if lo < now <= hi then 1 else 0
  {
    assert (stamps + [now])[..|stamps|] == stamps;
  }

  /** Two sequences of stamps agree on every window that starts at `oldest` or later. */
  ghost predicate AgreeFrom(stored: seq<real>, accepted: seq<real>, oldest: real) {
    forall cutoff :: cutoff >= oldest ==> Recent(stored, cutoff) == Recent(accepted, cutoff)
  }

  lemma {:induction false} PruneAgrees(stored: seq<real>, accepted: seq<real>, oldest: real, cutoff: real)
    requires AgreeFrom(stored, accepted, oldest) && oldest <= cutoff
    ensures AgreeFrom(Recent(stored, cutoff), accepted, cutoff)
  {
    forall later | later >= cutoff
      ensures Recent(Recent(stored, cutoff), later) == Recent(accepted, later)
    {
      RecentOfRecent(stored, cutoff, later);
    }
  }

  lemma AppendAgrees(stored: seq<real>, accepted: seq<real>, oldest: real, now: real)
    requires AgreeFrom(stored, accepted, oldest)
    ensures AgreeFrom(stored + [now], accepted + [now], oldest)
  {
    forall cutoff | cutoff >= oldest
      ensures Recent(stored + [now], cutoff) == Recent(accepted + [now], cutoff)
    {
      RecentAppend(stored, now, cutoff);
      RecentAppend(accepted, now, cutoff);
    }
  }

  /** The store agrees with the accepted attempts on the current window and later ones. */
  lemma {:induction false} StoredAgrees(times: seq<real>, limit: int, window: int, oldest: real)
    requires NonDecreasing(times) && window > 0
    requires times == [] || oldest == times[|times| - 1] - window as real
    ensures AgreeFrom(StoredAfter(times, limit, window), Accepted(times, limit, window), oldest)
  {
    if times != [] {
      var before, now := times[..|times| - 1], times[|times| - 1];
      var stored, accepted := StoredAfter(before, limit, window), Accepted(before, limit, window);
      var valid := Recent(stored, oldest);
      var earlier := if before == [] then oldest else before[|before| - 1] - window as real;
      StoredAgrees(before, limit, window, earlier);
      PruneAgrees(stored, accepted, earlier, oldest);
      AppendAgrees(valid, accepted, oldest, now);
      PrefixAccepted(times, limit, window);
    }
  }

  lemma {:induction false} AcceptedUpTo(times: seq<real>, limit: int, window: int, now: real)
    requires UpTo(times, now)
    ensures UpTo(Accepted(times, limit, window), now)
  {
    if times != [] { AcceptedUpTo(times[..|times| - 1], limit, window, now); }
  }

  lemma PrefixAccepted(times: seq<real>, limit: int, window: int)
    requires times != []
    ensures var before := times[..|times| - 1];
            Accepted(times, limit, window) ==
            if LocalAccepts(times, |times| - 1, limit, window)
            then Accepted(before, limit, window) + [times[|times| - 1]]
            else Accepted(before, limit, window)
  {
    var before := times[..|times| - 1];
    assert Accepted(before, limit, window) + [] == Accepted(before, limit, window);
  }

  /** Exactness: an attempt is accepted if and only if fewer than `limit` accepted attempts lie in the
      window that ends with it. */
  lemma LocalExact(times: seq<real>, k: nat, limit: int, window: int)
    requires NonDecreasing(times) && k < |times| && window > 0
    ensures LocalAccepts(times, k, limit, window) <==>
            CountIn(Accepted(times[..k], limit, window), times[k] - window as real, times[k]) < limit
  {
    var before := times[..k];
    var oldest := if before == [] then times[k] - window as real else before[k - 1] - window as real;
    StoredAgrees(before, limit, window, oldest);
    assert Recent(StoredAfter(before, limit, window), times[k] - window as real) ==
           Recent(Accepted(before, limit, window), times[k] - window as real);
    AcceptedUpTo(before, limit, window, times[k]);
    RecentCounts(Accepted(before, limit, window), times[k] - window as real, times[k]);
  }

  lemma WindowStep(accepted: seq<real>, now: real, start: real, end: real, oldest: real, limit: nat)
    requires UpTo(accepted, now) && end - start == now - oldest
    requires CountIn(accepted, start, end) <= limit && CountIn(accepted, oldest, now) < limit
    ensures CountIn(accepted + [now], start, end) <= limit
  {
    CountAppend(accepted, now, start, end);
    if start < now <= end {
      RecentCounts(accepted, start, end);
      RecentCounts(accepted, start, now);
      CountWithin(accepted, start, now, oldest, now);
    }
  }

  lemma WindowBoundStep(times: seq<real>, limit: nat, window: int, start: real, end: real)
    requires NonDecreasing(times) && window > 0 && times != [] && end - start == window as real
    requires CountIn(Accepted(times[..|times| - 1], limit, window), start, end) <= limit
    ensures CountIn(Accepted(times, limit, window), start, end) <= limit
  {
    var k := |times| - 1;
    var accepted := Accepted(times[..k], limit, window);
    PrefixAccepted(times, limit, window);
    if LocalAccepts(times, k, limit, window) {
      LocalExact(times, k, limit, window);
      AcceptedUpTo(times[..k], limit, window, times[k]);
      WindowStep(accepted, times[k], start, end, times[k] - window as real, limit);
    }
  }

  /** No half-open interval of the window's length holds more than `limit` accepted attempts. */
  lemma {:induction false} LocalWindowBound(times: seq<real>, limit: nat, window: int, start: real)
    requires NonDecreasing(times) && window > 0
    ensures CountIn(Accepted(times, limit, window), start, start + window as real) <= limit
  {
    if times != [] {
      LocalWindowBound(times[..|times| - 1], limit, window, start);
      WindowBoundStep(times, limit, window, start, start + window as real);
    }
  }

  // ---------------------------------------------------------------- the sorted-set path

  /** Attempts in order, no time before the epoch. */
  ghost predicate Clocked(times: seq<real>) {
    NonDecreasing(times) && forall i :: 0 <= i < |times| ==> times[i] >= 0.0
  }

  /** No two attempts after the cutoff have the same stamp. */
  ghost predicate DistinctSince(times: seq<real>, cutoff: real) {
    forall i, j :: 0 <= i < j < |times| && times[i] > cutoff ==> times[i] != times[j]
  }

  lemma IncreasingIsDistinct(times: seq<real>, k: nat, cutoff: real)
    requires Increasing(times) && k < |times|
    ensures DistinctSince(times[..k + 1], cutoff)
  {
  }

  /** The stamps, each once, of the attempts in (lo, hi]. */
  function StampsIn(times: seq<real>, lo: real, hi: real): set<real> {
    set t | t in times && lo < t <= hi
  }

  lemma {:induction false} SetHoldsRecent(times: seq<real>, window: int, t: real)
    requires Clocked(times) && window > 0
    ensures t in MembersAfter(times, window) <==> t in times && t > times[|times| - 1] - window as real
  {
    if times != [] {
      var before, now := times[..|times| - 1], times[|times| - 1];
      assert times == before + [now];
      SetHoldsRecent(before, window, t);
    }
  }

  lemma {:induction false} RecentElements(stamps: seq<real>, cutoff: real, t: real)
    ensures t in Recent(stamps, cutoff) <==> t in stamps && t > cutoff
  {
    if stamps != [] {
      assert stamps == stamps[..|stamps| - 1] + [stamps[|stamps| - 1]];
      RecentElements(stamps[..|stamps| - 1], cutoff, t);
    }
  }

  lemma {:induction false} RecentDistinct(stamps: seq<real>, cutoff: real)
    requires DistinctSince(stamps, cutoff)
    ensures NoDuplicates(Recent(stamps, cutoff))
  {
    if stamps != [] {
      var before, last := stamps[..|stamps| - 1], stamps[|stamps| - 1];
      RecentDistinct(before, cutoff);
      RecentElements(before, cutoff, last);
      assert last > cutoff ==> forall i :: 0 <= i < |before| ==> before[i] == stamps[i] != last;
    }
  }

  /** The sorted-set path accepts an attempt if and only if the window that ends with it holds at most
      `limit` different stamps, its own among them. */
  lemma SetCountsStamps(times: seq<real>, k: nat, limit: int, window: int)
    requires Clocked(times) && window > 0 && k < |times|
    ensures SetAccepts(times, k, limit, window) <==>
            |StampsIn(times[..k + 1], times[k] - window as real, times[k])| <= limit
  {
    var before, now := times[..k], times[k];
    var members := SetStamps(MembersAfter(before, window), now, window);
    assert times[..k + 1] == before + [now];
    forall t
      ensures t in members <==> t in StampsIn(times[..k + 1], now - window as real, now)
    {
      SetHoldsRecent(before, window, t);
    }
    assert members == StampsIn(times[..k + 1], now - window as real, now);
  }

  lemma DistinctStampsCount(times: seq<real>, lo: real, hi: real)
    requires UpTo(times, hi) && DistinctSince(times, lo)
    ensures |StampsIn(times, lo, hi)| == CountIn(times, lo, hi)
  {
    forall t
      ensures t in Recent(times, lo) <==> t in StampsIn(times, lo, hi)
    {
      RecentElements(times, lo, t);
    }
    RecentDistinct(times, lo);
    DistinctCount(Recent(times, lo), StampsIn(times, lo, hi));
    RecentCounts(times, lo, hi);
  }

  /** While no two attempts of the window have the same stamp, it accepts if and only if fewer than `limit`
      earlier attempts, accepted or not, lie in the window. */
  lemma SetExact(times: seq<real>, k: nat, limit: int, window: int)
    requires Clocked(times) && window > 0 && k < |times|
    requires DistinctSince(times[..k + 1], times[k] - window as real)
    ensures SetAccepts(times, k, limit, window) <==>
            CountIn(times[..k], times[k] - window as real, times[k]) < limit
  {
    SetCountsStamps(times, k, limit, window);
    LastCounts(times, k, times[k] - window as real);
    DistinctStampsCount(times[..k + 1], times[k] - window as real, times[k]);
  }

  lemma LastCounts(times: seq<real>, k: nat, lo: real)
    requires NonDecreasing(times) && k < |times| && lo < times[k]
    ensures CountIn(times[..k + 1], lo, times[k]) == CountIn(times[..k], lo, times[k]) + 1
    ensures UpTo(times[..k + 1], times[k])
  {
    assert times[..k + 1] == times[..k] + [times[k]];
    CountAppend(times[..k], times[k], lo, times[k]);
  }

  ghost predicate AcceptedAt(times: seq<real>, i: int, limit: int, window: int) {
    0 <= i < |times| && LocalAccepts(times, i, limit, window)
  }

  lemma OneMoreAttempt(times: seq<real>, limit: int, window: int, lo: real, hi: real)
    requires times != []
    ensures
      var before, now := times[..|times| - 1], times[|times| - 1];
      var counts := if lo < now <= hi then 1 else 0;
      && CountIn(times, lo, hi) == CountIn(before, lo, hi) + counts
      && CountIn(Accepted(times, limit, window), lo, hi) ==
         CountIn(Accepted(before, limit, window), lo, hi) +
         if AcceptedAt(times, |times| - 1, limit, window) then counts else 0
  {
    var before, now := times[..|times| - 1], times[|times| - 1];
    PrefixAccepted(times, limit, window);
    CountAppend(Accepted(before, limit, window), now, lo, hi);
  }

  lemma {:induction false} AcceptedAreAttempts(times: seq<real>, limit: int, window: int, lo: real, hi: real)
    ensures CountIn(Accepted(times, limit, window), lo, hi) <= CountIn(times, lo, hi)
  {
    if times != [] {
      AcceptedAreAttempts(times[..|times| - 1], limit, window, lo, hi);
      OneMoreAttempt(times, limit, window, lo, hi);
    }
  }

  /** Two-path refinement: while no two attempts of the window have the same stamp, as in every strictly
      increasing trace, whatever the sorted-set path accepts the local path accepts. */
  lemma SetRefinesLocal(times: seq<real>, k: nat, limit: int, window: int)
    requires Clocked(times) && window > 0 && k < |times|
    requires DistinctSince(times[..k + 1], times[k] - window as real)
    requires SetAccepts(times, k, limit, window)
    ensures LocalAccepts(times, k, limit, window)
  {
    SetExact(times, k, limit, window);
    LocalExact(times, k, limit, window);
    AcceptedAreAttempts(times[..k], limit, window, times[k] - window as real, times[k]);
  }

  /** Each path accepts what the other rejects exactly when the limit lies between what the two count: the
      accepted attempts of the window, and its different stamps. So the refinement survives equal stamps
      unless they bring the stamps down to the limit while that many attempts were accepted. */
  lemma {:induction false} PathsDifferExactly(times: seq<real>, k: nat, limit: int, window: int)
    requires Clocked(times) && window > 0 && k < |times|
    ensures
      var lo, hi := times[k] - window as real, times[k];
      var accepted := CountIn(Accepted(times[..k], limit, window), lo, hi);
      var stamps := |StampsIn(times[..k + 1], lo, hi)|;
      var byLocal, bySet := LocalAccepts(times, k, limit, window), SetAccepts(times, k, limit, window);
      && (byLocal && !bySet <==> accepted < limit < stamps)
      && (bySet && !byLocal <==> stamps <= limit <= accepted)
  {
    SetCountsStamps(times, k, limit, window);
    LocalExact(times, k, limit, window);
  }

  /** Without equal stamps the verdicts differ if and only if enough attempts of the window were rejected: the
      attempts reach the limit, and the accepted ones do not. */
  lemma RejectionsDifferExactly(times: seq<real>, k: nat, limit: int, window: int)
    requires Clocked(times) && window > 0 && k < |times|
    requires DistinctSince(times[..k + 1], times[k] - window as real)
    ensures
      var lo, hi := times[k] - window as real, times[k];
      LocalAccepts(times, k, limit, window) != SetAccepts(times, k, limit, window) <==>
      CountIn(Accepted(times[..k], limit, window), lo, hi) < limit <= CountIn(times[..k], lo, hi)
  {
    SetExact(times, k, limit, window);
    LocalExact(times, k, limit, window);
    AcceptedAreAttempts(times[..k], limit, window, times[k] - window as real, times[k]);
  }

  ghost predicate AllAccepted(times: seq<real>, limit: int, window: int, lo: real, hi: real) {
    forall i :: 0 <= i < |times| && lo < times[i] <= hi ==> AcceptedAt(times, i, limit, window)
  }

  lemma AcceptedBefore(times: seq<real>, k: nat, limit: int, window: int, lo: real, hi: real)
    requires k <= |times| && forall i :: 0 <= i < k && lo < times[i] <= hi ==> AcceptedAt(times, i, limit, window)
    ensures AllAccepted(times[..k], limit, window, lo, hi)
  {
    forall i | 0 <= i < k && lo < times[i] <= hi
      ensures AcceptedAt(times[..k], i, limit, window)
    {
      assert AcceptedAt(times, i, limit, window) && times[..k][..i] == times[..i];
    }
  }

  lemma {:induction false} AllAcceptedCount(times: seq<real>, limit: int, window: int, lo: real, hi: real)
    requires AllAccepted(times, limit, window, lo, hi)
    ensures CountIn(Accepted(times, limit, window), lo, hi) == CountIn(times, lo, hi)
  {
    if times != [] {
      AcceptedBefore(times, |times| - 1, limit, window, lo, hi);
      AllAcceptedCount(times[..|times| - 1], limit, window, lo, hi);
      OneMoreAttempt(times, limit, window, lo, hi);
    }
  }

  /** If no attempt of the window was rejected, and none has the stamp of another, the paths agree. */
  lemma NoRejectionsAgree(times: seq<real>, k: nat, limit: int, window: int)
    requires Clocked(times) && window > 0 && k < |times|
    requires DistinctSince(times[..k + 1], times[k] - window as real)
    requires forall i :: 0 <= i < k && times[i] > times[k] - window as real ==> AcceptedAt(times, i, limit, window)
    ensures LocalAccepts(times, k, limit, window) <==> SetAccepts(times, k, limit, window)
  {
    var lo, hi := times[k] - window as real, times[k];
    AcceptedBefore(times, k, limit, window, lo, hi);
    AllAcceptedCount(times[..k], limit, window, lo, hi);
    RejectionsDifferExactly(times, k, limit, window);
  }

  lemma OneAccepted()
    ensures Accepted([1.0], 1, 10) == [1.0]
  {
    LocalExact([1.0], 0, 1, 10);
    assert [1.0][..0] == [];
    PrefixAccepted([1.0], 1, 10);
  }

  lemma OneOfTwoAccepted()
    ensures Accepted([1.0, 6.0], 1, 10) == [1.0]
  {
    OneAccepted();
    LocalExact([1.0, 6.0], 1, 1, 10);
    assert [1.0, 6.0][..1] == [1.0] == [] + [1.0];
    CountAppend([], 1.0, -4.0, 6.0);
    PrefixAccepted([1.0, 6.0], 1, 10);
  }

  lemma ExampleCounts()
    ensures CountIn([1.0], 2.0, 12.0) == 0 && CountIn([1.0, 6.0], 2.0, 12.0) == 1
  {
    assert [1.0] == [] + [1.0] && [1.0, 6.0] == [1.0] + [6.0];
    CountAppend([], 1.0, 2.0, 12.0);
    CountAppend([1.0], 6.0, 2.0, 12.0);
  }

  /** ... and not the other way round: a rejected attempt still counts against the sorted set. */
  lemma PathsDiffer(times: seq<real>)
    requires times == [1.0, 6.0, 12.0]
    ensures LocalAccepts(times, 2, 1, 10) && !SetAccepts(times, 2, 1, 10)
  {
    assert times[..2] == [1.0, 6.0];
    OneOfTwoAccepted();
    ExampleCounts();
    LocalExact(times, 2, 1, 10);
    SetExact(times, 2, 1, 10);
  }

  ghost predicate AllAt(times: seq<real>, t: real) {
    forall i :: 0 <= i < |times| ==> times[i] == t
  }

  lemma {:induction false} AllAtCount(times: seq<real>, t: real, lo: real)
    requires AllAt(times, t) && lo < t
    ensures CountIn(times, lo, t) == |times|
  {
    if times != [] { AllAtCount(times[..|times| - 1], t, lo); }
  }

  /** Once all earlier attempts at the moment were accepted, the limit is what counts. */
  lemma AllAtAccepted(times: seq<real>, t: real, k: nat, limit: nat, window: int)
    requires AllAt(times, t) && window > 0 && k < |times|
    requires forall i :: 0 <= i < k ==> AcceptedAt(times, i, limit, window)
    ensures LocalAccepts(times, k, limit, window) <==> k < limit
  {
    var lo := t - window as real;
    assert NonDecreasing(times);
    LocalExact(times, k, limit, window);
    assert CountIn(Accepted(times[..k], limit, window), lo, t) == k by {
      AllAtCount(times[..k], t, lo);
      AcceptedBefore(times, k, limit, window, lo, t);
      AllAcceptedCount(times[..k], limit, window, lo, t);
    }
  }

  /** Of attempts at one moment the local path accepts the first `limit` and no other. */
  lemma AllAtLocal(times: seq<real>, t: real, k: nat, limit: nat, window: int)
    requires AllAt(times, t) && window > 0 && k < |times| && k <= limit
    ensures LocalAccepts(times, k, limit, window) <==> k < limit
    decreases k
  {
    forall i | 0 <= i < k
      ensures AcceptedAt(times, i, limit, window)
    {
      AllAtLocal(times, t, i, limit, window);
    }
    AllAtAccepted(times, t, k, limit, window);
  }

  lemma AllAtSet(times: seq<real>, t: real, k: nat, limit: nat, window: int)
    requires AllAt(times, t) && t >= 0.0 && window > 0 && k < |times| && limit > 0
    ensures SetAccepts(times, k, limit, window)
  {
    var stamps := StampsIn(times[..k + 1], t - window as real, t);
    SetCountsStamps(times, k, limit, window);
    assert times[..k + 1][k] == t && stamps == {t};
  }

  /** That the attempts have different stamps is needed: of limit + 1 attempts at one moment the set, which
      holds them as one member, accepts the last, and the local path rejects it. */
  lemma EqualStampsCountOnce(times: seq<real>, t: real, limit: nat, window: int)
    requires AllAt(times, t) && t >= 0.0 && window > 0 && limit > 0 && |times| == limit + 1
    ensures SetAccepts(times, limit, limit, window) && !LocalAccepts(times, limit, limit, window)
  {
    AllAtSet(times, t, limit, limit, window);
    AllAtLocal(times, t, limit, limit, window);
  }
}
