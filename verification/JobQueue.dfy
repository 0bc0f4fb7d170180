/** The job queue in Redis mode: four lists and a pop counter. */
module JobQueue {
  import opened Collections
  import opened Strings

  datatype Level = High | Normal | Low | Default

  datatype Priority = Number(n: int) | Name(name: string) | Other

  datatype Job = Job(id: int, jobType: string, userId: int, level: Level, score: int, groupId: Option<string>)

  /** The level a priority stands for, and its score. */
  function ParsePriority(priority: Priority): (Level, int) {
    match priority
    case Number(n) => if n <= 3 then (High, n) else if n >= 8 then (Low, n) else (Normal, n)
    case Name(name) =>
      var lower := LowerCase(name);
      if lower == "high" then (High, 1)
      else if lower == "normal" then (Normal, 5)
      else if lower == "low" then (Low, 10)
      else (Normal, 5)
    case Other => (Normal, 5)
  }

  function Urgency(level: Level): int {
    match level case High => 3 case Normal => 2 case Low => 1 case Default => 0
  }

  /** Every priority stands for the number that is its score; a smaller number never waits in a later
      list; and nothing stands for the unsuffixed list. */
  lemma ScoreDecides(p: Priority, q: Priority)
    ensures ParsePriority(Number(ParsePriority(p).1)) == ParsePriority(p)
    ensures ParsePriority(p).1 <= ParsePriority(q).1 ==> Urgency(ParsePriority(p).0) >= Urgency(ParsePriority(q).0)
    ensures ParsePriority(p).0 != Default
  {
  }

  /** Whatever stands for the priority, up to 3 is high and from 8 on low; the three names, in any case, stand for 1, 5
      and 10, and everything else for 5. */
  lemma LevelsInNumbers(p: Priority)
    ensures
      var (level, score) := ParsePriority(p);
      && level == (if score <= 3 then High else if score < 8 then Normal else Low)
      && (p.Number? ==> score == p.n)
      && (p.Name? && LowerCase(p.name) == "high" ==> score == 1)
      && (p.Name? && LowerCase(p.name) == "low" ==> score == 10)
      && (!p.Number? && !(p.Name? && LowerCase(p.name) in {"high", "low"}) ==> score == 5)
  {
  }

  // ---------------------------------------------------------------- the lists

  /** The lists hold payloads of any type T; `pops` is the pop counter. */
  datatype Lists<T> = Lists(high: seq<T>, normal: seq<T>, low: seq<T>, base: seq<T>, pops: nat)

  function At<T>(q: Lists<T>, level: Level): seq<T> {
    match level
    case High => q.high
    case Normal => q.normal
    case Low => q.low
    case Default => q.base
  }

  function With<T>(q: Lists<T>, level: Level, jobs: seq<T>): Lists<T> {
    match level
    case High => q.(high := jobs)
    case Normal => q.(normal := jobs)
    case Low => q.(low := jobs)
    case Default => q.(base := jobs)
  }

  function Push<T>(q: Lists<T>, level: Level, job: T): Lists<T> {
    With(q, level, At(q, level) + [job])
  }

  /** What a caller asks for, and the job it becomes. */
  datatype Request = Request(jobType: string, id: int, userId: int, priority: Priority, groupId: Option<string>)

  function JobOf(r: Request): Job {
    var (level, score) := ParsePriority(r.priority);
    Job(r.id, r.jobType, r.userId, level, score, r.groupId)
  }

  function PushAll(q: Lists<Job>, requests: seq<Request>): Lists<Job>
    decreases |requests|
  {
    if requests == [] then q
    else
      var job := JobOf(requests[0]);
      PushAll(Push(q, job.level, job), requests[1..])
  }

  /** The order in which a pop looks at the lists: every fifth one looks at the high list last. */
  function Turn(pops: nat): seq<Level> {
    if pops % 5 == 0 then [Normal, Low, Default, High] else [High, Normal, Low, Default]
  }

  /** The first of these lists that holds a job. */
  function FirstNonEmpty<T>(q: Lists<T>, levels: seq<Level>): (source: Option<Level>)
    ensures source.Some? ==> At(q, source.value) != []
  {
    if levels == [] then None
    else if |At(q, levels[0])| > 0 then Some(levels[0])
    else FirstNonEmpty(q, levels[1..])
  }

  /** The list a pop takes from, if any holds a job. */
  function Source<T>(q: Lists<T>): (source: Option<Level>)
    ensures source.Some? ==> At(q, source.value) != []
  {
    FirstNonEmpty(q, Turn(q.pops + 1))
  }

  function Pop<T>(q: Lists<T>): Lists<T> {
    match Source(q)
    case None => q.(pops := q.pops + 1)
    case Some(level) => With(q, level, At(q, level)[1..]).(pops := q.pops + 1)
  }

  /** The job a pop returns. */
  function Returned<T>(q: Lists<T>): Option<T> {
    match Source(q)
    case None => None
    case Some(level) => Some(At(q, level)[0])
  }

  lemma FirstOfFour<T>(q: Lists<T>, a: Level, b: Level, c: Level, d: Level)
    ensures FirstNonEmpty(q, [a, b, c, d]) ==
            if |At(q, a)| > 0 then Some(a) else if |At(q, b)| > 0 then Some(b)
            else if |At(q, c)| > 0 then Some(c) else if |At(q, d)| > 0 then Some(d) else None
  {
    assert [a, b, c, d][1..] == [b, c, d];
    assert [b, c, d][1..] == [c, d];
    assert [c, d][1..] == [d];
    assert FirstNonEmpty(q, [d][1..]) == None;
    assert FirstNonEmpty(q, [c, d]) == if |At(q, c)| > 0 then Some(c) else FirstNonEmpty(q, [d]);
    assert FirstNonEmpty(q, [b, c, d]) == if |At(q, b)| > 0 then Some(b) else FirstNonEmpty(q, [c, d]);
  }

  /** Every fifth pop serves normal, low, default, high; the others high, normal, low, default. */
  lemma SourceFacts<T>(q: Lists<T>)
    ensures (q.pops + 1) % 5 == 0 ==>
              Source(q) == if |q.normal| > 0 then Some(Normal) else if |q.low| > 0 then Some(Low)
                           else if |q.base| > 0 then Some(Default) else if |q.high| > 0 then Some(High) else None
    ensures (q.pops + 1) % 5 != 0 ==>
              Source(q) == if |q.high| > 0 then Some(High) else if |q.normal| > 0 then Some(Normal)
                           else if |q.low| > 0 then Some(Low) else if |q.base| > 0 then Some(Default) else None
  {
    if (q.pops + 1) % 5 == 0 {
      FirstOfFour(q, Normal, Low, Default, High);
    } else {
      FirstOfFour(q, High, Normal, Low, Default);
    }
  }

  /** The counter plays no part in which list is first. */
  lemma {:induction false} SameLists<T>(q: Lists<T>, q': Lists<T>, levels: seq<Level>)
    requires q' == q.(pops := q'.pops)
    ensures FirstNonEmpty(q', levels) == FirstNonEmpty(q, levels)
  {
    if levels != [] { SameLists(q, q', levels[1..]); }
  }

  /** Which list a pop serves: none while all are empty; the high one, but on every fifth pop only if the others are
      empty; of the others the normal one before the low one before the unsuffixed one. The list loses its head and
      nothing else changes. */
  lemma ServesInOrder<T>(q: Lists<T>)
    ensures
      var fifth := q.pops % 5 == 4;
      var others := q.normal != [] || q.low != [] || q.base != [];
      var after := q.(pops := q.pops + 1);
      if q.high != [] && !(fifth && others) then
        Returned(q) == Some(q.high[0]) && Pop(q) == after.(high := q.high[1..])
      else if q.normal != [] then
        Returned(q) == Some(q.normal[0]) && Pop(q) == after.(normal := q.normal[1..])
      else if q.low != [] then
        Returned(q) == Some(q.low[0]) && Pop(q) == after.(low := q.low[1..])
      else if q.base != [] then
        Returned(q) == Some(q.base[0]) && Pop(q) == after.(base := q.base[1..])
      else
        Returned(q) == None && Pop(q) == after
  {
    FirstOfFour(q, High, Normal, Low, Default);
    FirstOfFour(q, Normal, Low, Default, High);
  }

  lemma AppendFirst<T>(s: seq<T>, x: T, t: seq<T>)
    ensures s + ([x] + t) == s + [x] + t
  {
  }

  /** What is left of the lists once one of them gave its first job. */
  function Served<T>(q: Lists<T>, level: Level): Lists<T> {
    if At(q, level) == [] then q else With(q, level, At(q, level)[1..])
  }

  // ---------------------------------------------------------------- the service

  class RedisJobQueue {
    var high: seq<Job>
    var normal: seq<Job>
    var low: seq<Job>
    var base: seq<Job>
    var popCounter: nat

    ghost function State(): Lists<Job>
      reads this
    {
      Lists(high, normal, low, base, popCounter)
    }

    constructor ()
      ensures State() == Lists([], [], [], [], 0)
    {
      high, normal, low, base, popCounter := [], [], [], [], 0;
    }

    /** To the end of the list of the job's level. */
    method PushJob(job: Job)
      modifies this
      ensures State() == Push(old(State()), job.level, job)
    {
      match job.level
      case High => high := high + [job];
      case Normal => normal := normal + [job];
      case Low => low := low + [job];
      case Default => base := base + [job];
    }

    method Enqueue(r: Request) returns (id: int)
      modifies this
      ensures id == r.id
      ensures State() == Push(old(State()), JobOf(r).level, JobOf(r))
    {
      var (level, score) := ParsePriority(r.priority);
      PushJob(Job(r.id, r.jobType, r.userId, level, score, r.groupId));
      id := r.id;
    }

    /** The pipeline pushes the jobs one after the other. */
    method EnqueueBatch(requests: seq<Request>) returns (ids: seq<int>)
      modifies this
      ensures State() == PushAll(old(State()), requests)
      ensures |ids| == |requests| && forall i :: 0 <= i < |requests| ==> ids[i] == requests[i].id
    {
      ids := [];
      for i := 0 to |requests|
        invariant PushAll(State(), requests[i..]) == PushAll(old(State()), requests)
        invariant |ids| == i && forall j :: 0 <= j < i ==> ids[j] == requests[j].id
      {
        assert requests[i..][0] == requests[i] && requests[i..][1..] == requests[i + 1..];
        var (level, score) := ParsePriority(requests[i].priority);
        PushJob(Job(requests[i].id, requests[i].jobType, requests[i].userId, level, score, requests[i].groupId));
        ids := ids + [requests[i].id];
      }
    }

    /** From the front of one list. */
    method LeftPop(level: Level) returns (job: Option<Job>)
      modifies this
      ensures job == if At(old(State()), level) == [] then None else Some(At(old(State()), level)[0])
      ensures State() == Served(old(State()), level)
    {
      job := None;
      match level {
        case High => if high != [] { job := Some(high[0]); high := high[1..]; }
        case Normal => if normal != [] { job := Some(normal[0]); normal := normal[1..]; }
        case Low => if low != [] { job := Some(low[0]); low := low[1..]; }
        case Default => if base != [] { job := Some(base[0]); base := base[1..]; }
      }
    }

    method PopNextJob() returns (job: Option<Job>)
      modifies this
      ensures State() == Pop(old(State()))
      ensures job == Returned(old(State()))
    {
      popCounter := popCounter + 1;
      ghost var q := State();
      var levels := Turn(popCounter);
      job := None;
      var i := 0;
      while i < |levels|
        invariant 0 <= i <= |levels| && State() == q && job == None
        invariant FirstNonEmpty(q, levels[i..]) == FirstNonEmpty(q, levels)
      {
        assert levels[i..][0] == levels[i] && levels[i..][1..] == levels[i + 1..];
        job := LeftPop(levels[i]);
        if job.Some? { break; }
        i := i + 1;
      }
      SameLists(old(State()), q, levels);
    }

    /** Pops until the batch is full or a pop finds nothing. */
    method PopBatch(batchSize: int) returns (batch: seq<Job>)
      modifies this
      ensures State() == PopUpTo(old(State()), batchSize).0 && batch == PopUpTo(old(State()), batchSize).1
      ensures |batch| == if batchSize < 0 then 0 else if batchSize < Waiting(old(State())) then batchSize
                         else Waiting(old(State()))
      ensures Waiting(State()) == Waiting(old(State())) - |batch|
    {
      BatchLength(State(), batchSize);
      batch := [];
      var n := batchSize;
      assert [] + PopUpTo(State(), n).1 == PopUpTo(State(), n).1;
      while n > 0
        invariant PopUpTo(old(State()), batchSize).0 == PopUpTo(State(), n).0
        invariant PopUpTo(old(State()), batchSize).1 == batch + PopUpTo(State(), n).1
        decreases n
      {
        ghost var before := State();
        var job := PopNextJob();
        if job == None { return; }
        AppendFirst(batch, job.value, PopUpTo(State(), n - 1).1);
        batch := batch + [job.value];
        n := n - 1;
      }
    }
  }

  /** What a batch of at most n pops leaves and returns. */
  function PopUpTo<T>(q: Lists<T>, n: int): (Lists<T>, seq<T>)
    decreases n
  {
    if n <= 0 then (q, [])
    else
      match Returned(q)
      case None => (Pop(q), [])
      case Some(job) => (PopUpTo(Pop(q), n - 1).0, [job] + PopUpTo(Pop(q), n - 1).1)
  }

  function Waiting<T>(q: Lists<T>): nat {
    |q.high| + |q.normal| + |q.low| + |q.base|
  }

  /** A batch holds as many jobs as were asked for, or all that waited. */
  lemma {:induction false} BatchLength<T>(q: Lists<T>, n: int)
    ensures |PopUpTo(q, n).1| == if n < 0 then 0 else if n < Waiting(q) then n else Waiting(q)
    ensures Waiting(PopUpTo(q, n).0) == Waiting(q) - |PopUpTo(q, n).1|
    decreases n
  {
    if n > 0 {
      SourceFacts(q);
      if Source(q).Some? { BatchLength(Pop(q), n - 1); }
    }
  }

  // ---------------------------------------------------------------- runs

  datatype Op<T> = Enqueue(level: Level, job: T) | PopNext

  function Apply<T>(q: Lists<T>, op: Op<T>): Lists<T> {
    match op
    case Enqueue(level, job) => Push(q, level, job)
    case PopNext => Pop(q)
  }

  function Run<T>(q: Lists<T>, ops: seq<Op<T>>): Lists<T>
    decreases |ops|
  {
    if ops == [] then q else Run(Apply(q, ops[0]), ops[1..])
  }

  /** What one operation takes from and adds to a level. */
  function TakenBy<T>(q: Lists<T>, op: Op<T>, level: Level): seq<T> {
    if op.PopNext? && Source(q) == Some(level) then [At(q, level)[0]] else []
  }

  function AddedBy<T>(op: Op<T>, level: Level): seq<T> {
    if op.Enqueue? && op.level == level then [op.job] else []
  }

  /** The jobs a run enqueues at a level, in order. */
  function Enqueued<T>(ops: seq<Op<T>>, level: Level): seq<T>
    decreases |ops|
  {
    if ops == [] then [] else AddedBy(ops[0], level) + Enqueued(ops[1..], level)
  }

  /** The jobs a run's pops return from a level, in order. */
  function Popped<T>(q: Lists<T>, ops: seq<Op<T>>, level: Level): seq<T>
    decreases |ops|
  {
    if ops == [] then [] else TakenBy(q, ops[0], level) + Popped(Apply(q, ops[0]), ops[1..], level)
  }

  function Pops<T>(ops: seq<Op<T>>): nat
    decreases |ops|
  {
    if ops == [] then 0 else (if ops[0].PopNext? then 1 else 0) + Pops(ops[1..])
  }

  lemma WithAt<T>(q: Lists<T>, level: Level, jobs: seq<T>, other: Level)
    ensures At(With(q, level, jobs), other) == if level == other then jobs else At(q, other)
    ensures At(With(q, level, jobs).(pops := q.pops + 1), other) == if level == other then jobs else At(q, other)
  {
  }

  lemma PopConserves<T>(q: Lists<T>, level: Level)
    ensures TakenBy(q, PopNext, level) + At(Pop(q), level) == At(q, level)
  {
    if Source(q).Some? {
      var source := Source(q).value;
      var jobs := At(q, source);
      WithAt(q, source, jobs[1..], level);
      assert jobs == [jobs[0]] + jobs[1..];
    }
  }

  lemma StepConserves<T>(q: Lists<T>, op: Op<T>, level: Level)
    ensures TakenBy(q, op, level) + At(Apply(q, op), level) == At(q, level) + AddedBy(op, level)
  {
    match op
    case Enqueue(at, job) => WithAt(q, at, At(q, at) + [job], level);
    case PopNext => PopConserves(q, level);
  }

  lemma Splice<T>(taken: seq<T>, left: seq<T>, before: seq<T>, added: seq<T>, popped: seq<T>, rest: seq<T>,
                  enqueued: seq<T>)
    requires taken + left == before + added && popped + rest == left + enqueued
    ensures taken + popped + rest == before + (added + enqueued)
  {
    calc {
      taken + popped + rest;
      taken + (popped + rest);
      taken + left + enqueued;
      before + (added + enqueued);
    }
  }

  /** Conservation: at each level, what was popped followed by what is still queued is what was queued
      at first followed by what was enqueued: nothing is lost, doubled or reordered. */
  lemma {:induction false} Conservation<T>(q: Lists<T>, ops: seq<Op<T>>, level: Level)
    ensures Popped(q, ops, level) + At(Run(q, ops), level) == At(q, level) + Enqueued(ops, level)
    decreases |ops|
  {
    if ops != [] {
      var q' := Apply(q, ops[0]);
      StepConserves(q, ops[0], level);
      Conservation(q', ops[1..], level);
      Splice(TakenBy(q, ops[0], level), At(q', level), At(q, level), AddedBy(ops[0], level),
             Popped(q', ops[1..], level), At(Run(q', ops[1..]), level), Enqueued(ops[1..], level));
    }
  }

  /** How many of the pops numbered first+1 to last are fifth ones. */
  function Fifths(first: nat, pops: nat): int {
    (first + pops) / 5 - first / 5
  }

  lemma FifthsStep(first: nat, pops: nat)
    requires pops > 0
    ensures Fifths(first, pops) == Fifths(first + 1, pops - 1) + if (first + 1) % 5 == 0 then 1 else 0
  {
  }

  lemma FifthsBound(first: nat, n: nat)
    ensures Fifths(first, 5 * n) == n
  {
  }

  /** Each fifth pop serves the normal list, as long as anything waits there. */
  lemma {:induction false} NormalServed<T>(q: Lists<T>, ops: seq<Op<T>>, k: nat)
    requires k <= |q.normal| && Fifths(q.pops, Pops(ops)) >= k
    ensures |Popped(q, ops, Normal)| >= k
    decreases |ops|
  {
    if ops != [] && k > 0 {
      var q' := Apply(q, ops[0]);
      SourceFacts(q);
      if ops[0].PopNext? {
        FifthsStep(q.pops, Pops(ops));
        NormalServed(q', ops[1..], if Source(q) == Some(Normal) then k - 1 else k);
      } else {
        NormalServed(q', ops[1..], k);
      }
    }
  }

  /** Bounded wait: the job at index k of the normal list is returned within 5(k+1) pops, whatever is
      enqueued at any level meanwhile. */
  lemma NormalWait<T>(q: Lists<T>, ops: seq<Op<T>>, k: nat)
    requires k < |q.normal| && Pops(ops) >= 5 * (k + 1)
    ensures k < |Popped(q, ops, Normal)| && Popped(q, ops, Normal)[k] == q.normal[k]
  {
    FifthsBound(q.pops, k + 1);
    NormalServed(q, ops, k + 1);
    Conservation(q, ops, Normal);
    var popped := Popped(q, ops, Normal);
    assert (popped + Run(q, ops).normal)[k] == (q.normal + Enqueued(ops, Normal))[k];
  }

  /** Each fifth pop serves the normal or the low list, as long as anything waits in either. */
  lemma {:induction false} LowServed<T>(q: Lists<T>, ops: seq<Op<T>>, k: nat)
    requires k <= |q.low| && Fifths(q.pops, Pops(ops)) >= |q.normal| + |Enqueued(ops, Normal)| + k
    ensures |Popped(q, ops, Low)| >= k
    decreases |ops|
  {
    if ops != [] && k > 0 {
      var q' := Apply(q, ops[0]);
      SourceFacts(q);
      if ops[0].PopNext? {
        FifthsStep(q.pops, Pops(ops));
        LowServed(q', ops[1..], if Source(q) == Some(Low) then k - 1 else k);
      } else {
        LowServed(q', ops[1..], k);
      }
    }
  }

  /** Wait for low jobs: behind n normal jobs and with m more arriving, the job at index k of the low list is
      returned within 5(n+m+k+1) pops, whatever else is enqueued. */
  lemma LowWait<T>(q: Lists<T>, ops: seq<Op<T>>, k: nat)
    requires k < |q.low| && Pops(ops) >= 5 * (|q.normal| + |Enqueued(ops, Normal)| + k + 1)
    ensures k < |Popped(q, ops, Low)| && Popped(q, ops, Low)[k] == q.low[k]
  {
    var turns := |q.normal| + |Enqueued(ops, Normal)| + k + 1;
    FifthsBound(q.pops, turns);
    FifthsMonotone(q.pops, 5 * turns, Pops(ops));
    LowServed(q, ops, k + 1);
    Conservation(q, ops, Low);
    assert (Popped(q, ops, Low) + Run(q, ops).low)[k] == (q.low + Enqueued(ops, Low))[k];
  }

  lemma FifthsMonotone(first: nat, n: nat, m: nat)
    requires n <= m
    ensures Fifths(first, n) <= Fifths(first, m)
  {
  }

  /** High jobs have the other four pops out of five. */
  lemma {:induction false} HighServed<T>(q: Lists<T>, ops: seq<Op<T>>, k: nat)
    requires k <= |q.high| && Pops(ops) - Fifths(q.pops, Pops(ops)) >= k
    ensures |Popped(q, ops, High)| >= k
    decreases |ops|
  {
    if ops != [] && k > 0 {
      var q' := Apply(q, ops[0]);
      SourceFacts(q);
      if ops[0].PopNext? {
        FifthsStep(q.pops, Pops(ops));
        HighServed(q', ops[1..], if Source(q) == Some(High) then k - 1 else k);
      } else {
        HighServed(q', ops[1..], k);
      }
    }
  }

  /** The job at index k of the high list is returned within k + 1 + (k+4)/4 pops. */
  lemma HighWait<T>(q: Lists<T>, ops: seq<Op<T>>, k: nat)
    requires k < |q.high| && Pops(ops) >= k + 1 + (k + 4) / 4
    ensures k < |Popped(q, ops, High)| && Popped(q, ops, High)[k] == q.high[k]
  {
    HighServed(q, ops, k + 1);
    Conservation(q, ops, High);
    assert (Popped(q, ops, High) + Run(q, ops).high)[k] == (q.high + Enqueued(ops, High))[k];
  }

  // ---------------------------------------------------------------- no shorter wait can be promised

  function OnlyPops<T>(n: nat): (ops: seq<Op<T>>)
    ensures Pops(ops) == n
    ensures forall level :: Enqueued(ops, level) == []
  {
    if n == 0 then []
    else
      var rest := OnlyPops(n - 1);
      assert ([PopNext] + rest)[1..] == rest;
      [PopNext] + rest
  }

  /** While high jobs wait, only the fifth pops look at the other lists, and at normal jobs first. */
  lemma PopWithHigh<T>(q: Lists<T>)
    requires q.high != []
    ensures
      var fifth := (q.pops + 1) % 5 == 0;
      && |Pop(q).high| >= |q.high| - 1 && Pop(q).pops == q.pops + 1
      && |Pop(q).normal| == |q.normal| - |TakenBy(q, PopNext, Normal)|
      && |TakenBy(q, PopNext, Normal)| == (if fifth && q.normal != [] then 1 else 0)
      && |TakenBy(q, PopNext, Low)| == (if fifth && q.normal == [] && q.low != [] then 1 else 0)
  {
    SourceFacts(q);
  }

  /** How many jobs of a level n pops in a row return. */
  function ServedIn<T>(q: Lists<T>, n: nat, level: Level): nat {
    |Popped(q, OnlyPops(n), level)|
  }

  lemma PoppedFirst<T>(q: Lists<T>, n: nat, level: Level)
    requires n > 0
    ensures ServedIn(q, n, level) == |TakenBy(q, PopNext, level)| + ServedIn(Pop(q), n - 1, level)
  {
    var ops := OnlyPops<T>(n);
    assert ops[0] == PopNext && ops[1..] == OnlyPops(n - 1);
  }

  lemma {:induction false} NormalServedByFifths<T>(q: Lists<T>, n: nat)
    requires |q.high| >= n
    ensures ServedIn(q, n, Normal) <= Fifths(q.pops, n)
    decreases n
  {
    if n == 0 {
      assert OnlyPops<T>(0) == [];
    } else {
      PoppedFirst(q, n, Normal);
      PopWithHigh(q);
      FifthsStep(q.pops, n);
      NormalServedByFifths(Pop(q), n - 1);
    }
  }

  lemma {:induction false} LowServedByFifths<T>(q: Lists<T>, n: nat)
    requires |q.high| >= n
    ensures ServedIn(q, n, Low) <= if Fifths(q.pops, n) > |q.normal| then Fifths(q.pops, n) - |q.normal| else 0
    decreases n
  {
    if n == 0 {
      assert OnlyPops<T>(0) == [];
    } else {
      PoppedFirst(q, n, Low);
      PopWithHigh(q);
      FifthsStep(q.pops, n);
      LowServedByFifths(Pop(q), n - 1);
    }
  }

  /** m normal jobs arrive. */
  function Arrivals<T>(m: nat, job: T): (ops: seq<Op<T>>)
    ensures |ops| == m
  {
    if m == 0 then [] else [Enqueue(Normal, job)] + Arrivals(m - 1, job)
  }

  lemma {:induction false} ArrivalsFacts<T>(q: Lists<T>, m: nat, job: T, ops: seq<Op<T>>)
    ensures |Enqueued(Arrivals(m, job) + ops, Normal)| == m + |Enqueued(ops, Normal)|
    ensures Pops(Arrivals(m, job) + ops) == Pops(ops)
    ensures exists q': Lists<T> :: GotNormal(q, q', m) && Popped(q, Arrivals(m, job) + ops, Low) == Popped(q', ops, Low)
    decreases m
  {
    var all := Arrivals(m, job) + ops;
    if m == 0 {
      assert all == ops && GotNormal(q, q, 0);
    } else {
      assert all[0] == Enqueue(Normal, job) && all[1..] == Arrivals(m - 1, job) + ops;
      var pushed := Push(q, Normal, job);
      ArrivalsFacts(pushed, m - 1, job, ops);
      var q' :| GotNormal(pushed, q', m - 1) &&
        Popped(pushed, Arrivals(m - 1, job) + ops, Low) == Popped(q', ops, Low);
      assert GotNormal(q, q', m) && Popped(q, all, Low) == [] + Popped(pushed, all[1..], Low);
    }
  }

  ghost predicate GotNormal<T>(q: Lists<T>, q': Lists<T>, m: nat) {
    q'.high == q.high && q'.low == q.low && q'.pops == q.pops && |q'.normal| == |q.normal| + m
  }

  /** A run of `pops` pops with m normal arrivals, behind n normal jobs, that does not return the low job at
      index k. */
  ghost predicate KeepsWaiting<T>(q: Lists<T>, ops: seq<Op<T>>, n: nat, m: nat, k: nat, pops: nat) {
    && |q.normal| == n && |Enqueued(ops, Normal)| == m && Pops(ops) == pops
    && k < |q.low| && |Popped(q, ops, Low)| <= k
  }

  ghost predicate MayKeepWaiting<T(!new)>(n: nat, m: nat, k: nat, pops: nat) {
    exists q: Lists<T>, ops: seq<Op<T>> :: KeepsWaiting(q, ops, n, m, k, pops)
  }

  /** The bound is exact: for all n, m and k some run of one pop fewer leaves the job waiting. So each normal
      job that arrives can cost a low job five more pops, without end. */
  lemma LowWaitIsTight<T(!new)>(n: nat, m: nat, k: nat, job: T)
    ensures MayKeepWaiting<T>(n, m, k, 5 * (n + m + k + 1) - 1)
  {
    var pops := 5 * (n + m + k + 1) - 1;
    var q := Lists(seq(pops, _ => job), seq(n, _ => job), seq(k + 1, _ => job), [], 0);
    ArrivalsFacts(q, m, job, OnlyPops(pops));
    var q' :| GotNormal(q, q', m) &&
      Popped(q, Arrivals(m, job) + OnlyPops(pops), Low) == Popped(q', OnlyPops(pops), Low);
    LowServedByFifths(q', pops);
    assert Fifths(0, pops) == n + m + k;
    assert KeepsWaiting(q, Arrivals(m, job) + OnlyPops(pops), n, m, k, pops);
  }

  ghost predicate NormalMayWait<T(!new)>(k: nat, pops: nat) {
    exists q: Lists<T> :: k < |q.normal| && ServedIn(q, pops, Normal) <= k
  }

  /** So is the bound for normal jobs: some run of 5(k+1)-1 pops does not return the one at index k. */
  lemma NormalWaitIsTight<T(!new)>(k: nat, job: T)
    ensures NormalMayWait<T>(k, 5 * (k + 1) - 1)
  {
    var pops := 5 * (k + 1) - 1;
    var q := Lists(seq(pops, _ => job), seq(k + 1, _ => job), [], [], 0);
    NormalServedByFifths(q, pops);
    assert Fifths(0, pops) == k;
  }

  /** High jobs get only the pops that are not fifth ones, while normal jobs wait. */
  lemma PopWithNormal<T>(q: Lists<T>)
    requires q.normal != []
    ensures |Pop(q).normal| >= |q.normal| - 1 && Pop(q).pops == q.pops + 1
    ensures |TakenBy(q, PopNext, High)| <= if (q.pops + 1) % 5 == 0 then 0 else 1
  {
    SourceFacts(q);
  }

  lemma {:induction false} HighServedByRest<T>(q: Lists<T>, n: nat)
    requires |q.normal| >= n
    ensures ServedIn(q, n, High) <= n - Fifths(q.pops, n)
    decreases n
  {
    if n == 0 {
      assert OnlyPops<T>(0) == [];
    } else {
      PoppedFirst(q, n, High);
      PopWithNormal(q);
      FifthsStep(q.pops, n);
      HighServedByRest(Pop(q), n - 1);
    }
  }

  ghost predicate HighMayWait<T(!new)>(k: nat, pops: nat) {
    exists q: Lists<T> :: k < |q.high| && ServedIn(q, pops, High) <= k
  }

  /** And the one for high jobs: when the run starts on a fifth pop, one pop fewer leaves the job at index k
      waiting. */
  lemma HighWaitIsTight<T(!new)>(k: nat, job: T)
    ensures HighMayWait<T>(k, k + (k + 4) / 4)
  {
    var pops := k + (k + 4) / 4;
    var q := Lists(seq(k + 1, _ => job), seq(pops, _ => job), [], [], 4);
    HighServedByRest(q, pops);
    RoundsOfFive(k);
    assert ServedIn(q, pops, High) <= k;
  }

  lemma RoundsOfFive(k: nat)
    ensures Fifths(4, k + (k + 4) / 4) >= (k + 4) / 4
  {
  }

  /** A normal job arrives before every pop. */
  function Flood<T>(n: nat, job: T): (ops: seq<Op<T>>)
    ensures Pops(ops) == n
  {
    if n == 0 then []
    else
      var rest := Flood(n - 1, job);
      var ops := [Enqueue(Normal, job), PopNext] + rest;
      assert ops[1..][0] == PopNext && ops[1..][1..] == rest;
      ops
  }

  /** A steady stream of normal jobs keeps every low job waiting through any number of pops. */
  lemma {:induction false} LowMayStarve<T>(q: Lists<T>, n: nat, job: T)
    requires q.high == []
    ensures Popped(q, Flood(n, job), Low) == []
    decreases n
  {
    if n > 0 {
      var ops := Flood(n, job);
      var pushed := Push(q, Normal, job);
      assert ops[0] == Enqueue(Normal, job) && ops[1..][0] == PopNext && ops[1..][1..] == Flood(n - 1, job);
      SourceFacts(pushed);
      LowMayStarve(Pop(pushed), n - 1, job);
    }
  }
}
