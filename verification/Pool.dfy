/** One job's requests and what running them yields, and the sequential path through them. */
module Execution {
  import opened Protocol
  import opened Text

  /** `outcomes[i]` is what the engine answers to request `i` if the request is executed. */
  datatype JobSpec = JobSpec(ids: seq<string>, maxConc: int, stopOnError: bool, outcomes: seq<ResponseResult>) {
    predicate Valid() {
      |outcomes| == |ids|
    }

    predicate Sequential() {
      maxConc <= 1
    }

    predicate FailedBefore(i: nat)
      requires i <= |outcomes|
    {
      exists j :: 0 <= j < i && outcomes[j].error.Some?
    }

    /** Only the sequential path looks at `stopOnError`. */
    predicate SkipsAt(i: nat)
      requires i <= |outcomes|
    {
      Sequential() && stopOnError && FailedBefore(i)
    }

    function SlotAt(i: nat): ResponseResult
      requires Valid() && i < |ids|
    {
      if SkipsAt(i) then Skipped(ids[i]) else outcomes[i]
    }
  }

  /** Runs the requests in order; `executed` counts the calls to the engine. */
  method ExecSequential(job: JobSpec) returns (out: array<ResponseResult>, executed: nat)
    requires job.Valid() && job.Sequential()
    ensures fresh(out) && out.Length == |job.ids|
    ensures forall i :: 0 <= i < out.Length ==> out[i] == job.SlotAt(i)
    ensures forall i :: 0 <= i < out.Length && job.SkipsAt(i) ==> SaysSkipped(out[i], job.ids[i])
    ensures executed <= |job.ids|
    ensures forall i :: 0 <= i < |job.ids| ==> (i < executed <==> !job.SkipsAt(i))
  {
    var n := |job.ids|;
    out := new ResponseResult[n](_ => Unanswered(""));
    executed := 0;
    for i := 0 to n
      invariant executed == i && !job.SkipsAt(i)
      invariant forall j :: 0 <= j < i ==> !job.SkipsAt(j)
      invariant forall j :: 0 <= j < i ==> out[j] == job.SlotAt(j)
    {
      out[i] := job.outcomes[i];
      executed := executed + 1;
      if job.stopOnError && out[i].error.Some? {
        for j := i + 1 to n
          invariant forall l :: 0 <= l < j ==> out[l] == job.SlotAt(l)
          invariant forall l :: i < l < j ==> job.SkipsAt(l)
        {
          assert job.outcomes[i].error.Some? && job.SkipsAt(j);
          out[j] := Skipped(job.ids[j]);
        }
        return;
      }
    }
  }

  /** What a caller finds in the slot of a request that was not executed. */
  predicate SaysSkipped(r: ResponseResult, id: string) {
    && r.requestId == id && r.status == 0 && r.body == [] && !r.truncated && r.chain == []
    && r.error == Some(ExecError(Invalid, "skipped after earlier failure", false))
  }

  /** Without stop on error, or on the concurrent path, no slot is a skip. */
  lemma NothingSkipped(job: JobSpec, i: nat)
    requires job.Valid() && i < |job.ids| && (job.maxConc > 1 || !job.stopOnError)
    ensures job.SlotAt(i) == job.outcomes[i] && !job.SkipsAt(i)
  {
  }

  /**
   * Stop on error, told from the first failing request `k`: the slots before it are answered
   * without error, slot `k` holds its error, every later slot says that it was skipped and names
   * its own request, and the requests the engine saw are the first `k + 1`. So the slots without
   * an error are exactly those before `k`.
   */
  lemma StopsAtFirstError(job: JobSpec, k: nat)
    requires job.Valid() && job.maxConc <= 1 && job.stopOnError
    requires k < |job.ids| && job.outcomes[k].error.Some? && !job.FailedBefore(k)
    ensures forall i :: 0 <= i < k ==> job.SlotAt(i) == job.outcomes[i] && job.SlotAt(i).error.None?
    ensures job.SlotAt(k) == job.outcomes[k]
    ensures forall i :: k < i < |job.ids| ==> SaysSkipped(job.SlotAt(i), job.ids[i])
    ensures forall i :: 0 <= i < |job.ids| ==> (job.SkipsAt(i) <==> k < i)
    ensures forall i :: 0 <= i < |job.ids| ==> (job.SlotAt(i).error.None? <==> i < k)
  {
    assert forall i :: 0 <= i < k ==> !job.FailedBefore(i) && job.outcomes[i].error.None?;
    forall i | k < i < |job.ids| ensures job.SkipsAt(i) {
      assert job.outcomes[k].error.Some?;
    }
  }

  /** If every answer names its request, every slot does, on either path. */
  lemma SlotsNameTheirRequests(job: JobSpec)
    requires job.Valid() && forall i :: 0 <= i < |job.ids| ==> job.outcomes[i].requestId == job.ids[i]
    ensures forall i :: 0 <= i < |job.ids| ==> job.SlotAt(i).requestId == job.ids[i]
  {
  }
}

/**
 * Many jobs at once under the worker's two levels of semaphores: a small-step system with one
 * program counter per request. A concurrent job spawns a goroutine per request, bounded by the
 * job's own semaphore; a sequential job walks its requests itself; every execution needs a slot
 * of the one global semaphore.
 */
module Pool {
  import opened Numbers
  import opened Protocol
  import opened Execution

  datatype Tid = Tid(job: nat, idx: nat)

  datatype Pc =
    | Unspawned
    | Waiting    // goroutine spawned, wants a slot of its job
    | JobSlot    // wants a slot of the global pool
    | Running    // holds a global slot, the engine executes the request
    | Returned   // the engine answered, the global slot is still held
    | Unpooled   // global slot given back, the answer not yet stored
    | Stored     // the answer is in its slot of `out`
    | Left       // job slot given back
    | Finished   // wg.Done called (or the sequential loop moved on)

  datatype Config = Config(cap: nat, jobs: seq<JobSpec>) {
    predicate Valid() {
      cap > 0 && forall k :: 0 <= k < |jobs| ==> jobs[k].Valid()
    }
  }

  /** Every pool with a slot is covered, and every list of jobs whose outcomes are told request by request. */
  lemma CoversEveryPool(c: Config)
    ensures c.Valid() <==> c.cap >= 1 && forall k :: 0 <= k < |c.jobs| ==> |c.jobs[k].outcomes| == |c.jobs[k].ids|
  {
  }

  /** `next` counts the spawned requests of a concurrent job, the finished ones of a sequential job. */
  datatype State = State(
    pc: map<Tid, Pc>, sem: nat, jobSem: seq<nat>, wg: seq<int>, next: seq<nat>, stopped: set<nat>,
    out: map<Tid, ResponseResult>, executed: set<Tid>, returned: set<nat>)

  datatype Event =
    | Spawn(k: nat)
    | TakeJob(t: Tid)
    | TakeSem(t: Tid)
    | Execute(t: Tid)
    | PutSem(t: Tid)
    | Store(t: Tid)
    | PutJob(t: Tid)
    | WgDone(t: Tid)
    | LoopEnter(k: nat)   // sequential: take up the next request
    | LoopAdvance(k: nat) // sequential: the stored answer decides whether to stop
    | LoopSkip(k: nat)    // sequential: mark one remaining request as skipped
    | Return(k: nat)

  function Tids(c: Config): set<Tid> {
    set k, i | 0 <= k < |c.jobs| && 0 <= i < |c.jobs[k].ids| :: Tid(k, i)
  }

  function Initial(c: Config): State {
    State(map t | t in Tids(c) :: Unspawned, 0, seq(|c.jobs|, _ => 0), seq(|c.jobs|, _ => 0), seq(|c.jobs|, _ => 0),
          {}, map[], {}, {})
  }

  predicate InRange(c: Config, t: Tid) {
    t.job < |c.jobs| && t.idx < |c.jobs[t.job].ids|
  }

  ghost predicate Shape(c: Config, s: State) {
    && (forall t :: t in s.pc <==> InRange(c, t))
    && |s.jobSem| == |s.wg| == |s.next| == |c.jobs|
  }

  predicate At(s: State, t: Tid, p: Pc) {
    t in s.pc && s.pc[t] == p
  }

  predicate Concurrent(c: Config, k: nat) {
    k < |c.jobs| && !c.jobs[k].Sequential()
  }

  predicate Sequential(c: Config, k: nat) {
    k < |c.jobs| && c.jobs[k].Sequential()
  }

  ghost predicate Enabled(c: Config, s: State, e: Event)
    requires Shape(c, s)
  {
    match e
    case Spawn(k) => Concurrent(c, k) && s.next[k] < |c.jobs[k].ids| && At(s, Tid(k, s.next[k]), Unspawned)
    case TakeJob(t) => At(s, t, Waiting) && t.job < |c.jobs| && s.jobSem[t.job] < c.jobs[t.job].maxConc
    case TakeSem(t) => At(s, t, JobSlot) && s.sem < c.cap
    case Execute(t) => At(s, t, Running)
    case PutSem(t) => At(s, t, Returned) && s.sem > 0
    case Store(t) => At(s, t, Unpooled)
    case PutJob(t) => At(s, t, Stored) && Concurrent(c, t.job) && s.jobSem[t.job] > 0
    case WgDone(t) => At(s, t, Left)
    case LoopEnter(k) => Sequential(c, k) && k !in s.stopped && At(s, Tid(k, s.next[k]), Unspawned)
    case LoopAdvance(k) => Sequential(c, k) && At(s, Tid(k, s.next[k]), Stored) && Tid(k, s.next[k]) in s.out
    case LoopSkip(k) => Sequential(c, k) && k in s.stopped && At(s, Tid(k, s.next[k]), Unspawned)
    case Return(k) =>
      && k < |c.jobs| && k !in s.returned && s.next[k] == |c.jobs[k].ids|
      && (Concurrent(c, k) ==> s.wg[k] == 0)
  }

  function Move(s: State, t: Tid, p: Pc): State {
    s.(pc := s.pc[t := p])
  }

  ghost function Next(c: Config, s: State, e: Event): State
    requires c.Valid() && Shape(c, s) && Enabled(c, s, e)
  {
    match e
    case Spawn(k) => Move(s, Tid(k, s.next[k]), Waiting).(wg := s.wg[k := s.wg[k] + 1], next := s.next[k := s.next[k] + 1])
    case TakeJob(t) => Move(s, t, JobSlot).(jobSem := s.jobSem[t.job := s.jobSem[t.job] + 1])
    case TakeSem(t) => Move(s, t, Running).(sem := s.sem + 1)
    case Execute(t) => Move(s, t, Returned).(executed := s.executed + {t})
    case PutSem(t) => Move(s, t, Unpooled).(sem := s.sem - 1)
    case Store(t) => Move(s, t, Stored).(out := s.out[t := c.jobs[t.job].outcomes[t.idx]])
    case PutJob(t) => Move(s, t, Left).(jobSem := s.jobSem[t.job := s.jobSem[t.job] - 1])
    case WgDone(t) => Move(s, t, Finished).(wg := s.wg[t.job := s.wg[t.job] - 1])
    case LoopEnter(k) => Move(s, Tid(k, s.next[k]), JobSlot)
    case LoopAdvance(k) =>
      var t := Tid(k, s.next[k]);
      Move(s, t, Finished).(
        next := s.next[k := s.next[k] + 1],
        stopped := if c.jobs[k].stopOnError && s.out[t].error.Some? then s.stopped + {k} else s.stopped)
    case LoopSkip(k) =>
      var t := Tid(k, s.next[k]);
      Move(s, t, Finished).(
        next := s.next[k := s.next[k] + 1],
        out := s.out[t := Skipped(c.jobs[k].ids[t.idx])])
    case Return(k) => s.(returned := s.returned + {k})
  }

  lemma ShapeKept(c: Config, s: State, e: Event)
    requires c.Valid() && Shape(c, s) && Enabled(c, s, e)
    ensures Shape(c, Next(c, s, e))
  {
  }

  ghost predicate Runs(c: Config, s: State, es: seq<Event>)
    requires c.Valid()
    decreases |es|
  {
    Shape(c, s) && (es == [] || (Enabled(c, s, es[0]) && Runs(c, Next(c, s, es[0]), es[1..])))
  }

  ghost function After(c: Config, s: State, es: seq<Event>): (s': State)
    requires c.Valid() && Runs(c, s, es)
    ensures Shape(c, s')
    decreases |es|
  {
    if es == [] then s else After(c, Next(c, s, es[0]), es[1..])
  }

  // ------------------------------------------------------------------------------------------
  // The sets the counters count

  predicate HoldsGlobal(p: Pc) {
    p.Running? || p.Returned?
  }

  predicate HoldsJob(p: Pc) {
    p.JobSlot? || p.Running? || p.Returned? || p.Unpooled? || p.Stored?
  }

  predicate Alive(p: Pc) {
    HoldsJob(p) || p.Waiting? || p.Left?
  }

  predicate HasSlot(p: Pc) {
    p.Stored? || p.Left? || p.Finished?
  }

  function GlobalHolders(pc: map<Tid, Pc>): set<Tid> {
    set t | t in pc && HoldsGlobal(pc[t])
  }

  function JobHolders(pc: map<Tid, Pc>, k: nat): set<Tid> {
    set t | t in pc && t.job == k && HoldsJob(pc[t])
  }

  function AliveIn(pc: map<Tid, Pc>, k: nat): set<Tid> {
    set t | t in pc && t.job == k && Alive(pc[t])
  }

  lemma MemberMoved(a: set<Tid>, b: set<Tid>, t: Tid, was: bool, becomes: bool)
    requires t in a <==> was
    requires b == if becomes then a + {t} else a - {t}
    ensures |b| - |a| == (if becomes then 1 else 0) - (if was then 1 else 0)
  {
    assert was ==> a + {t} == a;
    assert !was ==> a - {t} == a;
  }

  lemma GlobalMoved(pc: map<Tid, Pc>, t: Tid, p: Pc)
    requires t in pc
    ensures |GlobalHolders(pc[t := p])| - |GlobalHolders(pc)| ==
            (if HoldsGlobal(p) then 1 else 0) - (if HoldsGlobal(pc[t]) then 1 else 0)
  {
    var a, b := GlobalHolders(pc), GlobalHolders(pc[t := p]);
    forall u ensures u in b <==> if u == t then HoldsGlobal(p) else u in a {
    }
    assert b == if HoldsGlobal(p) then a + {t} else a - {t};
    MemberMoved(a, b, t, HoldsGlobal(pc[t]), HoldsGlobal(p));
  }

  lemma JobMoved(pc: map<Tid, Pc>, t: Tid, p: Pc)
    requires t in pc
    ensures |JobHolders(pc[t := p], t.job)| - |JobHolders(pc, t.job)| ==
            (if HoldsJob(p) then 1 else 0) - (if HoldsJob(pc[t]) then 1 else 0)
  {
    var a, b := JobHolders(pc, t.job), JobHolders(pc[t := p], t.job);
    forall u ensures u in b <==> if u == t then HoldsJob(p) else u in a {
    }
    assert b == if HoldsJob(p) then a + {t} else a - {t};
    MemberMoved(a, b, t, HoldsJob(pc[t]), HoldsJob(p));
  }

  lemma AliveMoved(pc: map<Tid, Pc>, t: Tid, p: Pc)
    requires t in pc
    ensures |AliveIn(pc[t := p], t.job)| - |AliveIn(pc, t.job)| ==
            (if Alive(p) then 1 else 0) - (if Alive(pc[t]) then 1 else 0)
  {
    var a, b := AliveIn(pc, t.job), AliveIn(pc[t := p], t.job);
    forall u ensures u in b <==> if u == t then Alive(p) else u in a {
    }
    assert b == if Alive(p) then a + {t} else a - {t};
    MemberMoved(a, b, t, Alive(pc[t]), Alive(p));
  }

  lemma OtherJobsCount(pc: map<Tid, Pc>, t: Tid, p: Pc, k: nat)
    requires t in pc && k != t.job
    ensures JobHolders(pc[t := p], k) == JobHolders(pc, k) && AliveIn(pc[t := p], k) == AliveIn(pc, k)
  {
  }

  // ------------------------------------------------------------------------------------------
  // The invariant

  /** Where thread `t` can stand, given how far its job's loop has come. */
  ghost predicate Placed(c: Config, s: State, t: Tid)
    requires c.Valid() && Shape(c, s) && t in s.pc
  {
    var p, nx := s.pc[t], s.next[t.job];
    if Concurrent(c, t.job) then p.Unspawned? <==> nx <= t.idx
    else
      && (t.idx < nx ==> p.Finished?)
      && (t.idx > nx ==> p.Unspawned?)
      && (t.idx == nx ==> p.Unspawned? || HoldsJob(p))
      && (t.idx == nx && t.job in s.stopped ==> p.Unspawned?)
  }

  ghost predicate Answered(c: Config, s: State, t: Tid)
    requires c.Valid() && Shape(c, s) && t in s.pc
  {
    && (t in s.out <==> HasSlot(s.pc[t]))
    && (t in s.out ==> s.out[t] == c.jobs[t.job].SlotAt(t.idx))
    && (t in s.executed <==>
          s.pc[t].Returned? || s.pc[t].Unpooled? || (HasSlot(s.pc[t]) && !c.jobs[t.job].SkipsAt(t.idx)))
  }

  ghost predicate Threads(c: Config, s: State)
    requires c.Valid() && Shape(c, s)
  {
    && (forall t :: t in s.pc ==> Placed(c, s, t))
    && (forall t :: t in s.pc ==> Answered(c, s, t))
    && (forall k :: 0 <= k < |c.jobs| ==> s.next[k] <= |c.jobs[k].ids|)
    && (forall k :: 0 <= k < |c.jobs| ==> (k in s.stopped <==> c.jobs[k].SkipsAt(s.next[k])))
    && (forall t :: t in s.pc && t.job in s.returned ==> s.pc[t].Finished?)
    && (s.out.Keys <= s.pc.Keys && s.executed <= s.pc.Keys)
  }

  ghost predicate Counters(c: Config, s: State)
    requires c.Valid() && Shape(c, s)
  {
    && s.sem == |GlobalHolders(s.pc)| <= c.cap
    && forall k :: 0 <= k < |c.jobs| && Concurrent(c, k) ==>
         s.jobSem[k] == |JobHolders(s.pc, k)| <= c.jobs[k].maxConc && s.wg[k] == |AliveIn(s.pc, k)|
  }

  ghost predicate Inv(c: Config, s: State)
    requires c.Valid()
  {
    Shape(c, s) && Threads(c, s) && Counters(c, s)
  }

  lemma InitialInv(c: Config)
    requires c.Valid()
    ensures Inv(c, Initial(c))
  {
    var s := Initial(c);
    assert GlobalHolders(s.pc) == {};
    forall k: nat ensures JobHolders(s.pc, k) == {} && AliveIn(s.pc, k) == {} {
    }
  }

  /** The thread an event moves, and where to. */
  function Mover(s: State, e: Event): Tid
    requires !e.Return?
    requires e.Spawn? || e.LoopEnter? || e.LoopAdvance? || e.LoopSkip? ==> e.k < |s.next|
  {
    match e
    case Spawn(k) => Tid(k, s.next[k])
    case LoopEnter(k) => Tid(k, s.next[k])
    case LoopAdvance(k) => Tid(k, s.next[k])
    case LoopSkip(k) => Tid(k, s.next[k])
    case TakeJob(t) => t
    case TakeSem(t) => t
    case Execute(t) => t
    case PutSem(t) => t
    case Store(t) => t
    case PutJob(t) => t
    case WgDone(t) => t
  }

  function Target(e: Event): Pc
    requires !e.Return?
  {
    match e
    case Spawn(_) => Waiting
    case LoopEnter(_) => JobSlot
    case LoopAdvance(_) => Finished
    case LoopSkip(_) => Finished
    case TakeJob(_) => JobSlot
    case TakeSem(_) => Running
    case Execute(_) => Returned
    case PutSem(_) => Unpooled
    case Store(_) => Stored
    case PutJob(_) => Left
    case WgDone(_) => Finished
  }

  lemma PcMoves(c: Config, s: State, e: Event)
    requires c.Valid() && Shape(c, s) && Enabled(c, s, e) && !e.Return?
    ensures Mover(s, e) in s.pc && Next(c, s, e).pc == s.pc[Mover(s, e) := Target(e)]
  {
  }

  /** Every event but `Return` moves one thread that stands in the table and leaves the others. */
  lemma OneMoves(c: Config, s: State, e: Event)
    requires c.Valid() && Shape(c, s) && Enabled(c, s, e) && !e.Return?
    ensures Mover(s, e) in s.pc
    ensures Next(c, s, e).pc == s.pc[Mover(s, e) := Target(e)]
    ensures forall t :: t != Mover(s, e) ==>
      (t in Next(c, s, e).out <==> t in s.out) && (t in s.out ==> Next(c, s, e).out[t] == s.out[t])
      && (t in Next(c, s, e).executed <==> t in s.executed)
    ensures forall k :: 0 <= k < |s.next| && k != Mover(s, e).job ==> Next(c, s, e).next[k] == s.next[k]
    ensures forall k :: k != Mover(s, e).job ==> (k in Next(c, s, e).stopped <==> k in s.stopped)
    ensures Next(c, s, e).returned == s.returned
  {
  }

  lemma OthersStayPlaced(c: Config, s: State, e: Event, t: Tid)
    requires c.Valid() && Inv(c, s) && Enabled(c, s, e) && !e.Return? && t in s.pc && t != Mover(s, e)
    ensures Shape(c, Next(c, s, e)) && Placed(c, Next(c, s, e), t) && Answered(c, Next(c, s, e), t)
  {
    ShapeKept(c, s, e);
    OneMoves(c, s, e);
    var s' := Next(c, s, e);
    assert Placed(c, s, t) && Answered(c, s, t);
    assert Answered(c, s', t);
    if t.job == Mover(s, e).job {
      assert Placed(c, s, Mover(s, e));
      match e
      case Spawn(k) =>
      case LoopAdvance(k) =>
      case LoopSkip(k) =>
      case _ =>
    }
  }

  lemma FailedBeforeNext(job: JobSpec, n: nat)
    requires n < |job.outcomes|
    ensures job.FailedBefore(n + 1) <==> job.FailedBefore(n) || job.outcomes[n].error.Some?
  {
  }

  lemma MoverPlaced(c: Config, s: State, e: Event)
    requires c.Valid() && Shape(c, s) && Enabled(c, s, e) && !e.Return?
    requires Mover(s, e) in s.pc && Placed(c, s, Mover(s, e))
    ensures Shape(c, Next(c, s, e)) && Mover(s, e) in Next(c, s, e).pc
    ensures Placed(c, Next(c, s, e), Mover(s, e))
  {
    ShapeKept(c, s, e);
    var s', t := Next(c, s, e), Mover(s, e);
    assert s'.pc[t] == Target(e);
    match e
    case Spawn(k) =>
    case LoopAdvance(k) =>
    case LoopSkip(k) =>
    case _ =>
  }

  lemma MoverAnswered(c: Config, s: State, e: Event)
    requires c.Valid() && Shape(c, s) && Enabled(c, s, e) && !e.Return?
    requires Mover(s, e) in s.pc && Placed(c, s, Mover(s, e)) && Answered(c, s, Mover(s, e))
    requires var k := Mover(s, e).job;
      s.next[k] <= |c.jobs[k].ids| && (k in s.stopped <==> c.jobs[k].SkipsAt(s.next[k]))
    ensures Shape(c, Next(c, s, e)) && Mover(s, e) in Next(c, s, e).pc
    ensures Answered(c, Next(c, s, e), Mover(s, e))
  {
    ShapeKept(c, s, e);
    var s', t := Next(c, s, e), Mover(s, e);
    assert s'.pc[t] == Target(e);
    var skips := c.jobs[t.job].SkipsAt(t.idx);
    assert !s.pc[t].Unspawned? && Sequential(c, t.job) && t.idx == s.next[t.job] ==> !skips;
    match e
    case Execute(_) => assert s'.out == s.out && s'.executed == s.executed + {t};
    case Store(_) => assert s'.executed == s.executed && !skips;
    case LoopSkip(k) => assert s'.executed == s.executed && skips;
    case _ => assert s'.out == s.out && s'.executed == s.executed;
  }

  lemma AdvanceKeepsStopped(c: Config, s: State, k: nat)
    requires c.Valid() && Inv(c, s) && Enabled(c, s, LoopAdvance(k))
    ensures s.next[k] < |c.jobs[k].ids|
    ensures k in Next(c, s, LoopAdvance(k)).stopped <==> c.jobs[k].SkipsAt(s.next[k] + 1)
  {
    var t := Tid(k, s.next[k]);
    assert Placed(c, s, t) && Answered(c, s, t);
    FailedBeforeNext(c.jobs[k], s.next[k]);
  }

  lemma SkipKeepsStopped(c: Config, s: State, k: nat)
    requires c.Valid() && Inv(c, s) && Enabled(c, s, LoopSkip(k))
    ensures s.next[k] < |c.jobs[k].ids| && c.jobs[k].SkipsAt(s.next[k] + 1)
  {
    assert Tid(k, s.next[k]) in s.pc;
    FailedBeforeNext(c.jobs[k], s.next[k]);
  }

  lemma LoopsElsewhere(c: Config, s: State, e: Event, k: nat)
    requires c.Valid() && Shape(c, s) && Enabled(c, s, e) && k < |c.jobs|
    requires e != LoopAdvance(k) && e != LoopSkip(k)
    ensures Shape(c, Next(c, s, e))
    ensures Next(c, s, e).next[k] == if e == Spawn(k) then s.next[k] + 1 else s.next[k]
    ensures k in Next(c, s, e).stopped <==> k in s.stopped
  {
    ShapeKept(c, s, e);
  }

  lemma StoppedKept(c: Config, s: State, e: Event, k: nat)
    requires c.Valid() && Inv(c, s) && Enabled(c, s, e) && k < |c.jobs|
    ensures Shape(c, Next(c, s, e)) && Next(c, s, e).next[k] <= |c.jobs[k].ids|
    ensures k in Next(c, s, e).stopped <==> c.jobs[k].SkipsAt(Next(c, s, e).next[k])
  {
    ShapeKept(c, s, e);
    if e == LoopAdvance(k) {
      AdvanceKeepsStopped(c, s, k);
    } else if e == LoopSkip(k) {
      SkipKeepsStopped(c, s, k);
    } else {
      LoopsElsewhere(c, s, e, k);
    }
  }

  lemma ThreadKept(c: Config, s: State, e: Event, t: Tid)
    requires c.Valid() && Inv(c, s) && Enabled(c, s, e) && !e.Return? && t in s.pc
    ensures Shape(c, Next(c, s, e)) && t in Next(c, s, e).pc
    ensures Placed(c, Next(c, s, e), t) && Answered(c, Next(c, s, e), t)
    ensures t.job in Next(c, s, e).returned ==> Next(c, s, e).pc[t].Finished?
  {
    ShapeKept(c, s, e);
    OneMoves(c, s, e);
    if t == Mover(s, e) {
      assert Placed(c, s, t) && Answered(c, s, t);
      MoverPlaced(c, s, e);
      MoverAnswered(c, s, e);
      assert !s.pc[t].Finished?;
    } else {
      OthersStayPlaced(c, s, e, t);
    }
  }

  lemma ThreadsKept(c: Config, s: State, e: Event)
    requires c.Valid() && Inv(c, s) && Enabled(c, s, e) && !e.Return?
    ensures Shape(c, Next(c, s, e)) && Threads(c, Next(c, s, e))
  {
    ShapeKept(c, s, e);
    TablesStayInRange(c, s, e);
    var s' := Next(c, s, e);
    assert forall t :: t in s'.pc <==> t in s.pc;
    forall k: nat | k < |c.jobs| ensures s'.next[k] <= |c.jobs[k].ids| && (k in s'.stopped <==> c.jobs[k].SkipsAt(s'.next[k])) {
      StoppedKept(c, s, e, k);
    }
    forall t | t in s.pc
      ensures Placed(c, s', t) && Answered(c, s', t) && (t.job in s'.returned ==> s'.pc[t].Finished?)
    {
      ThreadKept(c, s, e, t);
    }
  }

  lemma TablesStayInRange(c: Config, s: State, e: Event)
    requires c.Valid() && Inv(c, s) && Enabled(c, s, e)
    ensures Next(c, s, e).out.Keys <= Next(c, s, e).pc.Keys && Next(c, s, e).executed <= Next(c, s, e).pc.Keys
  {
  }

  lemma ReturnKeepsThreads(c: Config, s: State, k: nat)
    requires c.Valid() && Inv(c, s) && Enabled(c, s, Return(k))
    ensures Shape(c, Next(c, s, Return(k))) && Threads(c, Next(c, s, Return(k)))
  {
    var s' := Next(c, s, Return(k));
    forall t | t in s'.pc
      ensures Placed(c, s', t) && Answered(c, s', t) && (t.job in s'.returned ==> s'.pc[t].Finished?)
    {
      assert Placed(c, s, t) && Answered(c, s, t);
      if t.job == k && Concurrent(c, k) {
        assert t !in AliveIn(s.pc, k);
      }
    }
  }

  lemma GlobalCounterKept(c: Config, s: State, e: Event)
    requires c.Valid() && Inv(c, s) && Enabled(c, s, e) && !e.Return?
    ensures Next(c, s, e).sem == |GlobalHolders(Next(c, s, e).pc)| <= c.cap
  {
    PcMoves(c, s, e);
    GlobalField(c, s, e);
    GlobalMoved(s.pc, Mover(s, e), Target(e));
  }

  lemma GlobalField(c: Config, s: State, e: Event)
    requires c.Valid() && Shape(c, s) && Enabled(c, s, e) && !e.Return? && Mover(s, e) in s.pc
    requires Placed(c, s, Mover(s, e)) && s.sem <= c.cap
    ensures Next(c, s, e).sem - s.sem ==
      (if HoldsGlobal(Target(e)) then 1 else 0) - (if HoldsGlobal(s.pc[Mover(s, e)]) then 1 else 0)
    ensures Next(c, s, e).sem <= c.cap
  {
  }

  lemma JobFields(c: Config, s: State, e: Event, k: nat)
    requires c.Valid() && Shape(c, s) && Enabled(c, s, e) && !e.Return? && Concurrent(c, k)
    requires Mover(s, e) in s.pc && Placed(c, s, Mover(s, e))
    ensures
      var (s', p, t) := (Next(c, s, e), Target(e), Mover(s, e));
      && |s'.jobSem| == |s'.wg| == |c.jobs|
      && s'.jobSem[k] as int == s.jobSem[k] as int +
         (if k != t.job then 0 else (if HoldsJob(p) then 1 else 0) - (if HoldsJob(s.pc[t]) then 1 else 0))
      && s'.wg[k] - s.wg[k] ==
         (if k != t.job then 0 else (if Alive(p) then 1 else 0) - (if Alive(s.pc[t]) then 1 else 0))
      && (s'.jobSem[k] <= s.jobSem[k] || s'.jobSem[k] <= c.jobs[k].maxConc)
  {
    ShapeKept(c, s, e);
  }

  lemma JobCountersKept(c: Config, s: State, e: Event, k: nat)
    requires c.Valid() && Shape(c, s) && Enabled(c, s, e) && !e.Return? && Concurrent(c, k)
    requires Mover(s, e) in s.pc && Placed(c, s, Mover(s, e))
    requires s.jobSem[k] == |JobHolders(s.pc, k)| <= c.jobs[k].maxConc && s.wg[k] == |AliveIn(s.pc, k)|
    ensures Shape(c, Next(c, s, e))
    ensures
      var s' := Next(c, s, e);
      s'.jobSem[k] == |JobHolders(s'.pc, k)| <= c.jobs[k].maxConc && s'.wg[k] == |AliveIn(s'.pc, k)|
  {
    ShapeKept(c, s, e);
    PcMoves(c, s, e);
    JobFields(c, s, e, k);
    JobSetsMoved(s.pc, Mover(s, e), Target(e), k);
  }

  lemma JobSetsMoved(pc: map<Tid, Pc>, t: Tid, p: Pc, k: nat)
    requires t in pc
    ensures |JobHolders(pc[t := p], k)| - |JobHolders(pc, k)| ==
      (if k != t.job then 0 else (if HoldsJob(p) then 1 else 0) - (if HoldsJob(pc[t]) then 1 else 0))
    ensures |AliveIn(pc[t := p], k)| - |AliveIn(pc, k)| ==
      (if k != t.job then 0 else (if Alive(p) then 1 else 0) - (if Alive(pc[t]) then 1 else 0))
  {
    if k == t.job {
      JobMoved(pc, t, p);
      AliveMoved(pc, t, p);
    } else {
      OtherJobsCount(pc, t, p, k);
    }
  }

  lemma CountersKept(c: Config, s: State, e: Event)
    requires c.Valid() && Inv(c, s) && Enabled(c, s, e)
    ensures Shape(c, Next(c, s, e)) && Counters(c, Next(c, s, e))
  {
    ShapeKept(c, s, e);
    if !e.Return? {
      PcMoves(c, s, e);
      assert Placed(c, s, Mover(s, e));
      GlobalCounterKept(c, s, e);
      forall k: nat | k < |c.jobs| && Concurrent(c, k)
        ensures Next(c, s, e).jobSem[k] == |JobHolders(Next(c, s, e).pc, k)| <= c.jobs[k].maxConc
        ensures Next(c, s, e).wg[k] == |AliveIn(Next(c, s, e).pc, k)|
      {
        JobCountersKept(c, s, e, k);
      }
    }
  }

  lemma StepKeepsInv(c: Config, s: State, e: Event)
    requires c.Valid() && Inv(c, s) && Enabled(c, s, e)
    ensures Inv(c, Next(c, s, e))
  {
    ShapeKept(c, s, e);
    CountersKept(c, s, e);
    if e.Return? {
      ReturnKeepsThreads(c, s, e.k);
    } else {
      ThreadsKept(c, s, e);
    }
  }

  lemma {:induction false} RunKeepsInv(c: Config, s: State, es: seq<Event>)
    requires c.Valid() && Inv(c, s) && Runs(c, s, es)
    ensures Inv(c, After(c, s, es))
    decreases |es|
  {
    if es != [] {
      StepKeepsInv(c, s, es[0]);
      RunKeepsInv(c, Next(c, s, es[0]), es[1..]);
    }
  }

  // ------------------------------------------------------------------------------------------
  // Main results

  /** The requests being executed right now: overall, and of job `k`. */
  function Executing(s: State): set<Tid> {
    set t | t in s.pc && s.pc[t].Running?
  }

  function ExecutingOf(s: State, k: nat): set<Tid> {
    set t | t in s.pc && t.job == k && s.pc[t].Running?
  }

  /** Capacity at every interleaving: the pool bounds all jobs together, each job bounds itself. */
  lemma CapacityRespected(c: Config, es: seq<Event>, k: nat)
    requires c.Valid() && Runs(c, Initial(c), es) && k < |c.jobs|
    ensures |Executing(After(c, Initial(c), es))| <= c.cap
    ensures |ExecutingOf(After(c, Initial(c), es), k)| <= (if c.jobs[k].maxConc <= 1 then 1 else c.jobs[k].maxConc)
  {
    InitialInv(c);
    RunKeepsInv(c, Initial(c), es);
    var s := After(c, Initial(c), es);
    SubsetSize(Executing(s), GlobalHolders(s.pc));
    if Concurrent(c, k) {
      SubsetSize(ExecutingOf(s, k), JobHolders(s.pc, k));
    } else {
      forall t | t in ExecutingOf(s, k) ensures t in {Tid(k, s.next[k])} {
        assert Placed(c, s, t);
      }
      SubsetSize(ExecutingOf(s, k), {Tid(k, s.next[k])});
    }
  }

  // ------------------------------------------------------------------------------------------
  // The pool fills up

  /** How many requests of a job can execute at once. */
  function Room(job: JobSpec): nat {
    Min(if job.maxConc <= 1 then 1 else job.maxConc, |job.ids|)
  }

  function RoomOf(jobs: seq<JobSpec>): nat {
    if jobs == [] then 0 else Room(jobs[0]) + RoomOf(jobs[1..])
  }

  function Sum(m: seq<nat>): nat {
    if m == [] then 0 else m[0] + Sum(m[1..])
  }

  lemma {:induction false} SumBumped(m: seq<nat>, k: nat)
    requires k < |m|
    ensures Sum(m[k := m[k] + 1]) == Sum(m) + 1
  {
    if k > 0 {
      assert m[k := m[k] + 1][1..] == m[1..][k - 1 := m[1..][k - 1] + 1];
      SumBumped(m[1..], k - 1);
    } else {
      assert m[k := m[k] + 1][1..] == m[1..];
    }
  }

  lemma {:induction false} SumOfZeros(m: seq<nat>)
    requires forall k :: 0 <= k < |m| ==> m[k] == 0
    ensures Sum(m) == 0
  {
    if m != [] {
      SumOfZeros(m[1..]);
    }
  }

  lemma {:induction false} SomeRoom(jobs: seq<JobSpec>, m: seq<nat>) returns (k: nat)
    requires |m| == |jobs| && Sum(m) < RoomOf(jobs)
    ensures k < |m| && m[k] < Room(jobs[k])
  {
    if m[0] < Room(jobs[0]) {
      k := 0;
    } else {
      k := SomeRoom(jobs[1..], m[1..]);
      k := k + 1;
    }
  }

  /** Of each job the first `m[k]` requests execute, and no other has been taken up. */
  ghost predicate Loaded(c: Config, s: State, m: seq<nat>)
    requires c.Valid()
  {
    && Shape(c, s) && |m| == |c.jobs| && s.stopped == {} && s.sem == Sum(m)
    && (forall t :: t in s.pc ==> s.pc[t] == Station(m, t))
    && (forall k :: 0 <= k < |m| ==> Counted(c.jobs[k], m[k], s.next[k], s.jobSem[k]))
  }

  function Station(m: seq<nat>, t: Tid): Pc {
    if t.job < |m| && t.idx < m[t.job] then Running else Unspawned
  }

  predicate Counted(job: JobSpec, n: nat, next: nat, jobSem: nat) {
    n <= Room(job) && if job.Sequential() then next == 0 else next == jobSem == n
  }

  lemma LoadedGrows(c: Config, s: State, m: seq<nat>, k: nat, s': State)
    requires c.Valid() && Loaded(c, s, m) && k < |m| && m[k] < Room(c.jobs[k]) && Shape(c, s')
    requires s'.pc == s.pc[Tid(k, m[k]) := Running] && s'.sem == s.sem + 1 && s'.stopped == {}
    requires
      if c.jobs[k].Sequential() then s'.next == s.next && s'.jobSem == s.jobSem
      else s'.next == s.next[k := s.next[k] + 1] && s'.jobSem == s.jobSem[k := s.jobSem[k] + 1]
    ensures Loaded(c, s', m[k := m[k] + 1])
  {
    SumBumped(m, k);
    var m' := m[k := m[k] + 1];
    forall t | t in s'.pc ensures s'.pc[t] == Station(m', t) {
      assert t in s.pc && s.pc[t] == Station(m, t);
    }
    forall j | 0 <= j < |m'| ensures Counted(c.jobs[j], m'[j], s'.next[j], s'.jobSem[j]) {
      assert Counted(c.jobs[j], m[j], s.next[j], s.jobSem[j]);
    }
  }

  lemma TwoEvents(c: Config, s: State, d: Event, e: Event)
    requires c.Valid() && Shape(c, s) && Enabled(c, s, d)
    requires Shape(c, Next(c, s, d)) && Enabled(c, Next(c, s, d), e)
    ensures
      var es := [d] + ([e] + []);
      Runs(c, s, es) && After(c, s, es) == Next(c, Next(c, s, d), e)
  {
    var s1 := Next(c, s, d);
    ShapeKept(c, s1, e);
    StepFirst(c, s1, e, []);
    StepFirst(c, s, d, [e] + []);
  }

  lemma TakesBoth(c: Config, s: State, t: Tid) returns (es: seq<Event>)
    requires c.Valid() && Shape(c, s) && At(s, t, Waiting) && s.sem < c.cap
    requires s.jobSem[t.job] < c.jobs[t.job].maxConc
    ensures Runs(c, s, es)
    ensures After(c, s, es) ==
      s.(pc := s.pc[t := Running], sem := s.sem + 1, jobSem := s.jobSem[t.job := s.jobSem[t.job] + 1])
  {
    ShapeKept(c, s, TakeJob(t));
    TwoEvents(c, s, TakeJob(t), TakeSem(t));
    es := [TakeJob(t)] + ([TakeSem(t)] + []);
    assert s.pc[t := JobSlot][t := Running] == s.pc[t := Running];
  }

  /** A fresh goroutine of a job that has room goes straight to the engine. */
  lemma GoesToEngine(c: Config, s: State, k: nat) returns (es: seq<Event>)
    requires c.Valid() && Shape(c, s) && k < |c.jobs| && s.next[k] < |c.jobs[k].ids| && s.sem < c.cap
    requires !c.jobs[k].Sequential() && s.jobSem[k] < c.jobs[k].maxConc && At(s, Tid(k, s.next[k]), Unspawned)
    ensures Runs(c, s, es) && HasTaken(s, After(c, s, es), k)
  {
    var t := Tid(k, s.next[k]);
    var s1 := Spawned(c, s, k);
    var rest := TakesBoth(c, s1, t);
    es := [Spawn(k)] + rest;
    assert HasSpawned(s, s1, k);
    SpawnedAndTaken(s, s1, After(c, s1, rest), k);
    PutFirst(c, s, Spawn(k), s1, rest, es);
  }

  predicate HasSpawned(s: State, s1: State, k: nat)
    requires k < |s.next|
  {
    && s1.pc[Tid(k, s.next[k]) := Running] == s.pc[Tid(k, s.next[k]) := Running]
    && s1.sem == s.sem && s1.stopped == s.stopped && s1.jobSem == s.jobSem
    && s1.next == s.next[k := s.next[k] + 1]
  }

  predicate HasTaken(s: State, s2: State, k: nat)
    requires k < |s.next| && k < |s.jobSem|
  {
    && s2.pc == s.pc[Tid(k, s.next[k]) := Running] && s2.sem == s.sem + 1 && s2.stopped == s.stopped
    && s2.next == s.next[k := s.next[k] + 1] && s2.jobSem == s.jobSem[k := s.jobSem[k] + 1]
  }

  lemma SpawnedAndTaken(s: State, s1: State, s2: State, k: nat)
    requires k < |s.next| && k < |s.jobSem| && HasSpawned(s, s1, k)
    requires s2 == s1.(pc := s1.pc[Tid(k, s.next[k]) := Running], sem := s1.sem + 1, jobSem := s1.jobSem[k := s1.jobSem[k] + 1])
    ensures HasTaken(s, s2, k)
  {
  }

  lemma Spawned(c: Config, s: State, k: nat) returns (s': State)
    requires c.Valid() && Shape(c, s) && Enabled(c, s, Spawn(k))
    ensures s' == Next(c, s, Spawn(k)) && Shape(c, s')
    ensures
      var t := Tid(k, s.next[k]);
      && At(s', t, Waiting) && s'.pc[t := Running] == s.pc[t := Running]
      && s'.sem == s.sem && s'.stopped == s.stopped && s'.jobSem == s.jobSem
      && s'.next == s.next[k := s.next[k] + 1]
  {
    ShapeKept(c, s, Spawn(k));
    s' := Next(c, s, Spawn(k));
  }

  /** So does the first request of a sequential job. */
  lemma FirstGoesToEngine(c: Config, s: State, k: nat) returns (es: seq<Event>)
    requires c.Valid() && Shape(c, s) && k < |c.jobs| && s.sem < c.cap
    requires c.jobs[k].Sequential() && k !in s.stopped && At(s, Tid(k, s.next[k]), Unspawned)
    ensures Runs(c, s, es)
    ensures
      var s' := After(c, s, es);
      && s'.pc == s.pc[Tid(k, s.next[k]) := Running] && s'.sem == s.sem + 1 && s'.stopped == s.stopped
      && s'.next == s.next && s'.jobSem == s.jobSem
  {
    var t := Tid(k, s.next[k]);
    ShapeKept(c, s, LoopEnter(k));
    TwoEvents(c, s, LoopEnter(k), TakeSem(t));
    es := [LoopEnter(k)] + ([TakeSem(t)] + []);
    assert s.pc[t := JobSlot][t := Running] == s.pc[t := Running];
  }

  lemma NextToLoad(c: Config, s: State, m: seq<nat>, k: nat)
    requires c.Valid() && Loaded(c, s, m) && k < |m| && m[k] < Room(c.jobs[k])
    ensures s.next[k] == m[k] < |c.jobs[k].ids| && At(s, Tid(k, m[k]), Unspawned)
    ensures !c.jobs[k].Sequential() ==> s.jobSem[k] < c.jobs[k].maxConc
  {
    var t := Tid(k, m[k]);
    assert Counted(c.jobs[k], m[k], s.next[k], s.jobSem[k]);
    assert t in s.pc && s.pc[t] == Station(m, t);
  }

  lemma LoadOne(c: Config, s: State, m: seq<nat>, k: nat) returns (es: seq<Event>)
    requires c.Valid() && Loaded(c, s, m) && k < |m| && m[k] < Room(c.jobs[k]) && s.sem < c.cap
    ensures Runs(c, s, es) && Loaded(c, After(c, s, es), m[k := m[k] + 1])
  {
    NextToLoad(c, s, m, k);
    es := OneToEngine(c, s, k);
    LoadedGrows(c, s, m, k, After(c, s, es));
  }

  lemma OneToEngine(c: Config, s: State, k: nat) returns (es: seq<Event>)
    requires c.Valid() && Shape(c, s) && k < |c.jobs| && s.next[k] < |c.jobs[k].ids| && s.sem < c.cap && s.stopped == {}
    requires At(s, Tid(k, s.next[k]), Unspawned) && (!c.jobs[k].Sequential() ==> s.jobSem[k] < c.jobs[k].maxConc)
    ensures Runs(c, s, es)
    ensures
      var s' := After(c, s, es);
      && s'.pc == s.pc[Tid(k, s.next[k]) := Running] && s'.sem == s.sem + 1 && s'.stopped == {}
      && if c.jobs[k].Sequential() then s'.next == s.next && s'.jobSem == s.jobSem
         else s'.next == s.next[k := s.next[k] + 1] && s'.jobSem == s.jobSem[k := s.jobSem[k] + 1]
  {
    if c.jobs[k].Sequential() {
      es := FirstGoesToEngine(c, s, k);
    } else {
      es := GoesToEngine(c, s, k);
    }
  }

  lemma {:induction false} Load(c: Config, n: nat) returns (es: seq<Event>, m: seq<nat>)
    requires c.Valid() && n <= c.cap && n <= RoomOf(c.jobs)
    ensures Runs(c, Initial(c), es) && Loaded(c, After(c, Initial(c), es), m) && Sum(m) == n
  {
    InitialInv(c);
    if n == 0 {
      es, m := [], seq(|c.jobs|, _ => 0);
      SumOfZeros(m);
    } else {
      var before;
      before, m := Load(c, n - 1);
      var s := After(c, Initial(c), before);
      var k := SomeRoom(c.jobs, m);
      var more := LoadOne(c, s, m, k);
      SumBumped(m, k);
      Continue(c, Initial(c), before, more);
      es, m := before + more, m[k := m[k] + 1];
    }
  }

  /**
   * The bounds are reached: every number of requests up to the capacity of the pool, and up to
   * what the jobs allow, executes at once in some run.
   */
  lemma CapacityIsUsed(c: Config, n: nat) returns (es: seq<Event>)
    requires c.Valid() && n <= c.cap && n <= RoomOf(c.jobs)
    ensures Runs(c, Initial(c), es) && |Executing(After(c, Initial(c), es))| == n
  {
    var m;
    es, m := Load(c, n);
    InitialInv(c);
    RunKeepsInv(c, Initial(c), es);
    AllHoldersExecute(c, After(c, Initial(c), es), m);
  }

  lemma AllHoldersExecute(c: Config, s: State, m: seq<nat>)
    requires c.Valid() && Loaded(c, s, m)
    ensures Executing(s) == GlobalHolders(s.pc)
  {
  }

  // ------------------------------------------------------------------------------------------
  // Progress

  /** The event a thread can always take by itself once it holds what it needs. */
  function Onward(c: Config, s: State, t: Tid): Event
    requires t in s.pc && !s.pc[t].Unspawned? && !s.pc[t].Finished?
  {
    match s.pc[t]
    case Waiting => TakeJob(t)
    case JobSlot => TakeSem(t)
    case Running => Execute(t)
    case Returned => PutSem(t)
    case Unpooled => Store(t)
    case Stored => if Concurrent(c, t.job) then PutJob(t) else LoopAdvance(t.job)
    case _ => WgDone(t)
  }

  lemma HolderMoves(c: Config, s: State, t: Tid)
    requires c.Valid() && Inv(c, s) && t in s.pc
    requires !s.pc[t].Unspawned? && !s.pc[t].Finished? && !s.pc[t].Waiting? && !s.pc[t].JobSlot?
    ensures Enabled(c, s, Onward(c, s, t))
  {
    assert Placed(c, s, t) && Answered(c, s, t);
    if s.pc[t].Returned? {
      assert t in GlobalHolders(s.pc);
    }
    if s.pc[t].Stored? && Concurrent(c, t.job) {
      assert t in JobHolders(s.pc, t.job);
    }
  }

  /** A thread that waits for the pool moves, or some holder of a pool slot does. */
  lemma PoolWaiterOrHolderMoves(c: Config, s: State, t: Tid) returns (e: Event)
    requires c.Valid() && Inv(c, s) && At(s, t, JobSlot)
    ensures Enabled(c, s, e)
  {
    if h :| h in GlobalHolders(s.pc) {
      HolderMoves(c, s, h);
      e := Onward(c, s, h);
    } else {
      assert GlobalHolders(s.pc) == {};
      e := TakeSem(t);
    }
  }

  /** A thread that waits for its job's semaphore moves, or some holder of a slot of it leads to one that does. */
  lemma JobWaiterOrHolderMoves(c: Config, s: State, t: Tid) returns (e: Event)
    requires c.Valid() && Inv(c, s) && At(s, t, Waiting)
    ensures Enabled(c, s, e)
  {
    assert Placed(c, s, t);
    if h :| h in JobHolders(s.pc, t.job) {
      if s.pc[h].JobSlot? {
        e := PoolWaiterOrHolderMoves(c, s, h);
      } else {
        HolderMoves(c, s, h);
        e := Onward(c, s, h);
      }
    } else {
      assert JobHolders(s.pc, t.job) == {};
      e := TakeJob(t);
    }
  }

  /** No interleaving deadlocks: until every job has returned, some event is enabled. */
  lemma NeverStuck(c: Config, es: seq<Event>, k: nat) returns (e: Event)
    requires c.Valid() && Runs(c, Initial(c), es)
    requires k < |c.jobs| && k !in After(c, Initial(c), es).returned
    ensures Enabled(c, After(c, Initial(c), es), e)
  {
    InitialInv(c);
    RunKeepsInv(c, Initial(c), es);
    e := SomeoneMoves(c, After(c, Initial(c), es), k);
  }

  lemma SomeoneMoves(c: Config, s: State, k: nat) returns (e: Event)
    requires c.Valid() && Inv(c, s) && k < |c.jobs| && k !in s.returned
    ensures Enabled(c, s, e)
  {
    if t :| t in s.pc && t.job == k && !s.pc[t].Unspawned? && !s.pc[t].Finished? {
      if s.pc[t].Waiting? {
        e := JobWaiterOrHolderMoves(c, s, t);
      } else if s.pc[t].JobSlot? {
        e := PoolWaiterOrHolderMoves(c, s, t);
      } else {
        HolderMoves(c, s, t);
        e := Onward(c, s, t);
      }
    } else {
      e := IdleJobMoves(c, s, k);
    }
  }

  lemma IdleJobMoves(c: Config, s: State, k: nat) returns (e: Event)
    requires c.Valid() && Inv(c, s) && k < |c.jobs| && k !in s.returned
    requires forall t :: t in s.pc && t.job == k ==> s.pc[t].Unspawned? || s.pc[t].Finished?
    ensures Enabled(c, s, e)
  {
    if s.next[k] < |c.jobs[k].ids| {
      var t := Tid(k, s.next[k]);
      assert Placed(c, s, t);
      e := NextRequestMoves(c, s, k);
    } else {
      NoneAlive(s.pc, k);
      e := Return(k);
    }
  }

  lemma NextRequestMoves(c: Config, s: State, k: nat) returns (e: Event)
    requires c.Valid() && Shape(c, s) && k < |c.jobs| && s.next[k] < |c.jobs[k].ids|
    requires Placed(c, s, Tid(k, s.next[k]))
    requires var p := s.pc[Tid(k, s.next[k])]; p.Unspawned? || p.Finished?
    ensures Enabled(c, s, e)
  {
    e := if Concurrent(c, k) then Spawn(k) else if k in s.stopped then LoopSkip(k) else LoopEnter(k);
  }

  lemma NoneAlive(pc: map<Tid, Pc>, k: nat)
    requires forall t :: t in pc && t.job == k ==> pc[t].Unspawned? || pc[t].Finished?
    ensures AliveIn(pc, k) == {}
  {
  }

  /** The moves still ahead: each thread's remaining stations, and the jobs that have not returned. */
  datatype Todo = Stop(t: Tid, n: nat) | ToReturn(k: nat)

  function Ahead(p: Pc): nat {
    match p
    case Unspawned => 8
    case Waiting => 7
    case JobSlot => 6
    case Running => 5
    case Returned => 4
    case Unpooled => 3
    case Stored => 2
    case Left => 1
    case Finished => 0
  }

  function Work(c: Config, s: State): set<Todo> {
    (set t, n | t in s.pc && 0 <= n < 8 && n < Ahead(s.pc[t]) :: Stop(t, n))
    + (set k | 0 <= k < |c.jobs| && k !in s.returned :: ToReturn(k))
  }

  lemma StepShrinksWork(c: Config, s: State, e: Event)
    requires c.Valid() && Shape(c, s) && Enabled(c, s, e)
    ensures Shape(c, Next(c, s, e)) && Work(c, Next(c, s, e)) < Work(c, s)
  {
    ShapeKept(c, s, e);
    var s' := Next(c, s, e);
    if e.Return? {
      assert ToReturn(e.k) in Work(c, s) && ToReturn(e.k) !in Work(c, s');
    } else {
      OneMoves(c, s, e);
      var t := Mover(s, e);
      MoverAdvances(c, s, e);
      assert Stop(t, Ahead(s.pc[t]) - 1) in Work(c, s);
      assert Stop(t, Ahead(s.pc[t]) - 1) !in Work(c, s');
    }
    assert Work(c, s') <= Work(c, s);
  }

  lemma MoverAdvances(c: Config, s: State, e: Event)
    requires c.Valid() && Shape(c, s) && Enabled(c, s, e) && !e.Return?
    ensures Mover(s, e) in s.pc && Ahead(Target(e)) < Ahead(s.pc[Mover(s, e)])
  {
  }

  lemma {:induction false} RunSpendsWork(c: Config, s: State, es: seq<Event>)
    requires c.Valid() && Runs(c, s, es)
    ensures |es| + |Work(c, After(c, s, es))| <= |Work(c, s)|
    decreases |es|
  {
    if es != [] {
      var s' := Next(c, s, es[0]);
      StepShrinksWork(c, s, es[0]);
      assert Work(c, s) == Work(c, s') + (Work(c, s) - Work(c, s'));
      RunSpendsWork(c, s', es[1..]);
    }
  }

  /** Every interleaving ends: no run from the start is longer than the stations and returns it begins with. */
  lemma RunsAreBounded(c: Config, es: seq<Event>)
    requires c.Valid() && Runs(c, Initial(c), es)
    ensures |es| <= |Work(c, Initial(c))|
  {
    RunSpendsWork(c, Initial(c), es);
  }

  ghost predicate AllReturned(c: Config, s: State) {
    forall k :: 0 <= k < |c.jobs| ==> k in s.returned
  }

  lemma StepFirst(c: Config, s: State, e: Event, es: seq<Event>)
    requires c.Valid() && Shape(c, s) && Enabled(c, s, e) && Runs(c, Next(c, s, e), es)
    ensures Runs(c, s, [e] + es) && After(c, s, [e] + es) == After(c, Next(c, s, e), es)
  {
    assert ([e] + es)[0] == e && ([e] + es)[1..] == es;
  }

  lemma FirstEvent(c: Config, s: State, es: seq<Event>)
    requires c.Valid() && Runs(c, s, es) && es != []
    ensures Shape(c, s) && Enabled(c, s, es[0]) && Runs(c, Next(c, s, es[0]), es[1..])
    ensures After(c, s, es) == After(c, Next(c, s, es[0]), es[1..])
  {
  }

  lemma PutFirst(c: Config, s: State, e: Event, s1: State, rest: seq<Event>, es: seq<Event>)
    requires c.Valid() && Shape(c, s) && Enabled(c, s, e) && s1 == Next(c, s, e) && Runs(c, s1, rest) && es == [e] + rest
    ensures Runs(c, s, es) && After(c, s, es) == After(c, s1, rest)
  {
    StepFirst(c, s, e, rest);
  }

  lemma HeadAndRest<T>(es: seq<T>, fs: seq<T>)
    requires es != []
    ensures es + fs == [es[0]] + (es[1..] + fs)
  {
  }

  lemma {:induction false} Continue(c: Config, s: State, es: seq<Event>, fs: seq<Event>)
    requires c.Valid() && Runs(c, s, es) && Runs(c, After(c, s, es), fs)
    ensures Runs(c, s, es + fs) && After(c, s, es + fs) == After(c, After(c, s, es), fs)
    decreases |es|
  {
    if es == [] {
      assert es + fs == fs;
    } else {
      FirstEvent(c, s, es);
      var s1 := Next(c, s, es[0]);
      Continue(c, s1, es[1..], fs);
      HeadAndRest(es, fs);
      PutFirst(c, s, es[0], s1, es[1..] + fs, es + fs);
    }
  }

  lemma {:induction false} CompletesFrom(c: Config, s: State) returns (fs: seq<Event>)
    requires c.Valid() && Inv(c, s)
    ensures Runs(c, s, fs) && AllReturned(c, After(c, s, fs))
    decreases |Work(c, s)|
  {
    fs := [];
    if k :| 0 <= k < |c.jobs| && k !in s.returned {
      var e := SomeoneMoves(c, s, k);
      var s' := Next(c, s, e);
      StepKeepsInv(c, s, e);
      StepShrinksWork(c, s, e);
      SmallerSet(Work(c, s'), Work(c, s));
      var rest := CompletesFrom(c, s');
      StepFirst(c, s, e, rest);
      fs := [e] + rest;
    }
  }

  /** Every job returns: any run whatever goes on to one after which all jobs have returned. */
  lemma EveryRunCompletes(c: Config, es: seq<Event>) returns (fs: seq<Event>)
    requires c.Valid() && Runs(c, Initial(c), es)
    ensures Runs(c, Initial(c), es + fs) && AllReturned(c, After(c, Initial(c), es + fs))
  {
    InitialInv(c);
    RunKeepsInv(c, Initial(c), es);
    fs := CompletesFrom(c, After(c, Initial(c), es));
    Continue(c, Initial(c), es, fs);
  }

  lemma SmallerSet<T>(a: set<T>, b: set<T>)
    requires a < b
    ensures |a| < |b|
  {
    assert b == a + (b - a);
  }

  /**
   * Refinement: whatever the interleaving, a job that returned has filled every slot with what
   * the sequential loop over the same outcomes puts there, and the engine saw exactly the
   * requests that are not skips. A concurrent job has no skips, whatever its `stopOnError`.
   */
  lemma ReturnedJobMatchesLoop(c: Config, es: seq<Event>, k: nat, i: nat)
    requires c.Valid() && Runs(c, Initial(c), es)
    requires k in After(c, Initial(c), es).returned && k < |c.jobs| && i < |c.jobs[k].ids|
    ensures
      var s := After(c, Initial(c), es);
      var asLoop := if Concurrent(c, k) then c.jobs[k].(maxConc := 1, stopOnError := false) else c.jobs[k];
      && Tid(k, i) in s.out && s.out[Tid(k, i)] == asLoop.SlotAt(i)
      && (Tid(k, i) in s.executed <==> !asLoop.SkipsAt(i))
  {
    InitialInv(c);
    RunKeepsInv(c, Initial(c), es);
    var s := After(c, Initial(c), es);
    assert Answered(c, s, Tid(k, i));
  }

  /**
   * What the callers of a job that returned find: a sequential job that stops on errors, in whose
   * list request `k` is the first to fail, has error-free slots exactly before `k`, and every slot
   * after `k` says that it was skipped. Any other job has in every slot what the engine answered.
   */
  lemma ReturnedJobSkips(c: Config, es: seq<Event>, k: nat, first: nat, i: nat)
    requires c.Valid() && Runs(c, Initial(c), es)
    requires k in After(c, Initial(c), es).returned && k < |c.jobs| && i < |c.jobs[k].ids|
    requires first < |c.jobs[k].ids| && c.jobs[k].outcomes[first].error.Some? && !c.jobs[k].FailedBefore(first)
    ensures
      var (job, s) := (c.jobs[k], After(c, Initial(c), es));
      && Tid(k, i) in s.out
      && if job.maxConc <= 1 && job.stopOnError then
           && (s.out[Tid(k, i)].error.None? <==> i < first)
           && (i > first ==> SaysSkipped(s.out[Tid(k, i)], job.ids[i]) && Tid(k, i) !in s.executed)
           && (i <= first ==> s.out[Tid(k, i)] == job.outcomes[i] && Tid(k, i) in s.executed)
         else s.out[Tid(k, i)] == job.outcomes[i] && Tid(k, i) in s.executed
  {
    ReturnedJobMatchesLoop(c, es, k, i);
    if c.jobs[k].maxConc <= 1 && c.jobs[k].stopOnError {
      StopsAtFirstError(c.jobs[k], first);
    } else {
      NothingSkipped(if Concurrent(c, k) then c.jobs[k].(maxConc := 1, stopOnError := false) else c.jobs[k], i);
    }
  }

  /** No slot is ever written twice, and a request goes to the engine at most once. */
  lemma SlotsAreWrittenOnce(c: Config, es: seq<Event>, e: Event, t: Tid)
    requires c.Valid() && Runs(c, Initial(c), es) && Enabled(c, After(c, Initial(c), es), e)
    ensures
      var s := After(c, Initial(c), es);
      && (t in s.out ==> t in Next(c, s, e).out && Next(c, s, e).out[t] == s.out[t])
      && (e == Store(t) || (e.LoopSkip? && t == Tid(e.k, s.next[e.k])) ==> t !in s.out)
      && (e == Execute(t) ==> t !in s.executed)
  {
    InitialInv(c);
    RunKeepsInv(c, Initial(c), es);
    var s := After(c, Initial(c), es);
    if !e.Return? {
      assert Mover(s, e) in s.pc;
    }
    StepWritesOnce(c, s, e, t);
  }

  lemma StepWritesOnce(c: Config, s: State, e: Event, t: Tid)
    requires c.Valid() && Shape(c, s) && Enabled(c, s, e)
    requires !e.Return? ==> Mover(s, e) in s.pc && Answered(c, s, Mover(s, e))
    ensures t in s.out ==> t in Next(c, s, e).out && Next(c, s, e).out[t] == s.out[t]
    ensures e == Store(t) || (e.LoopSkip? && t == Tid(e.k, s.next[e.k])) ==> t !in s.out
    ensures e == Execute(t) ==> t !in s.executed
  {
    if !e.Return? {
      SlotIsEmptyBefore(c, s, e);
      OneMoves(c, s, e);
    }
  }

  lemma SlotIsEmptyBefore(c: Config, s: State, e: Event)
    requires c.Valid() && Shape(c, s) && Enabled(c, s, e) && !e.Return? && Mover(s, e) in s.pc
    requires Answered(c, s, Mover(s, e))
    ensures var t := Mover(s, e);
      && (e.Store? || e.LoopSkip? ==> t !in s.out)
      && (e.Execute? ==> t !in s.executed)
      && (t in s.out ==> t in Next(c, s, e).out && Next(c, s, e).out[t] == s.out[t])
  {
  }
}
