/** The worker's acceptance gate for messages on the jobs channel. */
module WorkerGate {
  import opened Text
  import opened DedupeStore

  datatype Job = Job(id: string, agentId: string, deadline: Option<int>)

  /** What parsing and opening a raw message yields; `Refused` covers forged, replayed and stale ones. */
  datatype Message = NotEnvelope | Refused | Opened(job: Job)

  /** The checks in front of the dedupe store. */
  predicate Admissible(m: Message, draining: bool, agentId: string, now: int) {
    && !draining
    && m.Opened?
    && m.job.agentId in {"", agentId}
    && (m.job.deadline.Some? ==> now <= m.job.deadline.value)
  }

  class Worker {
    const agentId: string
    const dedupe: Dedupe
    var draining: bool
    var wg: int
    var inflight: int
    /** The jobs whose goroutine was launched, in order. */
    var launched: seq<Job>

    constructor (agentId: string, dedupe: Dedupe)
      ensures this.agentId == agentId && this.dedupe == dedupe
      ensures !draining && wg == 0 && inflight == 0 && launched == []
    {
      this.agentId, this.dedupe := agentId, dedupe;
      draining, wg, inflight, launched := false, 0, 0, [];
    }

    /**
     * Launches the job of an admissible message that the store calls fresh, and nothing else.
     * A message stopped by an earlier check (a draining worker, a message that does not open, a job
     * for another agent or past its deadline) leaves the store alone, so it does not use up its id.
     */
    method OnJob(m: Message, now0: int, now1: int, now2: int, flush: Flush)
      modifies this`wg, this`inflight, this`launched, dedupe`seen, dedupe.file
      ensures
        if Admissible(m, draining, agentId, now0) then
          var (seen, file, answer) := Call(old(dedupe.seen), old(dedupe.file.content), dedupe.ttl, m.job.id, now1, now2, flush);
          && dedupe.seen == seen && dedupe.file.content == file
          && launched == old(launched) + (if answer.Fresh? then [m.job] else [])
        else
          dedupe.seen == old(dedupe.seen) && dedupe.file.content == old(dedupe.file.content) && launched == old(launched)
      ensures m.Opened? && !draining && (m.job.agentId == "" || m.job.agentId == agentId)
              && (m.job.deadline == None || now0 <= m.job.deadline.value)
              && !LiveIn(old(dedupe.seen), m.job.id, dedupe.ttl, now1) && flush.Renamed? ==>
        launched == old(launched) + [m.job]
      ensures draining || !m.Opened? || (m.job.agentId != "" && m.job.agentId != agentId)
              || (m.job.deadline.Some? && now0 > m.job.deadline.value) ==>
        launched == old(launched) && dedupe.seen == old(dedupe.seen) && dedupe.file.content == old(dedupe.file.content)
      ensures m.Opened? && LiveIn(old(dedupe.seen), m.job.id, dedupe.ttl, now1) ==> launched == old(launched)
      ensures !flush.Renamed? ==> launched == old(launched)
      ensures wg - old(wg) == inflight - old(inflight) == |launched| - |old(launched)|
    {
      if draining {
        return;
      }
      if m.NotEnvelope? {
        return;
      }
      if m.Refused? {
        return;
      }
      var job := m.job;
      if job.agentId != "" && job.agentId != agentId {
        return;
      }
      if job.deadline.Some? && now0 > job.deadline.value {
        return;
      }
      var answer := dedupe.SeenOrRecord(job.id, now1, now2, flush);
      if answer.Failed? {
        return;
      }
      if answer.Duplicate? {
        return;
      }
      wg := wg + 1;
      inflight := inflight + 1;
      launched := launched + [job];
    }
  }
}

/**
 * The counters of accepted jobs and the drain at shutdown, with every handler and every goroutine
 * interleaved: one program counter per message handler.
 */
module Drain {
  import opened Numbers

  datatype Pc =
    | Arrived
    | Admitted   // saw `draining` false, has not yet called wg.Add
    | Counted    // after wg.Add(1)
    | InFlight   // after inflight.Add(1): the job's goroutine runs
    | Leaving    // after inflight.Add(-1)
    | Gone

  datatype State = State(pc: map<nat, Pc>, wg: int, inflight: int, draining: bool, drained: bool)

  datatype Event =
    | Arrive(h: nat)
    | CheckDraining(h: nat)
    | GiveUp(h: nat)          // any of the other checks stops the message
    | AddWait(h: nat)
    | AddInFlight(h: nat)
    | SubInFlight(h: nat)
    | DoneWait(h: nat)
    | StartDraining
    | WaitReturns

  predicate At(s: State, h: nat, p: Pc) {
    h in s.pc && s.pc[h] == p
  }

  predicate Enabled(s: State, e: Event) {
    match e
    case Arrive(h) => h !in s.pc
    case CheckDraining(h) => At(s, h, Arrived)
    case GiveUp(h) => At(s, h, Admitted)
    case AddWait(h) => At(s, h, Admitted)
    case AddInFlight(h) => At(s, h, Counted)
    case SubInFlight(h) => At(s, h, InFlight)
    case DoneWait(h) => At(s, h, Leaving)
    case StartDraining => !s.draining
    case WaitReturns => s.draining && s.wg == 0
  }

  function Next(s: State, e: Event): State
    requires Enabled(s, e)
  {
    match e
    case Arrive(h) => s.(pc := s.pc[h := Arrived])
    case CheckDraining(h) => s.(pc := s.pc[h := if s.draining then Gone else Admitted])
    case GiveUp(h) => s.(pc := s.pc[h := Gone])
    case AddWait(h) => s.(pc := s.pc[h := Counted], wg := s.wg + 1)
    case AddInFlight(h) => s.(pc := s.pc[h := InFlight], inflight := s.inflight + 1)
    case SubInFlight(h) => s.(pc := s.pc[h := Leaving], inflight := s.inflight - 1)
    case DoneWait(h) => s.(pc := s.pc[h := Gone], wg := s.wg - 1)
    case StartDraining => s.(draining := true)
    case WaitReturns => s.(drained := true)
  }

  predicate Runs(s: State, es: seq<Event>)
    decreases |es|
  {
    es == [] || (Enabled(s, es[0]) && Runs(Next(s, es[0]), es[1..]))
  }

  function After(s: State, es: seq<Event>): State
    requires Runs(s, es)
    decreases |es|
  {
    if es == [] then s else After(Next(s, es[0]), es[1..])
  }

  const INITIAL := State(map[], 0, 0, false, false)

  /** The handlers between wg.Add and wg.Done. */
  function Waited(s: State): set<nat> {
    set h | h in s.pc && Waits(s.pc[h])
  }

  function Flying(s: State): set<nat> {
    set h | h in s.pc && s.pc[h].InFlight?
  }

  predicate Inv(s: State) {
    s.wg == |Waited(s)| && s.inflight == |Flying(s)|
  }

  predicate Waits(p: Pc) {
    p.Counted? || p.InFlight? || p.Leaving?
  }

  lemma Move(s: State, h: nat, p: Pc)
    ensures
      var s' := s.(pc := s.pc[h := p]);
      && Waited(s') == (if Waits(p) then Waited(s) + {h} else Waited(s) - {h})
      && Flying(s') == (if p.InFlight? then Flying(s) + {h} else Flying(s) - {h})
  {
  }

  lemma MovedSets(s: State, e: Event)
    requires Enabled(s, e)
    ensures
      var s' := Next(s, e);
      match e
      case AddWait(h) => h !in Waited(s) && Waited(s') == Waited(s) + {h} && Flying(s') == Flying(s)
      case AddInFlight(h) => h !in Flying(s) && Waited(s') == Waited(s) && Flying(s') == Flying(s) + {h}
      case SubInFlight(h) => h in Flying(s) && Waited(s') == Waited(s) && Flying(s') == Flying(s) - {h}
      case DoneWait(h) => h in Waited(s) && Waited(s') == Waited(s) - {h} && Flying(s') == Flying(s)
      case _ => Waited(s') == Waited(s) && Flying(s') == Flying(s)
  {
    match e
    case StartDraining =>
    case WaitReturns =>
    case Arrive(h) => Move(s, h, Arrived);
    case CheckDraining(h) => Move(s, h, Next(s, e).pc[h]);
    case GiveUp(h) => Move(s, h, Gone);
    case AddWait(h) => Move(s, h, Counted);
    case AddInFlight(h) => Move(s, h, InFlight);
    case SubInFlight(h) => Move(s, h, Leaving);
    case DoneWait(h) => Move(s, h, Gone);
  }

  lemma StepKeepsInv(s: State, e: Event)
    requires Inv(s) && Enabled(s, e)
    ensures Inv(Next(s, e))
  {
    MovedSets(s, e);
  }

  lemma {:induction false} RunKeepsInv(s: State, es: seq<Event>)
    requires Inv(s) && Runs(s, es)
    ensures Inv(After(s, es))
    decreases |es|
  {
    if es != [] {
      StepKeepsInv(s, es[0]);
      RunKeepsInv(Next(s, es[0]), es[1..]);
    }
  }

  /** At every interleaving the in-flight count lies between zero and the wait-group count. */
  lemma InFlightWithinWaitGroup(es: seq<Event>)
    requires Runs(INITIAL, es)
    ensures 0 <= After(INITIAL, es).inflight <= After(INITIAL, es).wg
  {
    assert Waited(INITIAL) == {} && Flying(INITIAL) == {};
    RunKeepsInv(INITIAL, es);
    SubsetSize(Flying(After(INITIAL, es)), Waited(After(INITIAL, es)));
  }

  /** When the drain sees the wait group empty, nothing is in flight and no job goroutine runs. */
  lemma DrainSeesNothingInFlight(es: seq<Event>, h: nat)
    requires Runs(INITIAL, es) && Enabled(After(INITIAL, es), WaitReturns)
    ensures After(INITIAL, es).inflight == 0 && !At(After(INITIAL, es), h, InFlight)
  {
    assert Waited(INITIAL) == {} && Flying(INITIAL) == {};
    InFlightWithinWaitGroup(es);
    RunKeepsInv(INITIAL, es);
    assert h !in Flying(After(INITIAL, es));
  }

  lemma {:induction false} FlagsFrom(s: State, es: seq<Event>)
    requires Runs(s, es)
    ensures After(s, es).draining <==> s.draining || StartDraining in es
    ensures After(s, es).drained <==> s.drained || WaitReturns in es
    decreases |es|
  {
    if es != [] {
      FlagsFrom(Next(s, es[0]), es[1..]);
      assert forall e :: e in es <==> e == es[0] || e in es[1..];
    }
  }

  /** The worker drains from the moment it is told to, and not before; it is drained when the wait has returned. */
  lemma DrainingIff(es: seq<Event>)
    requires Runs(INITIAL, es)
    ensures After(INITIAL, es).draining <==> StartDraining in es
    ensures After(INITIAL, es).drained <==> WaitReturns in es
  {
    FlagsFrom(INITIAL, es);
  }

  /** A message that arrives goes on exactly if the worker does not drain yet, and then its job can get into flight. */
  lemma TakenUpIff(es: seq<Event>, h: nat)
    requires Runs(INITIAL, es) && At(After(INITIAL, es), h, Arrived)
    ensures
      var s := Next(After(INITIAL, es), CheckDraining(h));
      && (StartDraining in es <==> At(s, h, Gone))
      && (StartDraining !in es <==> At(s, h, Admitted))
      && (At(s, h, Admitted) ==> exists fs :: Runs(s, fs) && After(s, fs).inflight > 0)
  {
    DrainingIff(es);
    InFlightWithinWaitGroup(es);
    var s := Next(After(INITIAL, es), CheckDraining(h));
    if At(s, h, Admitted) {
      StragglerBringsAJob(s, h);
    }
  }

  lemma {:induction false} Continue(s: State, es: seq<Event>, fs: seq<Event>)
    requires Runs(s, es)
    ensures Runs(s, es + fs) <==> Runs(After(s, es), fs)
    ensures Runs(s, es + fs) ==> After(s, es + fs) == After(After(s, es), fs)
    decreases |es|
  {
    if es == [] {
      assert es + fs == fs;
    } else {
      Continue(Next(s, es[0]), es[1..], fs);
      assert (es + fs)[0] == es[0] && (es + fs)[1..] == es[1..] + fs;
    }
  }

  lemma OneEvent(s: State, e: Event)
    requires Enabled(s, e)
    ensures Runs(s, [e]) && After(s, [e]) == Next(s, e)
  {
    assert [e][1..] == [];
    assert After(Next(s, e), []) == Next(s, e);
  }

  /** The next event of a handler that holds up the drain. */
  function Onward(s: State, h: nat): Event
    requires h in s.pc
  {
    match s.pc[h]
    case Counted => AddInFlight(h)
    case InFlight => SubInFlight(h)
    case _ => DoneWait(h)
  }

  function Rank(p: Pc): nat {
    match p
    case Counted => 3
    case InFlight => 2
    case Leaving => 1
    case _ => 0
  }

  /** Handler `h` goes its way to the end. */
  lemma {:induction false} HandlerLeaves(s: State, h: nat) returns (fs: seq<Event>)
    requires Inv(s) && h in Waited(s)
    ensures Runs(s, fs) && Inv(After(s, fs)) && Waited(After(s, fs)) == Waited(s) - {h}
    ensures After(s, fs).draining == s.draining
    decreases Rank(s.pc[h])
  {
    var e := Onward(s, h);
    var s1 := Next(s, e);
    StepKeepsInv(s, e);
    MovedSets(s, e);
    OneEvent(s, e);
    fs := [e];
    if s1.pc[h] != Gone {
      var rest := HandlerLeaves(s1, h);
      Continue(s, fs, rest);
      fs := fs + rest;
    }
  }

  lemma {:induction false} HandlersLeave(s: State) returns (fs: seq<Event>)
    requires Inv(s)
    ensures Runs(s, fs) && Inv(After(s, fs)) && Waited(After(s, fs)) == {} && After(s, fs).draining == s.draining
    decreases |Waited(s)|
  {
    fs := [];
    if h :| h in Waited(s) {
      var first := HandlerLeaves(s, h);
      var s1 := After(s, first);
      assert Waited(s1) < Waited(s);
      var rest := HandlersLeave(s1);
      Continue(s, first, rest);
      fs := first + rest;
    }
  }

  /** The drain can always complete: every run goes on to one in which the wait has returned. */
  lemma DrainCompletes(es: seq<Event>) returns (fs: seq<Event>)
    requires Runs(INITIAL, es)
    ensures Runs(INITIAL, es + fs) && After(INITIAL, es + fs).drained && After(INITIAL, es + fs).inflight == 0
  {
    assert Waited(INITIAL) == {} && Flying(INITIAL) == {};
    RunKeepsInv(INITIAL, es);
    var s := After(INITIAL, es);
    var first := if s.draining then [] else [StartDraining];
    if !s.draining {
      OneEvent(s, StartDraining);
    }
    var s1 := After(s, first);
    RunKeepsInv(s, first);
    var second := HandlersLeave(s1);
    var s2 := After(s1, second);
    SubsetSize(Flying(s2), Waited(s2));
    OneEvent(s2, WaitReturns);
    Continue(s1, second, [WaitReturns]);
    Continue(s, first, second + [WaitReturns]);
    fs := first + (second + [WaitReturns]);
    Continue(INITIAL, es, fs);
  }

  /** A message stopped by one of the later checks counts nowhere. */
  lemma RefusalCountsNothing(s: State, h: nat)
    requires At(s, h, Admitted)
    ensures Enabled(s, GiveUp(h)) && At(Next(s, GiveUp(h)), h, Gone)
    ensures Next(s, GiveUp(h)).wg == s.wg && Next(s, GiveUp(h)).inflight == s.inflight
  {
  }

  /** No handler can still bring a job in: none is past the draining check and short of wg.Done. */
  predicate Quiet(s: State) {
    s.draining && forall h :: h in s.pc ==> (s.pc[h].Arrived? || s.pc[h].Gone?)
  }

  lemma {:induction false} QuietStaysQuiet(s: State, es: seq<Event>)
    requires Quiet(s) && Runs(s, es)
    ensures Quiet(After(s, es)) && After(s, es).inflight == s.inflight
    decreases |es|
  {
    if es != [] {
      assert Quiet(Next(s, es[0]));
      QuietStaysQuiet(Next(s, es[0]), es[1..]);
    }
  }

  /**
   * Exactly when a job can still go into flight after the drain completed: when some handler had
   * passed the draining check but not yet called wg.Add at the moment the wait returned.
   */
  lemma JobsAfterDrainIffStraggler(es: seq<Event>)
    requires Runs(INITIAL, es) && Enabled(After(INITIAL, es), WaitReturns)
    ensures
      var s := Next(After(INITIAL, es), WaitReturns);
      (exists fs :: Runs(s, fs) && After(s, fs).inflight > 0) <==> (exists h :: At(s, h, Admitted))
  {
    var s0 := After(INITIAL, es);
    var s := Next(s0, WaitReturns);
    DrainSeesNothingInFlight(es, 0);
    if h :| At(s, h, Admitted) {
      StragglerBringsAJob(s, h);
    } else {
      assert Waited(INITIAL) == {} && Flying(INITIAL) == {};
      RunKeepsInv(INITIAL, es);
      forall h | h in s.pc ensures s.pc[h].Arrived? || s.pc[h].Gone? {
        assert !At(s, h, Admitted) && h !in Waited(s0);
      }
      forall fs | Runs(s, fs) ensures After(s, fs).inflight == 0 {
        QuietStaysQuiet(s, fs);
      }
    }
  }

  lemma StragglerBringsAJob(s: State, h: nat)
    requires At(s, h, Admitted) && s.inflight >= 0
    ensures exists fs :: Runs(s, fs) && After(s, fs).inflight > 0
  {
    var s1 := Next(s, AddWait(h));
    var s2 := Next(s1, AddInFlight(h));
    var fs := [AddWait(h), AddInFlight(h)];
    assert fs[1..] == [AddInFlight(h)] && fs[1..][1..] == [];
    assert Runs(s2, []) && Runs(s1, fs[1..]);
    assert Runs(s, fs) && After(s, fs) == After(s1, fs[1..]) == s2;
  }
}
