/**
 * Any number of worker processes on one state file. Each has a memory of its own, loaded when it
 * opened the file; the file, the clock and the history are shared. A step of one process is a
 * step of `Intake` on what that process sees.
 */
module Fleet {
  import opened DedupeStore
  import I = Intake

  datatype State = State(
    clock: int, ttl: int, file: File, procs: map<nat, I.Process>, log: seq<Entry>, base: nat, starts: seq<I.Start>)

  datatype Step = Step(pid: nat, event: I.Event)

  function ProcessOf(f: State, pid: nat): I.Process {
    if pid in f.procs then f.procs[pid] else I.Down
  }

  function View(f: State, p: I.Process): I.State {
    I.State(f.clock, f.ttl, f.file, p, f.log, f.base, f.starts)
  }

  predicate Enabled(f: State, step: Step) {
    I.Enabled(View(f, ProcessOf(f, step.pid)), step.event)
  }

  function Next(f: State, step: Step): State
    requires Enabled(f, step)
  {
    var s := I.Next(View(f, ProcessOf(f, step.pid)), step.event);
    State(s.clock, s.ttl, s.file, f.procs[step.pid := s.process], s.log, s.base, s.starts)
  }

  predicate Runs(f: State, steps: seq<Step>)
    decreases |steps|
  {
    steps == [] || (Enabled(f, steps[0]) && Runs(Next(f, steps[0]), steps[1..]))
  }

  function After(f: State, steps: seq<Step>): State
    requires Runs(f, steps)
    decreases |steps|
  {
    if steps == [] then f else After(Next(f, steps[0]), steps[1..])
  }

  predicate IsUp(f: State, pid: nat) {
    pid in f.procs && f.procs[pid].Up?
  }

  // ------------------------------------------------------------------------------------------
  // One process at a time

  /** At most one process has the file open. */
  ghost predicate Alone(f: State) {
    forall p, q :: IsUp(f, p) && IsUp(f, q) ==> p == q
  }

  ghost predicate OneAtATime(f: State, steps: seq<Step>)
    requires Runs(f, steps)
    decreases |steps|
  {
    Alone(f) && (steps == [] || OneAtATime(Next(f, steps[0]), steps[1..]))
  }

  /** The process that is up, if one is. */
  ghost function Sole(f: State): I.Process {
    if p :| IsUp(f, p) then f.procs[p] else I.Down
  }

  lemma SoleIs(f: State, pid: nat)
    requires Alone(f) && IsUp(f, pid)
    ensures Sole(f) == f.procs[pid]
  {
  }

  lemma NoneUp(f: State)
    requires forall p :: !IsUp(f, p)
    ensures Sole(f) == I.Down
  {
  }

  lemma StepIsIntakeStep(f: State, step: Step)
    requires Enabled(f, step) && Alone(f) && Alone(Next(f, step))
    ensures I.Enabled(View(f, Sole(f)), step.event)
    ensures View(Next(f, step), Sole(Next(f, step))) == I.Next(View(f, Sole(f)), step.event)
  {
    var f' := Next(f, step);
    assert forall q :: q != step.pid ==> (IsUp(f', q) <==> IsUp(f, q));
    if IsUp(f, step.pid) {
      SoleIs(f, step.pid);
      StepOfSole(f, step);
    } else if q :| IsUp(f, q) {
      SoleIs(f, q);
      assert IsUp(f', q);
      SoleIs(f', q);
      assert !IsUp(f', step.pid);
    } else {
      NoneUp(f);
      StepOfSole(f, step);
    }
  }

  lemma StepOfSole(f: State, step: Step)
    requires Enabled(f, step) && Alone(Next(f, step))
    requires forall q :: IsUp(f, q) ==> q == step.pid
    ensures Sole(Next(f, step)) == I.Next(View(f, ProcessOf(f, step.pid)), step.event).process
  {
    var f' := Next(f, step);
    if IsUp(f', step.pid) {
      SoleIs(f', step.pid);
    } else {
      assert forall q :: q != step.pid ==> (IsUp(f', q) <==> IsUp(f, q));
      NoneUp(f');
    }
  }

  function Events(steps: seq<Step>): seq<I.Event> {
    seq(|steps|, i requires 0 <= i < |steps| => steps[i].event)
  }

  lemma {:induction false} RunIsIntakeRun(f: State, steps: seq<Step>)
    requires Runs(f, steps) && OneAtATime(f, steps)
    ensures I.Runs(View(f, Sole(f)), Events(steps))
    ensures View(After(f, steps), Sole(After(f, steps))) == I.After(View(f, Sole(f)), Events(steps))
    decreases |steps|
  {
    if steps != [] {
      var f' := Next(f, steps[0]);
      assert Events(steps)[0] == steps[0].event && Events(steps)[1..] == Events(steps[1..]);
      StepIsIntakeStep(f, steps[0]);
      RunIsIntakeRun(f', steps[1..]);
    }
  }

  /** Before the first process starts. */
  ghost predicate Initial(f: State) {
    (forall p :: !IsUp(f, p)) && I.Initial(View(f, I.Down))
  }

  /**
   * At most once per window, over every run in which at most one process at a time has the file
   * open: two different starts of one job stand under records a window apart.
   */
  lemma AtMostOncePerWindow(f0: State, steps: seq<Step>, p: nat, q: nat)
    requires Initial(f0) && Runs(f0, steps) && OneAtATime(f0, steps)
    requires p < |After(f0, steps).starts| && q < |After(f0, steps).starts| && p != q
    requires After(f0, steps).starts[p].record.job == After(f0, steps).starts[q].record.job
    ensures
      var (a, b) := (After(f0, steps).starts[p], After(f0, steps).starts[q]);
      || (b.record.at - a.record.at >= f0.ttl && b.at - a.at >= f0.ttl - (a.at - a.record.at))
      || (a.record.at - b.record.at >= f0.ttl && a.at - b.at >= f0.ttl - (b.at - b.record.at))
  {
    NoneUp(f0);
    RunIsIntakeRun(f0, steps);
    I.AtMostOncePerWindow(View(f0, I.Down), Events(steps), p, q);
  }

  // ------------------------------------------------------------------------------------------
  // Two processes

  function Steps(pid: nat, es: seq<I.Event>): seq<Step> {
    seq(|es|, i requires 0 <= i < |es| => Step(pid, es[i]))
  }

  /** Whatever one process can do by itself it can do in the fleet, and the others keep their memories. */
  lemma {:induction false} Lift(f: State, pid: nat, es: seq<I.Event>)
    requires I.Runs(View(f, ProcessOf(f, pid)), es)
    ensures Runs(f, Steps(pid, es))
    ensures
      var f' := After(f, Steps(pid, es));
      && View(f', ProcessOf(f', pid)) == I.After(View(f, ProcessOf(f, pid)), es)
      && forall q :: q != pid ==> ProcessOf(f', q) == ProcessOf(f, q)
    decreases |es|
  {
    if es != [] {
      var f1 := Next(f, Step(pid, es[0]));
      assert Steps(pid, es)[0] == Step(pid, es[0]) && Steps(pid, es)[1..] == Steps(pid, es[1..]);
      Lift(f1, pid, es[1..]);
    }
  }

  lemma {:induction false} Continue(f: State, steps: seq<Step>, more: seq<Step>)
    requires Runs(f, steps) && Runs(After(f, steps), more)
    ensures Runs(f, steps + more) && After(f, steps + more) == After(After(f, steps), more)
    decreases |steps|
  {
    if steps == [] {
      assert steps + more == more;
    } else {
      assert (steps + more)[1..] == steps[1..] + more;
      Continue(Next(f, steps[0]), steps[1..], more);
    }
  }

  predicate Ready(f: State, pid: nat, job: string) {
    IsUp(f, pid) && f.procs[pid].phase.Free? && !LiveIn(f.procs[pid].seen, job, f.ttl, f.clock)
  }

  /** One process records the job, starts it and is gone. */
  lemma StartAndExit(f: State, pid: nat, job: string) returns (steps: seq<Step>)
    requires Ready(f, pid, job)
    ensures Runs(f, steps)
    ensures
      var f' := After(f, steps);
      && !IsUp(f', pid) && f'.clock == f.clock && f'.ttl == f.ttl && f'.log == f.log + [Entry(job, f.clock)]
      && f'.starts == f.starts + [I.Start(|f.log|, Entry(job, f.clock), f.clock)]
      && forall q :: q != pid ==> ProcessOf(f', q) == ProcessOf(f, q)
  {
    var s := View(f, ProcessOf(f, pid));
    var es := I.StartAfter(s, job, 0, 0);
    var s1 := I.After(s, es);
    I.One(s1, I.Crash);
    I.AfterSplit(s, es, [I.Crash]);
    Lift(f, pid, es + [I.Crash]);
    steps := Steps(pid, es + [I.Crash]);
  }

  /**
   * Two open files are always enough to break the promise, whatever happened before: a job that
   * neither process holds live is started twice in the same second. The first process is gone
   * before the second one does anything, so it is enough that the second opened the file before
   * the first recorded the job.
   */
  lemma TwoProcessesStartTwice(f: State, p: nat, q: nat, job: string) returns (steps: seq<Step>)
    requires p != q && Ready(f, p, job) && Ready(f, q, job)
    ensures Runs(f, steps)
    ensures
      var n := |f.starts|;
      var starts := After(f, steps).starts;
      && |starts| == n + 2 && starts[..n] == f.starts
      && starts[n].record == starts[n + 1].record == Entry(job, f.clock)
      && starts[n].entry != starts[n + 1].entry
  {
    var first := StartAndExit(f, p, job);
    var f1 := After(f, first);
    assert ProcessOf(f1, q) == ProcessOf(f, q);
    var second := StartAndExit(f1, q, job);
    Continue(f, first, second);
    steps := first + second;
  }
}
