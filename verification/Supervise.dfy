/** The loop that restarts a worker which exits, and how it meets the update cycle. */
module SuperviseLoop {
  import opened Numbers
  import opened Text

  /** One pass of the loop, told by what ends its wait. */
  datatype Turn = NoChild | ShutDown | Restart(ok: bool)

  /** How many restarts in a row failed right before pass `i`. */
  function FailedRow(turns: seq<Turn>, i: nat): nat
    requires i <= |turns|
  {
    if i == 0 || turns[i - 1] != Restart(false) then 0 else 1 + FailedRow(turns, i - 1)
  }

  /** The passes that come to a restart, before the loop ends. */
  function Passes(turns: seq<Turn>): (n: nat)
    ensures n <= |turns|
  {
    if turns == [] || !turns[0].Restart? then 0 else 1 + Passes(turns[1..])
  }

  lemma {:induction false} PassesAt(turns: seq<Turn>, n: nat)
    requires n <= |turns| && forall i :: 0 <= i < n ==> turns[i].Restart?
    requires n < |turns| ==> !turns[n].Restart?
    ensures Passes(turns) == n
  {
    if n > 0 {
      PassesAt(turns[1..], n - 1);
    }
  }

  /**
   * Sleeps before every restart: after `k` failures in a row for 2^min(k, 5) seconds, so for one
   * second after a success and never for more than 32, although the doubling tests against 30.
   */
  method Supervise(turns: seq<Turn>) returns (sleeps: seq<int>)
    ensures |sleeps| == Passes(turns)
    ensures forall i :: 0 <= i < |sleeps| ==> sleeps[i] == Pow2(Min(FailedRow(turns, i), 5)) <= 32
  {
    sleeps := [];
    var backoff := 1;
    var i := 0;
    FirstTurn(turns);
    while i < |turns|
      invariant |sleeps| == i <= |turns|
      invariant forall j :: 0 <= j < i ==> turns[j].Restart?
      invariant forall j :: 0 <= j < i ==> sleeps[j] == Pow2(Min(FailedRow(turns, j), 5)) <= 32
      invariant backoff == Pow2(Min(FailedRow(turns, i), 5)) <= 32
    {
      if turns[i].NoChild? || turns[i].ShutDown? {
        PassesAt(turns, i);
        return;
      }
      NextTurn(turns, i);
      sleeps := sleeps + [backoff];
      if backoff < 30 {
        backoff := backoff * 2;
      }
      if turns[i].ok {
        backoff := 1;
      }
      i := i + 1;
    }
    PassesAt(turns, i);
  }

  lemma FirstTurn(turns: seq<Turn>)
    ensures Pow2(Min(FailedRow(turns, 0), 5)) == 1
  {
  }

  /** What one pass makes of the backoff. */
  lemma NextTurn(turns: seq<Turn>, i: nat)
    requires i < |turns| && turns[i].Restart?
    ensures
      var b := Pow2(Min(FailedRow(turns, i), 5));
      Pow2(Min(FailedRow(turns, i + 1), 5)) == (if turns[i].ok then 1 else if b < 30 then 2 * b else b) <= 32
  {
    NextBackoff(FailedRow(turns, i));
  }

  lemma NextBackoff(k: nat)
    ensures var b := Pow2(Min(k, 5)); b <= 32 && Pow2(Min(k + 1, 5)) == if b < 30 then 2 * b else b
    ensures Pow2(Min(0, 5)) == 1
  {
    SmallPowers();
  }

  // ------------------------------------------------------------------------------------------
  // The loop and the update cycle side by side

  datatype LoopPc = Top | Watching(pid: nat) | Sleeping | Ended

  datatype UpdatePc = Resting | Stopping(pid: nat) | Stopped

  /**
   * `child` is the shared field; `born` numbers the processes launched so far; `port` is the
   * worker that holds the health address, which every worker needs before it connects.
   */
  datatype State = State(
    alive: set<nat>, child: Option<nat>, loop: LoopPc, update: UpdatePc, born: nat, port: Option<nat>)

  datatype Event =
    | LookAtChild
    | Exit(pid: nat)      // a worker process ends, for whatever reason
    | Bind(pid: nat)      // gets the health address and goes on to serve
    | BindFails(pid: nat) // finds it taken and exits
    | Yield(pid: nat)     // a signalled worker gives it back while its jobs drain
    | WaitReturns
    | LoopLaunch
    | LoopLaunchFails
    | UpdateStops         // takes the child out of the shared field and signals it
    | UpdateFindsNone     // there is no child to stop
    | UpdateSawExit       // the stopped worker is gone, killed if need be
    | UpdateLaunch
    | UpdateLaunchFails

  predicate Enabled(s: State, e: Event) {
    match e
    case LookAtChild => s.loop.Top?
    case Exit(pid) => pid in s.alive
    case Bind(pid) => pid in s.alive && s.port.None?
    case BindFails(pid) => pid in s.alive && s.port.Some? && s.port.value != pid
    case Yield(pid) => s.update == Stopping(pid) && s.port == Some(pid)
    case WaitReturns => s.loop.Watching? && s.loop.pid !in s.alive
    case LoopLaunch => s.loop.Sleeping?
    case LoopLaunchFails => s.loop.Sleeping?
    case UpdateStops => s.update.Resting? && s.child.Some?
    case UpdateFindsNone => s.update.Resting? && s.child.None?
    case UpdateSawExit => s.update.Stopping?
    case UpdateLaunch => s.update.Stopped?
    case UpdateLaunchFails => s.update.Stopped?
  }

  function Launch(s: State): State {
    s.(alive := s.alive + {s.born}, child := Some(s.born), born := s.born + 1)
  }

  function Gone(s: State, pid: nat): State {
    s.(alive := s.alive - {pid}, port := if s.port == Some(pid) then None else s.port)
  }

  function Next(s: State, e: Event): State
    requires Enabled(s, e)
  {
    match e
    case LookAtChild => s.(loop := if s.child.Some? then Watching(s.child.value) else Ended)
    case Exit(pid) => Gone(s, pid)
    case Bind(pid) => s.(port := Some(pid))
    case BindFails(pid) => Gone(s, pid)
    case Yield(pid) => s.(port := None)
    case WaitReturns => s.(loop := Sleeping)
    case LoopLaunch => Launch(s).(loop := Top)
    case LoopLaunchFails => s.(loop := Top)
    case UpdateStops => s.(child := None, update := Stopping(s.child.value))
    case UpdateFindsNone => s.(update := Stopped)
    case UpdateSawExit => Gone(s, s.update.pid).(update := Stopped)
    case UpdateLaunch => Launch(s).(update := Resting)
    case UpdateLaunchFails => s.(update := Resting)
  }

  predicate Runs(s: State, es: seq<Event>)
    decreases |es|
  {
    es == [] || (Enabled(s, es[0]) && Runs(Next(s, es[0]), es[1..]))
  }

  function After(s: State, es: seq<Event>): State
    requires Runs(s, es)
    decreases |es|
  {
    if es == [] then s else After(Next(s, es[0]), es[1..])
  }

  /** The supervisor has launched its first worker and found it ready. */
  const STARTED := State({0}, Some(0), Top, Resting, 1, Some(0))

  ghost predicate Alone(s: State) {
    && s.update.Resting? && s.child.Some? && s.child.value < s.born
    && s.alive <= {s.child.value}
    && (s.port.Some? ==> s.port.value in s.alive)
    && (s.loop.Sleeping? ==> s.alive == {})
    && (s.loop.Watching? ==> s.loop.pid == s.child.value)
  }

  lemma {:induction false} LoopKeepsAlone(s: State, es: seq<Event>)
    requires Alone(s) && Runs(s, es) && UpdateStops !in es
    ensures Alone(After(s, es))
    decreases |es|
  {
    if es != [] {
      assert es[0] != UpdateStops;
      assert Alone(Next(s, es[0]));
      LoopKeepsAlone(Next(s, es[0]), es[1..]);
    }
  }

  /** As long as no update stops the worker, the loop never has two workers alive and never ends. */
  lemma OneWorkerWithoutUpdates(es: seq<Event>)
    requires Runs(STARTED, es) && UpdateStops !in es
    ensures |After(STARTED, es).alive| <= 1 && !After(STARTED, es).loop.Ended?
  {
    LoopKeepsAlone(STARTED, es);
    var s := After(STARTED, es);
    NeverEnds(STARTED, es);
    assert s.alive == {} || s.alive == {s.child.value};
  }

  lemma {:induction false} NeverEnds(s: State, es: seq<Event>)
    requires Alone(s) && !s.loop.Ended? && Runs(s, es) && UpdateStops !in es
    ensures !After(s, es).loop.Ended?
    decreases |es|
  {
    if es != [] {
      assert es[0] != UpdateStops;
      assert Alone(Next(s, es[0]));
      NeverEnds(Next(s, es[0]), es[1..]);
    }
  }

  lemma Step(s: State, e: Event, es: seq<Event>)
    requires Enabled(s, e) && Runs(Next(s, e), es)
    ensures Runs(s, [e] + es) && After(s, [e] + es) == After(Next(s, e), es)
  {
    assert ([e] + es)[1..] == es;
  }

  lemma {:induction false} Continue(s: State, es: seq<Event>, fs: seq<Event>)
    requires Runs(s, es) && Runs(After(s, es), fs)
    ensures Runs(s, es + fs) && After(s, es + fs) == After(After(s, es), fs)
    decreases |es|
  {
    if es == [] {
      assert es + fs == fs;
    } else {
      Continue(Next(s, es[0]), es[1..], fs);
      Step(s, es[0], es[1..] + fs);
      assert es + fs == [es[0]] + (es[1..] + fs);
    }
  }

  /** The loop has come back from the wait for the worker that the update stopped. */
  function BothAboutToLaunch(born: nat): State {
    State({}, None, Sleeping, Stopped, born, None)
  }

  lemma StopMeetsLoop(s: State) returns (es: seq<Event>)
    requires Alone(s) && !s.loop.Ended?
    ensures Runs(s, es) && After(s, es) == BothAboutToLaunch(s.born)
  {
    var s1 := if s.loop.Top? then Next(s, LookAtChild) else s;
    var s2 := Next(s1, UpdateStops);
    var s3 := Next(s2, UpdateSawExit);
    es := [];
    if s3.loop.Watching? {
      Step(s3, WaitReturns, es);
      es := [WaitReturns] + es;
    }
    Step(s2, UpdateSawExit, es);
    es := [UpdateSawExit] + es;
    Step(s1, UpdateStops, es);
    es := [UpdateStops] + es;
    if s.loop.Top? {
      Step(s, LookAtChild, es);
      es := [LookAtChild] + es;
    }
  }

  lemma SuccessorsDiffer(n: nat)
    ensures |{n, n + 1}| == 2
  {
    assert {n, n + 1} - {n} == {n + 1};
  }

  /** Worker `w` serves, but the supervisor has lost sight of it: it watches and stops another process, or none. */
  ghost predicate Orphaned(s: State, w: nat) {
    && w in s.alive && w < s.born && s.port == Some(w)
    && s.child != Some(w) && s.update != Stopping(w)
  }

  /**
   * Without updates there is never a second worker, and one update is always enough to get one:
   * whatever the loop has done so far, both it and the update can restart the worker that the
   * update stopped, and the one the supervisor does not keep can be the one that gets the health
   * address.
   */
  lemma UpdateCanLeaveTwoWorkers(es: seq<Event>) returns (fs: seq<Event>, w: nat)
    requires Runs(STARTED, es) && UpdateStops !in es
    ensures Runs(STARTED, es + fs)
    ensures
      var s := After(STARTED, es + fs);
      |s.alive| == 2 && Orphaned(s, w) && s.child.Some? && s.loop.Top? && s.update.Resting?
  {
    LoopKeepsAlone(STARTED, es);
    NeverEnds(STARTED, es);
    var s := After(STARTED, es);
    var head := StopMeetsLoop(s);
    w := s.born;
    var tail := BothLaunch(w);
    SuccessorsDiffer(w);
    Continue(s, head, tail);
    Continue(STARTED, es, head + tail);
    fs := head + tail;
  }

  lemma BothLaunch(born: nat) returns (es: seq<Event>)
    ensures Runs(BothAboutToLaunch(born), es)
    ensures After(BothAboutToLaunch(born), es) ==
      State({born, born + 1}, Some(born + 1), Top, Resting, born + 2, Some(born))
  {
    var t := BothAboutToLaunch(born);
    var t1 := Next(t, LoopLaunch);
    var t2 := Next(t1, UpdateLaunch);
    assert t2.alive == {born, born + 1};
    Step(t2, Bind(born), []);
    Step(t1, UpdateLaunch, [Bind(born)] + []);
    es := [LoopLaunch] + ([UpdateLaunch] + ([Bind(born)] + []));
    Step(t, LoopLaunch, [UpdateLaunch] + ([Bind(born)] + []));
  }

  /**
   * It does not heal: as long as the orphan runs, through any number of restarts and updates, it
   * keeps the health address, so no worker launched in the meantime ever gets to serve, and the
   * supervisor never stops the orphan.
   */
  lemma {:induction false} OrphanStays(s: State, w: nat, es: seq<Event>)
    requires Orphaned(s, w) && Runs(s, es) && Exit(w) !in es
    ensures Orphaned(After(s, es), w) && forall pid :: !Enabled(After(s, es), Bind(pid))
    decreases |es|
  {
    if es != [] {
      assert es[0] != Exit(w);
      OrphanStays(Next(s, es[0]), w, es[1..]);
    }
  }

  /** Only the end of the orphan heals it: the address is free again, for any other live worker to take. */
  lemma OrphanExitFreesPort(s: State, w: nat)
    requires Orphaned(s, w)
    ensures Enabled(s, Exit(w))
    ensures
      var s' := Next(s, Exit(w));
      s'.alive == s.alive - {w} && s'.port == None && s'.child == s.child && s'.loop == s.loop && s'.update == s.update
    ensures forall pid :: pid in s.alive && pid != w ==> Enabled(Next(s, Exit(w)), Bind(pid))
  {
  }

  /** A worker that was signalled gives the address back while its jobs drain, so that the next one can take it before it is gone. */
  lemma SignalledWorkerYields(s: State, pid: nat, next: nat)
    requires s.update == Stopping(pid) && s.port == Some(pid) && pid in s.alive && next in s.alive
    ensures Enabled(s, Yield(pid)) && Next(s, Yield(pid)).alive == s.alive
    ensures Enabled(Next(s, Yield(pid)), Bind(next)) && Next(Next(s, Yield(pid)), Bind(next)).port == Some(next)
  {
  }

  /** An update that finds no worker to stop launches one all the same; a launch that fails launches none. */
  lemma UpdateWithoutChild(s: State)
    requires s.update.Resting? && s.child.None?
    ensures Enabled(s, UpdateFindsNone) && Next(s, UpdateFindsNone).alive == s.alive
    ensures
      var s1 := Next(s, UpdateFindsNone);
      && Enabled(s1, UpdateLaunch) && Enabled(s1, UpdateLaunchFails)
      && Next(s1, UpdateLaunch).child == Some(s.born) && s.born in Next(s1, UpdateLaunch).alive
      && Next(s1, UpdateLaunchFails) == s
  {
  }

  /** The loop brings a worker back: after any run without updates, the worker's end is followed by a new one that serves. */
  lemma LoopRecovers(es: seq<Event>) returns (fs: seq<Event>)
    requires Runs(STARTED, es) && UpdateStops !in es && After(STARTED, es).loop.Top?
    requires After(STARTED, es).alive != {}
    ensures Runs(STARTED, es + fs)
    ensures
      var (s, s') := (After(STARTED, es), After(STARTED, es + fs));
      s'.child == Some(s.born) && s'.alive == {s.born} && s'.port == Some(s.born) && s'.loop.Top?
  {
    LoopKeepsAlone(STARTED, es);
    var s := After(STARTED, es);
    var c := s.child.value;
    assert s.alive == {c};
    var s1 := Next(s, LookAtChild);
    var s2 := Next(s1, Exit(c));
    var s3 := Next(s2, WaitReturns);
    var s4 := Next(s3, LoopLaunch);
    assert s2.alive == {} && s4.alive == {s.born};
    Step(s4, Bind(s.born), []);
    Step(s3, LoopLaunch, [Bind(s.born)] + []);
    Step(s2, WaitReturns, [LoopLaunch] + ([Bind(s.born)] + []));
    Step(s1, Exit(c), [WaitReturns] + ([LoopLaunch] + ([Bind(s.born)] + [])));
    fs := [LookAtChild] + ([Exit(c)] + ([WaitReturns] + ([LoopLaunch] + ([Bind(s.born)] + []))));
    Step(s, LookAtChild, [Exit(c)] + ([WaitReturns] + ([LoopLaunch] + ([Bind(s.born)] + []))));
    Continue(STARTED, es, fs);
  }

  /** Meanwhile the loop can launch worker after worker, each of which finds the address taken and exits. */
  lemma {:induction false} RestartsGoOn(s: State, w: nat, n: nat) returns (es: seq<Event>)
    requires Orphaned(s, w) && s.loop.Top? && s.child.Some?
    ensures Runs(s, es) && Exit(w) !in es
    ensures var s' := After(s, es); s'.born == s.born + n && s'.loop.Top? && Orphaned(s', w)
    decreases n
  {
    es := [];
    if n > 0 {
      var once := OneRestart(s, w);
      var more := RestartsGoOn(After(s, once), w, n - 1);
      Continue(s, once, more);
      es := once + more;
    }
  }

  lemma OneRestart(s: State, w: nat) returns (es: seq<Event>)
    requires Orphaned(s, w) && s.loop.Top? && s.child.Some?
    ensures Runs(s, es) && Exit(w) !in es
    ensures var s' := After(s, es); s'.born == s.born + 1 && s'.loop.Top? && s'.child.Some? && Orphaned(s', w)
  {
    var c := s.child.value;
    var s1 := if c in s.alive then Next(s, BindFails(c)) else s;
    var s2 := Next(s1, LookAtChild);
    var s3 := Next(s2, WaitReturns);
    es := [LookAtChild] + ([WaitReturns] + ([LoopLaunch] + []));
    Step(s3, LoopLaunch, []);
    Step(s2, WaitReturns, [LoopLaunch] + []);
    Step(s1, LookAtChild, [WaitReturns] + ([LoopLaunch] + []));
    if c in s.alive {
      Step(s, BindFails(c), es);
      es := [BindFails(c)] + es;
    }
  }

  /** It is also always enough to end the loop for good, with the worker the update launches unwatched. */
  lemma UpdateCanEndSupervision(es: seq<Event>) returns (fs: seq<Event>)
    requires Runs(STARTED, es) && UpdateStops !in es
    ensures Runs(STARTED, es + fs)
    ensures var s := After(STARTED, es + fs); s.loop.Ended? && |s.alive| == 1 && s.update.Resting?
  {
    LoopKeepsAlone(STARTED, es);
    NeverEnds(STARTED, es);
    var s := After(STARTED, es);
    var head := StopMeetsLoop(s);
    var t := BothAboutToLaunch(s.born);
    var t1 := Next(t, LoopLaunchFails);
    var t2 := Next(t1, LookAtChild);
    assert Next(t2, UpdateLaunch).alive == {s.born};
    Step(t2, UpdateLaunch, []);
    Step(t1, LookAtChild, [UpdateLaunch] + []);
    Step(t, LoopLaunchFails, [LookAtChild] + ([UpdateLaunch] + []));
    var tail := [LoopLaunchFails] + ([LookAtChild] + ([UpdateLaunch] + []));
    Continue(s, head, tail);
    Continue(STARTED, es, head + tail);
    fs := head + tail;
  }
}
