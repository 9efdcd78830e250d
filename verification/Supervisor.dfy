/** The supervisor's update cycle as it is programmed: one call is one run of the small-step system. */
module Supervisor {
  import opened Text
  import opened Swap
  import opened UpdateCycle

  /** How everything outside the supervisor behaves during one `checkAndApply`. */
  datatype Environment = Environment(
    manifest: Option<Manifest>,  // fetched and its signature verified
    answers: bool,               // the worker prints its version in time
    temp: nat, created: bool, received: bool, data: Bytes, finished: bool,
    selfcheck: bool,
    statWorks: bool, saveWorks: bool, installWorks: bool, restoreWorks: bool,
    starts: bool, ready: bool, stillReady: bool,
    rollbackWorks: bool, startsAgain: bool, readyAgain: bool,
    removed: bool)

  /** The cycle gets as far as stopping the worker to swap the binary. */
  predicate ReachesSwap(w: World, fs: Files, env: Environment) {
    && env.manifest.Some?
    && Version.ShouldUpdate(w.Current(fs, env.answers), w.pinned, env.manifest.value.version)
    && env.created && env.received && w.Accepts(env.manifest.value, env.data) && env.finished
    && env.selfcheck
  }

  predicate SeesPrevious(fs: Files, env: Environment) {
    env.statWorks && Dest in fs
  }

  predicate Promotes(fs: Files, env: Environment) {
    (SeesPrevious(fs, env) ==> env.saveWorks) && env.installWorks
  }

  /** The new worker passes both readiness checks. */
  predicate Healthy(env: Environment) {
    env.starts && env.ready && env.stillReady
  }

  function Content(fs: Files, slot: Slot): Option<Bytes> {
    if slot in fs then Some(fs[slot]) else None
  }

  // ------------------------------------------------------------------------------------------
  // The files a cycle leaves behind

  predicate Stages(w: World, m: Manifest, env: Environment) {
    env.created && env.received && w.Accepts(m, env.data) && env.finished
  }

  function AfterCleanUp(fs: Files, env: Environment): Files {
    if env.removed then fs - {Temp(env.temp)} else fs
  }

  function AfterStage(w: World, m: Manifest, fs: Files, env: Environment): Files {
    if !env.created then fs
    else if Stages(w, m, env) then fs[Temp(env.temp) := env.data]
    else AfterCleanUp(fs[Temp(env.temp) := env.data], env)
  }

  function AfterPromote(fs: Files, env: Environment): Files
    requires Temp(env.temp) in fs
  {
    if SeesPrevious(fs, env) && !env.saveWorks then fs
    else
      var aside := if SeesPrevious(fs, env) then Renamed(fs, Dest, Prev) else fs;
      if env.installWorks then Renamed(aside, Temp(env.temp), Dest)
      else if env.restoreWorks && Prev in aside then Renamed(aside, Prev, Dest)
      else aside
  }

  function AfterRollback(fs: Files, env: Environment): Files {
    if env.rollbackWorks && Prev in fs then Renamed(fs, Prev, Dest) else fs
  }

  function AfterSwap(fs: Files, env: Environment): Files
    requires Temp(env.temp) in fs
  {
    if Promotes(fs, env) && !Healthy(env) then AfterRollback(AfterPromote(fs, env), env) else AfterPromote(fs, env)
  }

  function AfterCycle(w: World, fs: Files, env: Environment): Files {
    if env.manifest.None? || !Version.ShouldUpdate(w.Current(fs, env.answers), w.pinned, env.manifest.value.version) then fs
    else
      var m := env.manifest.value;
      var staged := AfterStage(w, m, fs, env);
      if !Stages(w, m, env) then staged
      else if !env.selfcheck then AfterCleanUp(staged, env)
      else AfterCleanUp(AfterSwap(staged, env), env)
  }

  /** The cycle ends with the new binary promoted and ready. */
  predicate Applied(w: World, fs: Files, env: Environment) {
    ReachesSwap(w, fs, env) && Promotes(fs, env) && Healthy(env)
  }

  /** The binary of the running worker after a cycle. */
  function ChildAfter(w: World, fs: Files, child: Option<Bytes>, env: Environment): Option<Bytes> {
    if !ReachesSwap(w, fs, env) then child
    else if Applied(w, fs, env) then Some(env.data)
    else if env.startsAgain then Content(AfterCycle(w, fs, env), Dest)
    else None
  }

  // ------------------------------------------------------------------------------------------
  // The program

  class Updater {
    const w: World
    const fs: FileSystem
    /** The binary of the running worker, while there is one. */
    var child: Option<Bytes>

    constructor (w: World, fs: FileSystem, child: Option<Bytes>)
      ensures this.w == w && this.fs == fs && this.child == child
    {
      this.w, this.fs, this.child := w, fs, child;
    }

    method StopChild()
      modifies this
      ensures child == None
    {
      child := None;
    }

    /** Launches what is in place; the error covers a failed launch and a worker that is not ready. */
    method StartChild(starts: bool, ready: bool) returns (ok: bool)
      modifies this
      ensures child == if starts && Dest in fs.files then Some(fs.files[Dest]) else old(child)
      ensures ok <==> starts && Dest in fs.files && ready
    {
      if !starts || Dest !in fs.files {
        return false;
      }
      child := Some(fs.files[Dest]);
      return ready;
    }

    /** Downloads into a fresh temporary file; a failure removes it again. */
    method StageWorker(m: Manifest, env: Environment) returns (ok: bool)
      modifies fs
      ensures ok <==> Stages(w, m, env)
      ensures fs.files == AfterStage(w, m, old(fs.files), env)
    {
      if !env.created {
        return false;
      }
      fs.Write(Temp(env.temp), []);
      fs.Write(Temp(env.temp), env.data);
      if !env.received || !w.Accepts(m, env.data) || !env.finished {
        fs.Remove(Temp(env.temp), env.removed);
        return false;
      }
      return true;
    }

    /** Moves the binary aside when there is one, installs the staged one, or tries to undo the first rename. */
    method Promote(env: Environment) returns (ok: bool)
      requires Temp(env.temp) in fs.files
      modifies fs
      ensures ok <==> Promotes(old(fs.files), env)
      ensures fs.files == AfterPromote(old(fs.files), env)
    {
      if env.statWorks && Dest in fs.files {
        var saved := fs.Rename(Dest, Prev, env.saveWorks);
        if !saved {
          return false;
        }
      }
      var installed := fs.Rename(Temp(env.temp), Dest, env.installWorks);
      if !installed {
        var _ := fs.Rename(Prev, Dest, env.restoreWorks);
        return false;
      }
      return true;
    }

    method Rollback(env: Environment) returns (ok: bool)
      modifies fs
      ensures ok <==> env.rollbackWorks && Prev in old(fs.files)
      ensures fs.files == AfterRollback(old(fs.files), env)
    {
      if Prev !in fs.files {
        return false;
      }
      ok := fs.Rename(Prev, Dest, env.rollbackWorks);
    }

    /**
     * One update cycle. It reports success exactly when the new binary was promoted and passed
     * both readiness checks, and then the worker runs the new binary. After a swap that was not
     * applied a worker runs exactly if it can be started and there is a binary to start, and it
     * runs the binary that is in place then. A cycle that does not come to the swap leaves the
     * worker alone.
     */
    method CheckAndApply(env: Environment) returns (applied: bool)
      requires Temp(env.temp) !in fs.files
      modifies fs, this
      ensures fs.files == AfterCycle(w, old(fs.files), env)
      ensures applied <==> Applied(w, old(fs.files), env)
      ensures applied ==> child == Some(env.data) == Content(fs.files, Dest)
      ensures !applied && ReachesSwap(w, old(fs.files), env) ==>
        && (child.Some? <==> env.startsAgain && Dest in fs.files)
        && (child.Some? ==> child.value == fs.files[Dest])
      ensures !ReachesSwap(w, old(fs.files), env) ==> child == old(child)
      ensures child == ChildAfter(w, old(fs.files), old(child), env)
    {
      applied := false;
      if env.manifest.None? {
        return;
      }
      var m := env.manifest.value;
      if !Version.ShouldUpdate(w.Current(fs.files, env.answers), w.pinned, m.version) {
        return;
      }
      var staged := StageWorker(m, env);
      if !staged {
        return;
      }
      if !env.selfcheck {
        fs.Remove(Temp(env.temp), env.removed);
        return;
      }
      applied := SwapIn(env);
      fs.Remove(Temp(env.temp), env.removed);
    }

    /** One cycle at startup and one at every tick. */
    method UpdateLoop(envs: seq<Environment>)
      requires FreshTemps(w, fs.files, envs)
      modifies fs, this
      ensures fs.files == AfterCycles(w, old(fs.files), envs)
      ensures child == ChildAfterCycles(w, old(fs.files), old(child), envs)
    {
      for i := 0 to |envs|
        invariant FreshTemps(w, fs.files, envs[i..])
        invariant AfterCycles(w, fs.files, envs[i..]) == AfterCycles(w, old(fs.files), envs)
        invariant ChildAfterCycles(w, fs.files, child, envs[i..]) == ChildAfterCycles(w, old(fs.files), old(child), envs)
      {
        assert envs[i..][0] == envs[i] && envs[i..][1..] == envs[i + 1..];
        var _ := CheckAndApply(envs[i]);
      }
    }

    /** Stop, promote, start, check; restart the old worker or roll back when a step fails. */
    method SwapIn(env: Environment) returns (applied: bool)
      requires Temp(env.temp) in fs.files
      modifies fs, this
      ensures fs.files == AfterSwap(old(fs.files), env)
      ensures applied <==> Promotes(old(fs.files), env) && Healthy(env)
      ensures applied ==> child == Some(old(fs.files)[Temp(env.temp)]) == Content(fs.files, Dest)
      ensures !applied ==> child == if env.startsAgain then Content(fs.files, Dest) else None
    {
      StopChild();
      var promoted := Promote(env);
      if !promoted {
        var _ := StartChild(env.startsAgain, env.readyAgain);
        return false;
      }
      var ok := StartChild(env.starts, env.ready);
      if !ok || !env.stillReady {
        StopChild();
        var _ := Rollback(env);
        var _ := StartChild(env.startsAgain, env.readyAgain);
        return false;
      }
      return true;
    }
  }

  // ------------------------------------------------------------------------------------------
  // The program's files are those of a run of the small-step system

  /**
   * What makes a cycle an honest one: no pin, a worker that answers, a true stat, a restore that
   * works if it is needed, and a download that is what its manifest says. A rollback may fail.
   */
  predicate HonestCycle(w: World, env: Environment) {
    && w.pinned == "" && env.answers && env.statWorks && env.restoreWorks
    && (env.manifest.Some? ==>
          && Version.SemverOf(env.manifest.value.version).Some?
          && (w.Accepts(env.manifest.value, env.data) ==> w.VersionOf(env.data) == env.manifest.value.version))
  }

  /** One more step of a run that is honest if `honest` says so. */
  lemma Take(w: World, s0: State, es: seq<Event>, s: State, e: Event, honest: bool)
    requires Runs(w, s0, es) && After(w, s0, es) == s && Enabled(w, s, e)
    requires honest ==> HonestRun(w, s0, es) && Honest(w, s, e)
    ensures Runs(w, s0, es + [e]) && After(w, s0, es + [e]) == Next(w, s, e)
    ensures honest ==> HonestRun(w, s0, es + [e])
  {
    Extend(w, s0, es, e);
    assert (es + [e])[..|es + [e]| - 1] == es;
  }

  /** A step that no honesty condition speaks of, except that there is no pin. */
  predicate Plain(e: Event) {
    !e.Begin? && !e.AcceptDownload? && !e.FindNoPrevious? && !e.FailRestore? && !e.Crash?
  }

  lemma TakePlain(w: World, s0: State, es: seq<Event>, s: State, e: Event, honest: bool)
    requires Runs(w, s0, es) && After(w, s0, es) == s && Possible(w, s, e) && Plain(e)
    requires honest ==> HonestRun(w, s0, es) && w.pinned == ""
    ensures Runs(w, s0, es + [e]) && After(w, s0, es + [e]) == Next(w, s, e)
    ensures honest ==> HonestRun(w, s0, es + [e])
  {
    Take(w, s0, es, s, e, honest);
  }

  predicate Due(w: World, fs: Files, env: Environment) {
    env.manifest.Some? && Version.ShouldUpdate(w.Current(fs, env.answers), w.pinned, env.manifest.value.version)
  }

  /** `es` goes on from `es0`, honestly if the cycle is honest. */
  predicate GoesOn(w: World, s0: State, es: seq<Event>, honest: bool) {
    Runs(w, s0, es) && (honest ==> HonestRun(w, s0, es))
  }

  lemma BeginRuns(w: World, s0: State, es0: seq<Event>, s: State, env: Environment, honest: bool) returns (es: seq<Event>)
    requires GoesOn(w, s0, es0, honest) && After(w, s0, es0) == s && s.pc.Idle? && Temp(env.temp) !in s.files
    requires Due(w, s.files, env) && (honest ==> HonestCycle(w, env))
    ensures GoesOn(w, s0, es, honest)
    ensures After(w, s0, es) ==
      State(s.files[Temp(env.temp) := []], Staging(env.temp, env.manifest.value), s.offered + {env.manifest.value}, s.vetted)
  {
    var begin := Begin(env.manifest.value, env.temp, env.answers);
    Take(w, s0, es0, s, begin, honest);
    es := es0 + [begin];
  }

  lemma DownloadRuns(w: World, s0: State, es0: seq<Event>, s: State, m: Manifest, env: Environment, honest: bool)
    returns (es: seq<Event>)
    requires GoesOn(w, s0, es0, honest) && After(w, s0, es0) == s && s.pc == Staging(env.temp, m)
    requires env.created && (honest ==> w.pinned == "" && (w.Accepts(m, env.data) ==> w.VersionOf(env.data) == m.version))
    ensures GoesOn(w, s0, es, honest)
    ensures
      var got := s.files[Temp(env.temp) := env.data];
      After(w, s0, es) ==
        if Stages(w, m, env) then s.(files := got, pc := Staged(env.temp, m))
        else s.(files := AfterCleanUp(got, env), pc := Idle)
  {
    var s1 := s.(files := s.files[Temp(env.temp) := env.data]);
    TakePlain(w, s0, es0, s, Receive(env.data), honest);
    es := es0 + [Receive(env.data)];
    var last := if Stages(w, m, env) then AcceptDownload else AbandonDownload(env.removed);
    Take(w, s0, es, s1, last, honest);
    es := es + [last];
  }

  lemma SwapRuns(w: World, s0: State, es0: seq<Event>, s: State, env: Environment, honest: bool) returns (es: seq<Event>)
    requires GoesOn(w, s0, es0, honest) && After(w, s0, es0) == s
    requires s.pc == Checked(env.temp) && Temp(env.temp) in s.files
    requires honest ==> w.pinned == "" && env.statWorks && env.restoreWorks && Dest in s.files
    ensures GoesOn(w, s0, es, honest)
    ensures After(w, s0, es) == s.(files := AfterSwap(s.files, env), pc := Cleaning(env.temp))
  {
    if SeesPrevious(s.files, env) && !env.saveWorks {
      TakePlain(w, s0, es0, s, FailSave, honest);
      es := es0 + [FailSave];
    } else {
      var first := if SeesPrevious(s.files, env) then SavePrevious else FindNoPrevious;
      Take(w, s0, es0, s, first, honest);
      var aside := if SeesPrevious(s.files, env) then Renamed(s.files, Dest, Prev) else s.files;
      var s1 := s.(files := aside, pc := Saved(env.temp));
      assert Next(w, s, first) == s1;
      es := InstallRuns(w, s0, es0 + [first], s1, env, honest);
    }
  }

  lemma InstallRuns(w: World, s0: State, es0: seq<Event>, s: State, env: Environment, honest: bool) returns (es: seq<Event>)
    requires GoesOn(w, s0, es0, honest) && After(w, s0, es0) == s
    requires s.pc == Saved(env.temp) && Temp(env.temp) in s.files
    requires honest ==> w.pinned == "" && env.restoreWorks && Prev in s.files
    ensures GoesOn(w, s0, es, honest)
    ensures
      After(w, s0, es).pc == Cleaning(env.temp) && After(w, s0, es) ==
        s.(pc := Cleaning(env.temp), files :=
          if env.installWorks then
            var fs := Renamed(s.files, Temp(env.temp), Dest);
            if Healthy(env) then fs else AfterRollback(fs, env)
          else if env.restoreWorks && Prev in s.files then Renamed(s.files, Prev, Dest)
          else s.files)
  {
    if env.installWorks {
      TakePlain(w, s0, es0, s, Install, honest);
      var s1 := s.(files := Renamed(s.files, Temp(env.temp), Dest), pc := Installed(env.temp));
      es := CheckRuns(w, s0, es0 + [Install], s1, env, honest);
    } else {
      TakePlain(w, s0, es0, s, FailInstall, honest);
      es := es0 + [FailInstall];
      var s1 := s.(pc := Restoring(env.temp));
      var last := if env.restoreWorks && Prev in s.files then Restore else FailRestore;
      Take(w, s0, es, s1, last, honest);
      es := es + [last];
    }
  }

  lemma CheckRuns(w: World, s0: State, es0: seq<Event>, s: State, env: Environment, honest: bool) returns (es: seq<Event>)
    requires GoesOn(w, s0, es0, honest) && After(w, s0, es0) == s && s.pc == Installed(env.temp)
    requires honest ==> w.pinned == ""
    ensures GoesOn(w, s0, es, honest)
    ensures After(w, s0, es) ==
      s.(files := if Healthy(env) then s.files else AfterRollback(s.files, env), pc := Cleaning(env.temp))
  {
    if Healthy(env) {
      TakePlain(w, s0, es0, s, BecomeReady, honest);
      es := es0 + [BecomeReady];
    } else {
      TakePlain(w, s0, es0, s, StayUnready, honest);
      es := es0 + [StayUnready];
      var s1 := s.(pc := Unhealthy(env.temp));
      var back := if env.rollbackWorks && Prev in s.files then RollBack else FailRollBack;
      TakePlain(w, s0, es, s1, back, honest);
      es := es + [back];
    }
  }

  /** From the verified download to the end of the cycle. */
  lemma FinishRuns(w: World, s0: State, es0: seq<Event>, s: State, m: Manifest, env: Environment, honest: bool)
    returns (es: seq<Event>)
    requires GoesOn(w, s0, es0, honest) && After(w, s0, es0) == s
    requires s.pc == Staged(env.temp, m) && Temp(env.temp) in s.files
    requires honest ==> w.pinned == "" && env.statWorks && env.restoreWorks && Dest in s.files
    ensures GoesOn(w, s0, es, honest)
    ensures
      After(w, s0, es) == State(
        AfterCleanUp(if env.selfcheck then AfterSwap(s.files, env) else s.files, env), Idle, s.offered,
        if env.selfcheck then s.vetted + {s.files[Temp(env.temp)]} else s.vetted)
  {
    var s1;
    if env.selfcheck {
      TakePlain(w, s0, es0, s, PassSelfcheck, honest);
      s1 := s.(pc := Checked(env.temp), vetted := s.vetted + {s.files[Temp(env.temp)]});
      es := SwapRuns(w, s0, es0 + [PassSelfcheck], s1, env, honest);
      s1 := s1.(files := AfterSwap(s.files, env), pc := Cleaning(env.temp));
    } else {
      TakePlain(w, s0, es0, s, FailSelfcheck, honest);
      s1 := s.(pc := Cleaning(env.temp));
      es := es0 + [FailSelfcheck];
    }
    TakePlain(w, s0, es, s1, CleanUp(env.removed), honest);
    es := es + [CleanUp(env.removed)];
  }

  /** The binaries and manifests a cycle adds to the history. */
  function Offered(w: World, fs: Files, env: Environment): set<Manifest> {
    if Due(w, fs, env) && env.created then {env.manifest.value} else {}
  }

  function Vetted(w: World, fs: Files, env: Environment): set<Bytes> {
    if ReachesSwap(w, fs, env) then {env.data} else {}
  }

  function StateAfter(w: World, s: State, env: Environment): State {
    State(AfterCycle(w, s.files, env), Idle, s.offered + Offered(w, s.files, env), s.vetted + Vetted(w, s.files, env))
  }

  /**
   * Every completed cycle of the program continues a run of the small-step system from rest to
   * rest, and an honest cycle continues an honest run.
   */
  lemma CycleIsARun(w: World, s0: State, es0: seq<Event>, env: Environment, honest: bool) returns (es: seq<Event>)
    requires GoesOn(w, s0, es0, honest) && After(w, s0, es0).pc.Idle? && Temp(env.temp) !in After(w, s0, es0).files
    requires honest ==> HonestCycle(w, env) && Dest in After(w, s0, es0).files
    ensures GoesOn(w, s0, es, honest) && After(w, s0, es) == StateAfter(w, After(w, s0, es0), env)
  {
    var s := After(w, s0, es0);
    es := es0;
    if Due(w, s.files, env) && env.created {
      var m := env.manifest.value;
      es := BeginRuns(w, s0, es0, s, env, honest);
      var s1 := State(s.files[Temp(env.temp) := []], Staging(env.temp, m), s.offered + {m}, s.vetted);
      es := DownloadRuns(w, s0, es, s1, m, env, honest);
      assert s1.files[Temp(env.temp) := env.data] == s.files[Temp(env.temp) := env.data];
      if Stages(w, m, env) {
        var s2 := s1.(files := s.files[Temp(env.temp) := env.data], pc := Staged(env.temp, m));
        es := FinishRuns(w, s0, es, s2, m, env, honest);
      }
    }
  }

  // ------------------------------------------------------------------------------------------
  // The update as a transaction

  /** All or nothing: the new binary is in place if the cycle was applied, what was there before otherwise. */
  predicate Atomic(w: World, fs: Files, env: Environment) {
    Content(AfterCycle(w, fs, env), Dest) == if Applied(w, fs, env) then Some(env.data) else Content(fs, Dest)
  }

  /**
   * What comes to stand in place of the binary is what stood there: after a failed install the
   * restore works, after an unready worker the rollback works, and the binary was really moved
   * aside before. Where it was not, an older rollback copy or the new binary must have the same
   * bytes, or none of them is put in its place.
   */
  predicate Undoes(w: World, fs: Files, env: Environment) {
    ReachesSwap(w, fs, env) && (SeesPrevious(fs, env) ==> env.saveWorks) ==>
      if !env.installWorks then
        if SeesPrevious(fs, env) then env.restoreWorks
        else env.restoreWorks && Prev in fs ==> Content(fs, Dest) == Content(fs, Prev)
      else if Healthy(env) then true
      else if SeesPrevious(fs, env) then env.rollbackWorks || fs[Dest] == env.data
      else if env.rollbackWorks && Prev in fs then Content(fs, Dest) == Content(fs, Prev)
      else Content(fs, Dest) == Some(env.data)
  }

  /** Exactly when a cycle is a transaction. */
  lemma CycleIsTransactionIff(w: World, fs: Files, env: Environment)
    requires Temp(env.temp) !in fs
    ensures Atomic(w, fs, env) <==> Undoes(w, fs, env)
  {
    if ReachesSwap(w, fs, env) {
      SwapOutcome(fs[Temp(env.temp) := env.data], env);
    }
  }

  /** What is in place after a swap, case by case. */
  lemma SwapOutcome(fs: Files, env: Environment)
    requires Temp(env.temp) in fs
    ensures
      var after := Content(AfterCleanUp(AfterSwap(fs, env), env), Dest);
      after ==
        if SeesPrevious(fs, env) && !env.saveWorks then Content(fs, Dest)
        else if !env.installWorks then
          if SeesPrevious(fs, env) then (if env.restoreWorks then Content(fs, Dest) else None)
          else if env.restoreWorks && Prev in fs then Content(fs, Prev)
          else Content(fs, Dest)
        else if Healthy(env) then Content(fs, Temp(env.temp))
        else if env.rollbackWorks && SeesPrevious(fs, env) then Content(fs, Dest)
        else if env.rollbackWorks && Prev in fs then Content(fs, Prev)
        else Content(fs, Temp(env.temp))
  {
  }

  /** In particular with a binary in place, a truthful stat, and a restore and rollback that work. */
  lemma CycleIsTransaction(w: World, fs: Files, env: Environment)
    requires Temp(env.temp) !in fs && Dest in fs
    requires env.statWorks && env.restoreWorks && env.rollbackWorks
    ensures Atomic(w, fs, env)
    ensures Applied(w, fs, env) ==> Content(AfterCycle(w, fs, env), Prev) == Some(fs[Dest])
  {
  }

  /**
   * The agent keeps its worker: if a worker ran the binary in place before the cycle, the cycle was
   * a transaction and the restart works, then one runs the binary in place afterwards, the old one
   * if the cycle was not applied.
   */
  lemma TransactionKeepsWorker(w: World, fs: Files, env: Environment)
    requires Temp(env.temp) !in fs && Dest in fs && Atomic(w, fs, env) && env.startsAgain
    ensures
      var child := ChildAfter(w, fs, Some(fs[Dest]), env);
      && child == Content(AfterCycle(w, fs, env), Dest)
      && child == Some(if Applied(w, fs, env) then env.data else fs[Dest])
  {
    CycleIsTransactionIff(w, fs, env);
  }

  /**
   * A promotion that fails and whose restore fails too leaves nothing to start: no worker runs,
   * however well the restart would work.
   */
  lemma LostBinaryLosesWorker(w: World, fs: Files, child: Option<Bytes>, env: Environment)
    requires Temp(env.temp) !in fs && Dest in fs && ReachesSwap(w, fs, env)
    requires env.statWorks && env.saveWorks && !env.installWorks && !env.restoreWorks
    ensures Dest !in AfterCycle(w, fs, env) && ChildAfter(w, fs, child, env) == None
  {
    SwapOutcome(fs[Temp(env.temp) := env.data], env);
  }

  // ------------------------------------------------------------------------------------------
  // Any number of cycles

  /** Every cycle stages under a name that is not in use. */
  predicate FreshTemps(w: World, fs: Files, envs: seq<Environment>)
    decreases |envs|
  {
    envs == [] || (Temp(envs[0].temp) !in fs && FreshTemps(w, AfterCycle(w, fs, envs[0]), envs[1..]))
  }

  function AfterCycles(w: World, fs: Files, envs: seq<Environment>): Files
    decreases |envs|
  {
    if envs == [] then fs else AfterCycles(w, AfterCycle(w, fs, envs[0]), envs[1..])
  }

  /**
   * Some cycle brought these bytes, its manifest vouches for them, they passed its selfcheck, and
   * the manifest was for the pinned version if there is a pin.
   */
  predicate Brought(w: World, envs: seq<Environment>, bytes: Bytes) {
    exists i :: 0 <= i < |envs| && BroughtBy(w, envs[i], bytes)
  }

  predicate BroughtBy(w: World, env: Environment, bytes: Bytes) {
    && env.manifest.Some? && env.data == bytes && env.selfcheck
    && w.Accepts(env.manifest.value, bytes)
    && (w.pinned != "" ==> env.manifest.value.version == w.pinned)
  }

  predicate AllHonest(w: World, envs: seq<Environment>) {
    forall i :: 0 <= i < |envs| ==> HonestCycle(w, envs[i])
  }

  function ChildAfterCycles(w: World, fs: Files, child: Option<Bytes>, envs: seq<Environment>): Option<Bytes>
    decreases |envs|
  {
    if envs == [] then child
    else ChildAfterCycles(w, AfterCycle(w, fs, envs[0]), ChildAfter(w, fs, child, envs[0]), envs[1..])
  }

  /** Any number of completed cycles continue one run; whatever they add to the vetted binaries, one of them brought. */
  lemma {:induction false} CyclesAreARun(w: World, s0: State, es0: seq<Event>, envs: seq<Environment>, honest: bool)
    returns (es: seq<Event>)
    requires GoesOn(w, s0, es0, honest) && After(w, s0, es0).pc.Idle? && FreshTemps(w, After(w, s0, es0).files, envs)
    requires honest ==> AllHonest(w, envs) && Dest in s0.files && s0.pc.Idle? && TripleOf(w, s0.files[Dest]).Some?
    ensures GoesOn(w, s0, es, honest) && After(w, s0, es).pc.Idle?
    ensures After(w, s0, es).files == AfterCycles(w, After(w, s0, es0).files, envs)
    ensures forall b :: b in After(w, s0, es).vetted ==> b in After(w, s0, es0).vetted || Brought(w, envs, b)
    decreases |envs|
  {
    es := es0;
    if envs != [] {
      if honest {
        InstalledVersionNeverDecreases(w, s0, es0);
      }
      es := CycleIsARun(w, s0, es0, envs[0], honest);
      var es1 := es;
      es := CyclesAreARun(w, s0, es1, envs[1..], honest);
      forall b | b in After(w, s0, es).vetted ensures b in After(w, s0, es0).vetted || Brought(w, envs, b) {
        if b !in After(w, s0, es0).vetted {
          BroughtEarlier(w, After(w, s0, es0).files, envs, b, b in After(w, s0, es1).vetted);
        }
      }
    }
  }

  lemma BroughtEarlier(w: World, fs: Files, envs: seq<Environment>, b: Bytes, first: bool)
    requires envs != [] && (if first then b in Vetted(w, fs, envs[0]) else Brought(w, envs[1..], b))
    ensures Brought(w, envs, b)
  {
    if first {
      assert BroughtBy(w, envs[0], b);
    } else {
      var i :| 0 <= i < |envs[1..]| && BroughtBy(w, envs[1..][i], b);
      assert envs[i + 1] == envs[1..][i];
    }
  }

  /**
   * After any number of cycles of the program, whatever failed in them: a binary or its rollback
   * copy is there, and each of the two was there at the beginning or was brought by one of them.
   */
  lemma UpdatesKeepVouchedBinaries(w: World, fs: Files, envs: seq<Environment>, slot: Slot)
    requires (Dest in fs || Prev in fs) && FreshTemps(w, fs, envs) && slot in {Dest, Prev}
    ensures
      var after := AfterCycles(w, fs, envs);
      && (Dest in after || Prev in after)
      && (slot in after ==>
            (Dest in fs && after[slot] == fs[Dest]) || (Prev in fs && after[slot] == fs[Prev]) || Brought(w, envs, after[slot]))
  {
    var s0 := State(fs, Idle, {}, {});
    var es := CyclesAreARun(w, s0, [], envs, false);
    BinariesAreVouched(w, s0, es, slot);
  }

  /** After any number of honest cycles of the program a binary is in place, with a version no lower than at the beginning. */
  lemma UpdatesNeverLowerTheVersion(w: World, fs: Files, envs: seq<Environment>)
    requires Dest in fs && TripleOf(w, fs[Dest]).Some? && FreshTemps(w, fs, envs) && AllHonest(w, envs)
    ensures
      var after := AfterCycles(w, fs, envs);
      Dest in after && AtLeast(TripleOf(w, after[Dest]), TripleOf(w, fs[Dest]))
  {
    var s0 := State(fs, Idle, {}, {});
    var es := CyclesAreARun(w, s0, [], envs, true);
    InstalledVersionNeverDecreases(w, s0, es);
  }

  /**
   * Without an answer from the worker, an authentic older release replaces a newer one: all the
   * other conditions of an honest cycle do not help.
   */
  lemma SilentWorkerIsDowngraded(w: World, fs: Files, env: Environment)
    requires Dest in fs && Temp(env.temp) !in fs && w.pinned == "" && !env.answers && env.manifest.Some?
    requires Higher(TripleOf(w, fs[Dest]), TripleOf(w, env.data)) && w.VersionOf(env.data) == env.manifest.value.version
    requires Stages(w, env.manifest.value, env) && env.selfcheck && Healthy(env)
    requires env.statWorks && env.saveWorks && env.installWorks
    ensures Content(AfterCycle(w, fs, env), Dest) == Some(env.data)
  {
    Version.SilentWorkerTakesAnyRelease(env.manifest.value.version);
    SwapOutcome(fs[Temp(env.temp) := env.data], env);
  }

  // ------------------------------------------------------------------------------------------
  // What a cycle refuses, and what it leaves behind

  lemma CleanedSwapTemps(fs: Files, env: Environment, slot: Slot)
    requires Temp(env.temp) in fs && slot.Temp?
    ensures slot != Temp(env.temp) ==> Content(AfterCleanUp(AfterSwap(fs, env), env), slot) == Content(fs, slot)
    ensures env.removed ==> Temp(env.temp) !in AfterCleanUp(AfterSwap(fs, env), env)
  {
  }

  /**
   * Whatever happens in a cycle, its temporary file is gone afterwards if removing works, and the
   * temporary files of other cycles are left alone.
   */
  lemma OwnTempIsRemoved(w: World, fs: Files, env: Environment, slot: Slot)
    requires Temp(env.temp) !in fs && slot.Temp?
    ensures env.removed ==> Temp(env.temp) !in AfterCycle(w, fs, env)
    ensures slot != Temp(env.temp) ==> Content(AfterCycle(w, fs, env), slot) == Content(fs, slot)
  {
    if ReachesSwap(w, fs, env) {
      CleanedSwapTemps(fs[Temp(env.temp) := env.data], env, slot);
    }
  }

  /** Without a swap the binary, its rollback copy and the worker stay. */
  lemma NoSwapNoChange(w: World, fs: Files, child: Option<Bytes>, env: Environment)
    requires Temp(env.temp) !in fs && !ReachesSwap(w, fs, env)
    ensures Content(AfterCycle(w, fs, env), Dest) == Content(fs, Dest)
    ensures Content(AfterCycle(w, fs, env), Prev) == Content(fs, Prev)
    ensures ChildAfter(w, fs, child, env) == child
  {
  }

  /** Bytes with another hash than the manifest's, or another length than its positive size, are never put in place. */
  lemma MismatchIsRefused(w: World, fs: Files, child: Option<Bytes>, env: Environment)
    requires Temp(env.temp) !in fs && env.manifest.Some? && LowerCase(w.sha(env.data))
    requires
      var m := env.manifest.value;
      !SameUpToCase(w.sha(env.data), m.sha256) || (m.size > 0 && |env.data| != m.size)
    ensures Content(AfterCycle(w, fs, env), Dest) == Content(fs, Dest)
    ensures Content(AfterCycle(w, fs, env), Prev) == Content(fs, Prev)
    ensures ChildAfter(w, fs, child, env) == child
  {
    LowerIgnoresCase(w.sha(env.data), env.manifest.value.sha256);
    NoSwapNoChange(w, fs, child, env);
  }

  /** Nor are bytes of a binary that fails its selfcheck. */
  lemma FailedSelfcheckIsRefused(w: World, fs: Files, child: Option<Bytes>, env: Environment)
    requires Temp(env.temp) !in fs && !env.selfcheck
    ensures Content(AfterCycle(w, fs, env), Dest) == Content(fs, Dest)
    ensures Content(AfterCycle(w, fs, env), Prev) == Content(fs, Prev)
    ensures ChildAfter(w, fs, child, env) == child
  {
    NoSwapNoChange(w, fs, child, env);
  }

  /** Everything outside the version decision goes well, in a cycle that was offered a manifest. */
  predicate GoesWell(w: World, env: Environment) {
    && env.manifest.Some? && LowerCase(w.sha(env.data))
    && env.created && env.received && env.finished && env.selfcheck
    && SameUpToCase(w.sha(env.data), env.manifest.value.sha256)
    && (env.manifest.value.size <= 0 || |env.data| == env.manifest.value.size)
    && env.answers && env.statWorks && env.saveWorks && env.installWorks
    && env.starts && env.ready && env.stillReady
  }

  /** When all goes well, the version decision is all there is to it. */
  lemma InstallsIffDue(w: World, fs: Files, env: Environment)
    requires Temp(env.temp) !in fs && Dest in fs && GoesWell(w, env)
    ensures
      var due := Version.ShouldUpdate(w.VersionOf(fs[Dest]), w.pinned, env.manifest.value.version);
      && (Applied(w, fs, env) <==> due)
      && (due ==> Content(AfterCycle(w, fs, env), Dest) == Some(env.data) && Content(AfterCycle(w, fs, env), Prev) == Some(fs[Dest]))
      && (!due ==> AfterCycle(w, fs, env) == fs)
  {
    LowerIgnoresCase(w.sha(env.data), env.manifest.value.sha256);
    if ReachesSwap(w, fs, env) {
      SwapKeepsOld(fs[Temp(env.temp) := env.data], env);
    }
  }

  lemma SwapKeepsOld(fs: Files, env: Environment)
    requires Temp(env.temp) in fs && Dest in fs && env.statWorks && env.saveWorks && env.installWorks && Healthy(env)
    ensures
      var after := AfterCleanUp(AfterSwap(fs, env), env);
      Content(after, Dest) == Some(fs[Temp(env.temp)]) && Content(after, Prev) == Some(fs[Dest])
  {
  }

  /** Without a pin and with versions that parse, that is: the release is installed iff its triple is above the current one. */
  lemma InstallsIffAbove(w: World, fs: Files, env: Environment)
    requires Temp(env.temp) !in fs && Dest in fs && GoesWell(w, env) && w.pinned == ""
    ensures
      var (offered, current) := (Version.SemverOf(env.manifest.value.version), TripleOf(w, fs[Dest]));
      offered.Some? && current.Some? ==> (Applied(w, fs, env) <==> Version.Above(offered.value, current.value))
  {
    InstallsIffDue(w, fs, env);
    Version.NewerIsAbove(env.manifest.value.version, w.VersionOf(fs[Dest]));
  }

  // ------------------------------------------------------------------------------------------
  // The pin

  /** With a pin, a cycle that otherwise goes well installs exactly the pinned version, and only over a different one. */
  lemma PinnedInstallsIff(w: World, fs: Files, env: Environment)
    requires Temp(env.temp) !in fs && Dest in fs && GoesWell(w, env) && w.pinned != ""
    ensures Content(AfterCycle(w, fs, env), Dest) == Some(env.data) || AfterCycle(w, fs, env) == fs
    ensures Applied(w, fs, env) <==> env.manifest.value.version == w.pinned && w.VersionOf(fs[Dest]) != w.pinned
  {
    InstallsIffDue(w, fs, env);
  }

  /** With a pin, a manifest for any other version changes nothing at all, whatever the environment does. */
  lemma OtherVersionIsIgnored(w: World, fs: Files, child: Option<Bytes>, env: Environment)
    requires w.pinned != "" && env.manifest.Some? && env.manifest.value.version != w.pinned
    ensures AfterCycle(w, fs, env) == fs && ChildAfter(w, fs, child, env) == child
  {
  }

  /** A pin to an older version takes effect: the older binary replaces the newer one. */
  lemma PinDowngrades(w: World, fs: Files, env: Environment)
    requires Temp(env.temp) !in fs && Dest in fs && GoesWell(w, env) && w.pinned != ""
    requires env.manifest.value.version == w.pinned == w.VersionOf(env.data)
    requires Higher(TripleOf(w, fs[Dest]), TripleOf(w, env.data))
    ensures Content(AfterCycle(w, fs, env), Dest) == Some(env.data)
  {
    InstallsIffDue(w, fs, env);
  }

  /** Over any number of cycles with a pin, whatever replaces the starting binaries was brought under a manifest for the pin. */
  lemma OnlyThePinReplaces(w: World, fs: Files, envs: seq<Environment>, slot: Slot)
    requires (Dest in fs || Prev in fs) && FreshTemps(w, fs, envs) && slot in {Dest, Prev} && w.pinned != ""
    requires
      var after := AfterCycles(w, fs, envs);
      slot in after && Some(after[slot]) != Content(fs, Dest) && Some(after[slot]) != Content(fs, Prev)
    ensures
      var bytes := AfterCycles(w, fs, envs)[slot];
      exists i :: 0 <= i < |envs| && envs[i].manifest.Some? && envs[i].manifest.value.version == w.pinned && envs[i].data == bytes
  {
    UpdatesKeepVouchedBinaries(w, fs, envs, slot);
    var i :| 0 <= i < |envs| && BroughtBy(w, envs[i], AfterCycles(w, fs, envs)[slot]);
  }
}
