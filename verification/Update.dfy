/** The files around the worker binary, and the renames that swap it. */
module Swap {

  type Bytes = seq<bv8>

  /** The managed binary, its rollback copy, and the temporary files of staged downloads. */
  datatype Slot = Dest | Prev | Temp(n: nat)

  type Files = map<Slot, Bytes>

  /** The files after a rename that went through. */
  function Renamed(fs: Files, a: Slot, b: Slot): Files
    requires a in fs
  {
    (fs - {a})[b := fs[a]]
  }

  class FileSystem {
    var files: Files

    constructor (files: Files)
      ensures this.files == files
    {
      this.files := files;
    }

    /** `os.Rename`: replaces the target, or fails and changes nothing. */
    method Rename(a: Slot, b: Slot, works: bool) returns (ok: bool)
      requires a != b
      modifies this
      ensures ok <==> works && a in old(files)
      ensures files == if ok then Renamed(old(files), a, b) else old(files)
    {
      ok := works && a in files;
      if ok {
        files := (files - {a})[b := files[a]];
      }
    }

    method Write(s: Slot, content: Bytes)
      modifies this
      ensures files == old(files)[s := content]
    {
      files := files[s := content];
    }

    method Remove(s: Slot, works: bool)
      modifies this
      ensures files == if works then old(files) - {s} else old(files)
    {
      if works {
        files := files - {s};
      }
    }
  }
}

/**
 * The supervisor's self-update. The cycle is first a small-step system in which any file operation
 * can fail and the supervisor can be killed between any two of them; `Supervisor.CheckAndApply`
 * is then shown to be one of its runs.
 */
module UpdateCycle {
  import opened Text
  import opened Swap
  import Version

  datatype Manifest = Manifest(version: string, sha256: string, size: int)

  /** `strings.EqualFold`, where one side is lower-case hexadecimal. */
  function Lower(s: string): string {
    seq(|s|, i requires 0 <= i < |s| => if 'A' <= s[i] <= 'Z' then s[i] - 'A' + 'a' else s[i])
  }

  /** Equal up to the case of letters in the second text. */
  predicate SameUpToCase(a: string, b: string) {
    |a| == |b| && forall i :: 0 <= i < |a| ==> a[i] == b[i] || ('A' <= b[i] <= 'Z' && a[i] as int == b[i] as int + 32)
  }

  predicate LowerCase(s: string) {
    forall i :: 0 <= i < |s| ==> !('A' <= s[i] <= 'Z')
  }

  lemma LowerIgnoresCase(a: string, b: string)
    requires LowerCase(a)
    ensures a == Lower(b) <==> SameUpToCase(a, b)
  {
    if SameUpToCase(a, b) {
      forall i | 0 <= i < |a| ensures a[i] == Lower(b)[i] {
        assert 'A' as int == 65 && 'a' as int == 97;
      }
    }
    if a == Lower(b) {
      forall i | 0 <= i < |a| ensures a[i] == b[i] || ('A' <= b[i] <= 'Z' && a[i] as int == b[i] as int + 32) {
        assert a[i] == Lower(b)[i];
      }
    }
  }

  /**
   * What the environment fixes: the hash function (as lower-case hexadecimal), the line each
   * binary prints for --version, and the operator's pin.
   */
  datatype World = World(sha: Bytes -> string, prints: Bytes -> Option<string>, pinned: string) {
    /** `DownloadAndVerify` accepts these bytes under manifest `m`. */
    predicate Accepts(m: Manifest, bytes: Bytes) {
      && sha(bytes) == Lower(m.sha256)
      && (m.size > 0 ==> |bytes| == m.size)
    }

    function VersionOf(bytes: Bytes): string {
      Version.Reported(prints(bytes))
    }

    /** The version the supervisor learns: none can be asked for if there is no binary or it does not answer in time. */
    function Current(fs: Files, answers: bool): string {
      if Dest in fs && answers then VersionOf(fs[Dest]) else Version.Reported(None)
    }
  }

  datatype Pc =
    | Idle
    | Staging(t: nat, m: Manifest)
    | Staged(t: nat, m: Manifest)  // verified, made executable, closed
    | Checked(t: nat)              // selfcheck passed, old worker stopped
    | Saved(t: nat)                // old binary moved aside, or none found
    | Restoring(t: nat)            // install failed
    | Installed(t: nat)
    | Unhealthy(t: nat)            // new worker did not become ready
    | Cleaning(t: nat)

  /**
   * `offered` and `vetted` are history: the signed manifests acted on, and the binaries that were
   * accepted under one of them and then passed their selfcheck.
   */
  datatype State = State(files: Files, pc: Pc, offered: set<Manifest>, vetted: set<Bytes>)

  datatype Event =
    | Begin(m: Manifest, t: nat, answers: bool)
    | Receive(data: Bytes)
    | AcceptDownload
    | AbandonDownload(removed: bool)
    | PassSelfcheck
    | FailSelfcheck
    | SavePrevious
    | FindNoPrevious  // os.Stat on the binary fails, also when the file is there
    | FailSave
    | Install
    | FailInstall
    | Restore
    | FailRestore
    | BecomeReady
    | StayUnready
    | RollBack
    | FailRollBack
    | CleanUp(removed: bool)
    | Crash

  /** What the cycle has come to and what the files say allows the event. */
  predicate Possible(w: World, s: State, e: Event) {
    var fs := s.files;
    match e
    case Begin(_, t, _) => s.pc.Idle? && Temp(t) !in fs
    case Receive(_) => s.pc.Staging?
    case AcceptDownload => s.pc.Staging? && Temp(s.pc.t) in fs && w.Accepts(s.pc.m, fs[Temp(s.pc.t)])
    case AbandonDownload(_) => s.pc.Staging?
    case PassSelfcheck => s.pc.Staged? && Temp(s.pc.t) in fs
    case FailSelfcheck => s.pc.Staged?
    case SavePrevious => s.pc.Checked? && Dest in fs
    case FindNoPrevious => s.pc.Checked?
    case FailSave => s.pc.Checked? && Dest in fs
    case Install => s.pc.Saved? && Temp(s.pc.t) in fs
    case FailInstall => s.pc.Saved?
    case Restore => s.pc.Restoring? && Prev in fs
    case FailRestore => s.pc.Restoring?
    case BecomeReady => s.pc.Installed?
    case StayUnready => s.pc.Installed?
    case RollBack => s.pc.Unhealthy? && Prev in fs
    case FailRollBack => s.pc.Unhealthy?
    case CleanUp(_) => s.pc.Cleaning?
    case Crash => true
  }

  /** A cycle goes beyond its first look at the manifest only if the manifest is an update. */
  predicate Enabled(w: World, s: State, e: Event) {
    && Possible(w, s, e)
    && (e.Begin? ==> Version.ShouldUpdate(w.Current(s.files, e.answers), w.pinned, e.m.version))
  }

  function Next(w: World, s: State, e: Event): State
    requires Possible(w, s, e)
  {
    var fs := s.files;
    match e
    case Begin(m, t, _) => s.(files := fs[Temp(t) := []], pc := Staging(t, m), offered := s.offered + {m})
    case Receive(data) => s.(files := fs[Temp(s.pc.t) := data])
    case AcceptDownload => s.(pc := Staged(s.pc.t, s.pc.m))
    case AbandonDownload(removed) => s.(files := if removed then fs - {Temp(s.pc.t)} else fs, pc := Idle)
    case PassSelfcheck => s.(pc := Checked(s.pc.t), vetted := s.vetted + {fs[Temp(s.pc.t)]})
    case FailSelfcheck => s.(pc := Cleaning(s.pc.t))
    case SavePrevious => s.(files := Renamed(fs, Dest, Prev), pc := Saved(s.pc.t))
    case FindNoPrevious => s.(pc := Saved(s.pc.t))
    case FailSave => s.(pc := Cleaning(s.pc.t))
    case Install => s.(files := Renamed(fs, Temp(s.pc.t), Dest), pc := Installed(s.pc.t))
    case FailInstall => s.(pc := Restoring(s.pc.t))
    case Restore => s.(files := Renamed(fs, Prev, Dest), pc := Cleaning(s.pc.t))
    case FailRestore => s.(pc := Cleaning(s.pc.t))
    case BecomeReady => s.(pc := Cleaning(s.pc.t))
    case StayUnready => s.(pc := Unhealthy(s.pc.t))
    case RollBack => s.(files := Renamed(fs, Prev, Dest), pc := Cleaning(s.pc.t))
    case FailRollBack => s.(pc := Cleaning(s.pc.t))
    case CleanUp(removed) => s.(files := if removed then fs - {Temp(s.pc.t)} else fs, pc := Idle)
    case Crash => s.(pc := Idle)
  }

  /** Runs read from their end, so that a program can extend its own run step by step. */
  predicate Runs(w: World, s: State, es: seq<Event>)
    decreases |es|, 0
  {
    es == [] || (Runs(w, s, es[..|es| - 1]) && Enabled(w, After(w, s, es[..|es| - 1]), es[|es| - 1]))
  }

  function After(w: World, s: State, es: seq<Event>): State
    requires Runs(w, s, es)
    decreases |es|, 1
  {
    if es == [] then s else Next(w, After(w, s, es[..|es| - 1]), es[|es| - 1])
  }

  lemma Extend(w: World, s: State, es: seq<Event>, e: Event)
    requires Runs(w, s, es) && Enabled(w, After(w, s, es), e)
    ensures Runs(w, s, es + [e]) && After(w, s, es + [e]) == Next(w, After(w, s, es), e)
  {
    assert (es + [e])[..|es + [e]| - 1] == es;
  }

  // ------------------------------------------------------------------------------------------
  // Crash safety

  /** One of the two binaries the machine started with. */
  predicate Original(s0: State, bytes: Bytes) {
    (Dest in s0.files && bytes == s0.files[Dest]) || (Prev in s0.files && bytes == s0.files[Prev])
  }

  predicate Vouched(s0: State, s: State, slot: Slot) {
    slot in s.files ==> Original(s0, s.files[slot]) || s.files[slot] in s.vetted
  }

  predicate TempReady(s: State) {
    match s.pc
    case Checked(t) => Temp(t) in s.files && s.files[Temp(t)] in s.vetted
    case Saved(t) => Temp(t) in s.files && s.files[Temp(t)] in s.vetted
    case _ => true
  }

  ghost predicate Accepted(w: World, s: State, bytes: Bytes) {
    exists m :: m in s.offered && w.Accepts(m, bytes)
  }

  ghost predicate Safe(w: World, s0: State, s: State) {
    && Vouched(s0, s, Dest) && Vouched(s0, s, Prev)
    && (Dest in s.files || Prev in s.files)
    && TempReady(s)
    && (s.pc.Staging? || s.pc.Staged? ==> s.pc.m in s.offered)
    && (s.pc.Staged? ==> Temp(s.pc.t) in s.files && w.Accepts(s.pc.m, s.files[Temp(s.pc.t)]))
    && (forall b :: b in s.vetted ==> Accepted(w, s, b))
    && (Dest !in s.files && !s.pc.Saved? && !s.pc.Restoring? ==> Prev in s.files)
  }

  lemma StepKeepsSafe(w: World, s0: State, s: State, e: Event)
    requires Safe(w, s0, s) && Possible(w, s, e)
    ensures Safe(w, s0, Next(w, s, e))
  {
    var s' := Next(w, s, e);
    forall b | b in s'.vetted ensures Accepted(w, s', b) {
      if b in s.vetted {
        var m :| m in s.offered && w.Accepts(m, b);
        assert m in s'.offered;
      } else {
        assert s.pc.m in s'.offered && w.Accepts(s.pc.m, b);
      }
    }
  }

  lemma {:induction false} RunKeepsSafe(w: World, s0: State, es: seq<Event>)
    requires s0.pc.Idle? && s0.vetted == {} && (Dest in s0.files || Prev in s0.files)
    requires Runs(w, s0, es)
    ensures Safe(w, s0, After(w, s0, es))
    decreases |es|
  {
    if es != [] {
      RunKeepsSafe(w, s0, es[..|es| - 1]);
      StepKeepsSafe(w, s0, After(w, s0, es[..|es| - 1]), es[|es| - 1]);
    }
  }

  /**
   * Over any number of cycles, with any operation failing and a crash after any step: one of the
   * two binaries is there, and each one there was on the machine at the beginning or matches the
   * checksum and size of an authentic manifest and has passed its selfcheck.
   */
  lemma BinariesAreVouched(w: World, s0: State, es: seq<Event>, slot: Slot)
    requires s0.pc.Idle? && s0.vetted == {} && (Dest in s0.files || Prev in s0.files)
    requires Runs(w, s0, es) && slot in {Dest, Prev}
    ensures
      var s := After(w, s0, es);
      && (Dest in s.files || Prev in s.files)
      && (slot in s.files ==>
            || Original(s0, s.files[slot])
            || (s.files[slot] in s.vetted && exists m :: m in s.offered && w.Accepts(m, s.files[slot])))
  {
    RunKeepsSafe(w, s0, es);
    var s := After(w, s0, es);
    if slot in s.files && s.files[slot] in s.vetted {
      assert Accepted(w, s, s.files[slot]);
    }
  }

  /** The gap between the two renames of a promotion is real: a crash in it leaves no binary in place. */
  lemma CrashCanLeaveNoBinary(w: World, s0: State, m: Manifest, data: Bytes) returns (es: seq<Event>)
    requires s0.pc.Idle? && Dest in s0.files && Temp(0) !in s0.files
    requires Version.ShouldUpdate(w.Current(s0.files, true), w.pinned, m.version) && w.Accepts(m, data)
    ensures Runs(w, s0, es) && After(w, s0, es).pc.Idle?
    ensures var fs := After(w, s0, es).files; Dest !in fs && Prev in fs && fs[Prev] == s0.files[Dest]
  {
    es := [];
    Extend(w, s0, es, Begin(m, 0, true));
    es := es + [Begin(m, 0, true)];
    Extend(w, s0, es, Receive(data));
    es := es + [Receive(data)];
    Extend(w, s0, es, AcceptDownload);
    es := es + [AcceptDownload];
    Extend(w, s0, es, PassSelfcheck);
    es := es + [PassSelfcheck];
    Extend(w, s0, es, SavePrevious);
    es := es + [SavePrevious];
    Extend(w, s0, es, Crash);
    es := es + [Crash];
  }

  /** Whether the events leave a binary in place: the last rename that touches it decides. */
  predicate LeavesBinary(es: seq<Event>, atFirst: bool) {
    if es == [] then atFirst
    else match es[|es| - 1]
      case SavePrevious => false
      case Install => true
      case Restore => true
      case RollBack => true
      case _ => LeavesBinary(es[..|es| - 1], atFirst)
  }

  /** Exactly when a binary is in place, after any run whatever, so also after a crash at its end. */
  lemma {:induction false} BinaryInPlaceIff(w: World, s0: State, es: seq<Event>)
    requires Runs(w, s0, es)
    ensures Dest in After(w, s0, es).files <==> LeavesBinary(es, Dest in s0.files)
    decreases |es|
  {
    if es != [] {
      BinaryInPlaceIff(w, s0, es[..|es| - 1]);
    }
  }

  /** The code stands in the gap: the old binary is moved aside, the new one not yet installed, the old one not yet restored. */
  predicate InGap(pc: Pc) {
    pc.Saved? || pc.Restoring?
  }

  /** No crash in the gap, no failed restore, and a stat that finds the binary. */
  predicate Intact(s: State, e: Event) {
    && (e.Crash? ==> !InGap(s.pc))
    && !e.FailRestore? && !e.FindNoPrevious?
  }

  predicate IntactRun(w: World, s: State, es: seq<Event>)
    requires Runs(w, s, es)
    decreases |es|
  {
    es == [] || (IntactRun(w, s, es[..|es| - 1]) && Intact(After(w, s, es[..|es| - 1]), es[|es| - 1]))
  }

  predicate GapShape(s: State) {
    && (Dest in s.files <==> !InGap(s.pc))
    && (InGap(s.pc) ==> Prev in s.files)
  }

  lemma StepKeepsGap(w: World, s: State, e: Event)
    requires GapShape(s) && Possible(w, s, e) && Intact(s, e)
    ensures GapShape(Next(w, s, e))
  {
  }

  lemma {:induction false} RunKeepsGap(w: World, s0: State, es: seq<Event>)
    requires s0.pc.Idle? && Dest in s0.files && Runs(w, s0, es) && IntactRun(w, s0, es)
    ensures GapShape(After(w, s0, es))
    decreases |es|
  {
    if es != [] {
      RunKeepsGap(w, s0, es[..|es| - 1]);
      StepKeepsGap(w, After(w, s0, es[..|es| - 1]), es[|es| - 1]);
    }
  }

  /** Exactly when a crash leaves a binary in place: everywhere but in the gap between the renames. */
  lemma CrashLeavesBinaryIff(w: World, s0: State, es: seq<Event>)
    requires s0.pc.Idle? && Dest in s0.files && Runs(w, s0, es) && IntactRun(w, s0, es)
    ensures
      var s := After(w, s0, es);
      && Enabled(w, s, Crash)
      && (Dest in Next(w, s, Crash).files <==> !InGap(s.pc))
      && (InGap(s.pc) ==> Prev in Next(w, s, Crash).files)
  {
    RunKeepsGap(w, s0, es);
  }

  // ------------------------------------------------------------------------------------------
  // Versions over whole runs

  /**
   * What version monotonicity rests on: no pin; the worker answers when asked for its version;
   * a downloaded binary prints the version of its manifest and that version parses; and the
   * files stay intact. A rollback may fail.
   */
  predicate Honest(w: World, s: State, e: Event) {
    && w.pinned == ""
    && Intact(s, e)
    && (e.Begin? ==> e.answers && Version.SemverOf(e.m.version).Some?)
    && (e.AcceptDownload? && s.pc.Staging? && Temp(s.pc.t) in s.files ==> w.VersionOf(s.files[Temp(s.pc.t)]) == s.pc.m.version)
  }

  predicate HonestRun(w: World, s: State, es: seq<Event>)
    requires Runs(w, s, es)
    decreases |es|
  {
    es == [] || (HonestRun(w, s, es[..|es| - 1]) && Honest(w, After(w, s, es[..|es| - 1]), es[|es| - 1]))
  }

  function TripleOf(w: World, bytes: Bytes): Option<Version.Triple> {
    Version.SemverOf(w.VersionOf(bytes))
  }

  predicate AtLeast(a: Option<Version.Triple>, b: Option<Version.Triple>) {
    a.Some? && b.Some? && (a == b || Version.Above(a.value, b.value))
  }

  predicate Higher(a: Option<Version.Triple>, b: Option<Version.Triple>) {
    a.Some? && b.Some? && Version.Above(a.value, b.value)
  }

  /** The triples of binaries and of version strings, as plain tables. */
  datatype Ranks = Ranks(binary: Bytes -> Option<Version.Triple>, version: string -> Option<Version.Triple>)

  function RanksOf(w: World): Ranks {
    Ranks(bytes => TripleOf(w, bytes), Version.SemverOf)
  }

  /** What an honest event promises in terms of the tables. */
  predicate Fair(k: Ranks, s: State, e: Event) {
    && Intact(s, e)
    && (e.Begin? && Dest in s.files && k.binary(s.files[Dest]).Some? ==>
          Higher(k.version(e.m.version), k.binary(s.files[Dest])))
    && (e.AcceptDownload? && s.pc.Staging? && Temp(s.pc.t) in s.files ==>
          k.binary(s.files[Temp(s.pc.t)]) == k.version(s.pc.m.version))
  }

  lemma HonestIsFair(w: World, s: State, e: Event)
    requires Enabled(w, s, e) && Honest(w, s, e)
    ensures Fair(RanksOf(w), s, e)
  {
    if e.Begin? && Dest in s.files && TripleOf(w, s.files[Dest]).Some? {
      Version.NewerIsAbove(e.m.version, w.VersionOf(s.files[Dest]));
    }
  }

  /** The slot whose binary the supervisor would fall back to if the cycle failed now. */
  function FallbackSlot(pc: Pc): Slot {
    if InGap(pc) || pc.Installed? || pc.Unhealthy? then Prev else Dest
  }

  predicate Climbing(k: Ranks, s: State) {
    var keep := FallbackSlot(s.pc);
    && keep in s.files && k.binary(s.files[keep]).Some?
    && (InGap(s.pc) ==> Dest !in s.files)
    && (s.pc.Staging? || s.pc.Staged? ==> Higher(k.version(s.pc.m.version), k.binary(s.files[keep])))
    && (s.pc.Staged? ==> Temp(s.pc.t) in s.files && k.binary(s.files[Temp(s.pc.t)]) == k.version(s.pc.m.version))
    && (s.pc.Checked? || s.pc.Saved? ==>
          Temp(s.pc.t) in s.files && Higher(k.binary(s.files[Temp(s.pc.t)]), k.binary(s.files[keep])))
    && (s.pc.Installed? || s.pc.Unhealthy? ==>
          Dest in s.files && Higher(k.binary(s.files[Dest]), k.binary(s.files[keep])))
  }

  /** The version of the binary to fall back to. */
  function Kept(k: Ranks, s: State): Option<Version.Triple>
    requires FallbackSlot(s.pc) in s.files
  {
    k.binary(s.files[FallbackSlot(s.pc)])
  }

  lemma StepClimbs(w: World, k: Ranks, s: State, e: Event)
    requires Climbing(k, s) && Possible(w, s, e) && Fair(k, s, e)
    ensures Climbing(k, Next(w, s, e)) && AtLeast(Kept(k, Next(w, s, e)), Kept(k, s))
  {
  }

  predicate FairRun(w: World, k: Ranks, s: State, es: seq<Event>)
    requires Runs(w, s, es)
    decreases |es|
  {
    es == [] || (FairRun(w, k, s, es[..|es| - 1]) && Fair(k, After(w, s, es[..|es| - 1]), es[|es| - 1]))
  }

  lemma {:induction false} HonestRunIsFair(w: World, s: State, es: seq<Event>)
    requires Runs(w, s, es) && HonestRun(w, s, es)
    ensures FairRun(w, RanksOf(w), s, es)
    decreases |es|
  {
    if es != [] {
      HonestRunIsFair(w, s, es[..|es| - 1]);
      HonestIsFair(w, After(w, s, es[..|es| - 1]), es[|es| - 1]);
    }
  }

  lemma {:induction false} RunClimbs(w: World, k: Ranks, s: State, es: seq<Event>)
    requires Climbing(k, s) && Runs(w, s, es) && FairRun(w, k, s, es)
    ensures Climbing(k, After(w, s, es)) && AtLeast(Kept(k, After(w, s, es)), Kept(k, s))
    decreases |es|
  {
    if es != [] {
      var before, e := After(w, s, es[..|es| - 1]), es[|es| - 1];
      RunClimbs(w, k, s, es[..|es| - 1]);
      StepClimbs(w, k, before, e);
      AtLeastIsTransitive(Kept(k, Next(w, before, e)), Kept(k, before), Kept(k, s));
    }
  }

  lemma RestClimbs(w: World, k: Ranks, s: State, es: seq<Event>)
    requires s.pc.Idle? && Dest in s.files && k.binary(s.files[Dest]).Some?
    requires Runs(w, s, es) && FairRun(w, k, s, es) && After(w, s, es).pc.Idle?
    ensures Dest in After(w, s, es).files
    ensures AtLeast(k.binary(After(w, s, es).files[Dest]), k.binary(s.files[Dest]))
  {
    RunClimbs(w, k, s, es);
  }

  lemma AtLeastIsTransitive(a: Option<Version.Triple>, b: Option<Version.Triple>, c: Option<Version.Triple>)
    requires AtLeast(a, b) && AtLeast(b, c)
    ensures AtLeast(a, c)
  {
  }

  /**
   * From one rest to any later rest, over any number of honest cycles, crashes included: a worker
   * binary is in place and its version triple has not gone down.
   */
  lemma InstalledVersionNeverDecreases(w: World, s: State, es: seq<Event>)
    requires s.pc.Idle? && Dest in s.files && TripleOf(w, s.files[Dest]).Some?
    requires Runs(w, s, es) && HonestRun(w, s, es) && After(w, s, es).pc.Idle?
    ensures Dest in After(w, s, es).files
    ensures AtLeast(TripleOf(w, After(w, s, es).files[Dest]), TripleOf(w, s.files[Dest]))
  {
    HonestRunIsFair(w, s, es);
    RestClimbs(w, RanksOf(w), s, es);
  }

  /** Takes one more honest step. */
  lemma Proceed(w: World, s0: State, es: seq<Event>, s: State, e: Event)
    requires Runs(w, s0, es) && After(w, s0, es) == s && HonestRun(w, s0, es) && Enabled(w, s, e) && Honest(w, s, e)
    ensures Runs(w, s0, es + [e]) && After(w, s0, es + [e]) == Next(w, s, e) && HonestRun(w, s0, es + [e])
  {
    Extend(w, s0, es, e);
    assert (es + [e])[..|es + [e]| - 1] == es;
  }

  /** The version can rise: a newer honest release that is accepted and becomes ready ends up in place. */
  lemma HonestUpdateInstalls(w: World, s0: State, m: Manifest, data: Bytes) returns (es: seq<Event>)
    requires s0.pc.Idle? && Dest in s0.files && Temp(0) !in s0.files && w.pinned == ""
    requires Version.SemverOf(m.version).Some? && Version.IsNewer(m.version, w.VersionOf(s0.files[Dest]))
    requires w.Accepts(m, data) && w.VersionOf(data) == m.version
    ensures Runs(w, s0, es) && HonestRun(w, s0, es) && After(w, s0, es).pc.Idle?
    ensures var fs := After(w, s0, es).files; Dest in fs && fs[Dest] == data && Prev in fs && fs[Prev] == s0.files[Dest]
  {
    es := Begun(w, s0, m);
    var s1 := After(w, s0, es);
    es := Vets(w, s0, es, s1, m, data);
    es := SwapInstalls(w, s0, es, After(w, s0, es), data);
  }

  lemma Vets(w: World, s0: State, es0: seq<Event>, s: State, m: Manifest, data: Bytes) returns (es: seq<Event>)
    requires Runs(w, s0, es0) && HonestRun(w, s0, es0) && After(w, s0, es0) == s && w.pinned == ""
    requires s.pc == Staging(0, m) && w.Accepts(m, data) && w.VersionOf(data) == m.version
    ensures Runs(w, s0, es) && HonestRun(w, s0, es)
    ensures After(w, s0, es) == s.(files := s.files[Temp(0) := data], pc := Checked(0), vetted := s.vetted + {data})
  {
    var s1 := s.(files := s.files[Temp(0) := data]);
    var s2 := s1.(pc := Staged(0, m));
    Proceed(w, s0, es0, s, Receive(data));
    es := es0 + [Receive(data)];
    Proceed(w, s0, es, s1, AcceptDownload);
    es := es + [AcceptDownload];
    Proceed(w, s0, es, s2, PassSelfcheck);
    es := es + [PassSelfcheck];
  }

  lemma Begun(w: World, s0: State, m: Manifest) returns (es: seq<Event>)
    requires s0.pc.Idle? && Dest in s0.files && Temp(0) !in s0.files && w.pinned == ""
    requires Version.SemverOf(m.version).Some? && Version.IsNewer(m.version, w.VersionOf(s0.files[Dest]))
    ensures Runs(w, s0, es) && HonestRun(w, s0, es)
    ensures After(w, s0, es) == State(s0.files[Temp(0) := []], Staging(0, m), s0.offered + {m}, s0.vetted)
  {
    es := [];
    Proceed(w, s0, es, s0, Begin(m, 0, true));
    es := es + [Begin(m, 0, true)];
  }

  lemma SwapInstalls(w: World, s0: State, es0: seq<Event>, s: State, data: Bytes) returns (es: seq<Event>)
    requires Runs(w, s0, es0) && HonestRun(w, s0, es0) && After(w, s0, es0) == s && w.pinned == ""
    requires s.pc == Checked(0) && Dest in s.files && Temp(0) in s.files && s.files[Temp(0)] == data
    ensures Runs(w, s0, es) && HonestRun(w, s0, es) && After(w, s0, es).pc.Idle?
    ensures var fs := After(w, s0, es).files; Dest in fs && fs[Dest] == data && Prev in fs && fs[Prev] == s.files[Dest]
  {
    var aside, fs := Renamed(s.files, Dest, Prev), Renamed(Renamed(s.files, Dest, Prev), Temp(0), Dest);
    Proceed(w, s0, es0, s, SavePrevious);
    es := es0 + [SavePrevious];
    Proceed(w, s0, es, s.(files := aside, pc := Saved(0)), Install);
    es := es + [Install];
    Proceed(w, s0, es, s.(files := fs, pc := Installed(0)), BecomeReady);
    es := es + [BecomeReady];
    Proceed(w, s0, es, s.(files := fs, pc := Cleaning(0)), CleanUp(true));
    es := es + [CleanUp(true)];
    assert After(w, s0, es).files == fs - {Temp(0)};
    TwoRenames(s.files, Temp(0));
  }

  lemma TwoRenames(fs: Files, staged: Slot)
    requires Dest in fs && staged in fs && staged.Temp?
    ensures
      var swapped := Renamed(Renamed(fs, Dest, Prev), staged, Dest);
      && Dest in swapped && swapped[Dest] == fs[staged] && Prev in swapped && swapped[Prev] == fs[Dest]
  {
  }
}
