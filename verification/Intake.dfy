/**
 * Job intake over the life of an agent: worker processes start, take jobs, crash and start again
 * on the same state file, while the relay delivers any job at any time and any number of times.
 * Every event is one indivisible step, so a crash can fall between any two of them.
 */
module Intake {
  import opened DedupeStore

  /** Where the one handler that holds the store's mutex stands. */
  datatype Phase =
    | Free
    | Checked(job: string, at: int)   // not seen; `at` is the first clock read
    | Pruned(job: string, at: int)
    | Recorded(job: string, at: int)  // in memory, not yet in the file
    | Durable(entry: nat)             // file renamed, call not yet returned

  /** `granted` are the log entries whose handler was told to go on but has not started its job. */
  datatype Process = Down | Up(seen: Seen, phase: Phase, granted: set<nat>)

  /** A job run that began at clock time `at` under `record`, the log entry number `entry`. */
  datatype Start = Start(entry: nat, record: Entry, at: int)

  /**
   * `log` and `starts` are history: `log` lists every record that reached the file, never pruned,
   * after the first `base` entries that stand for what the file held at the beginning.
   */
  datatype State = State(clock: int, ttl: int, file: File, process: Process, log: seq<Entry>, base: nat, starts: seq<Start>)

  datatype Event =
    | Tick(seconds: nat)
    | Open
    | Crash
    | Drop                  // a message rejected before the store: not an envelope, forged, replayed, late, draining
    | Deliver(job: string)  // a message that reaches the store and reads the clock
    | PruneMemory
    | RecordInMemory
    | RenameFile
    | FailFlush
    | ReturnFresh
    | Begin(entry: nat)

  predicate Enabled(s: State, e: Event) {
    match e
    case Tick(_) => true
    case Drop => true
    case Open => s.process.Down? && !s.file.Unreadable?
    case Crash => s.process.Up?
    case Deliver(_) => s.process.Up? && s.process.phase.Free?
    case PruneMemory => s.process.Up? && s.process.phase.Checked?
    case RecordInMemory => s.process.Up? && s.process.phase.Pruned?
    case RenameFile => s.process.Up? && s.process.phase.Recorded?
    case FailFlush => s.process.Up? && s.process.phase.Recorded?
    case ReturnFresh => s.process.Up? && s.process.phase.Durable?
    case Begin(k) => s.process.Up? && k in s.process.granted && k < |s.log|
  }

  function Next(s: State, e: Event): State
    requires Enabled(s, e)
  {
    var p := s.process;
    match e
    case Tick(d) => s.(clock := s.clock + d)
    case Drop => s
    case Open => s.(process := Up(Loaded(s.file, s.ttl, s.clock), Free, {}))
    case Crash => s.(process := Down)
    case Deliver(job) =>
      if LiveIn(p.seen, job, s.ttl, s.clock) then s
      else s.(process := p.(phase := Checked(job, s.clock)))
    case PruneMemory =>
      s.(process := p.(seen := Prune(p.seen, s.clock - s.ttl), phase := Pruned(p.phase.job, p.phase.at)))
    case RecordInMemory =>
      s.(process := p.(seen := p.seen[p.phase.job := p.phase.at], phase := Recorded(p.phase.job, p.phase.at)))
    case RenameFile =>
      s.(file := Holding(p.seen), log := s.log + [Entry(p.phase.job, p.phase.at)],
         process := p.(phase := Durable(|s.log|)))
    case FailFlush => s.(process := p.(seen := p.seen - {p.phase.job}, phase := Free))
    case ReturnFresh => s.(process := p.(phase := Free, granted := p.granted + {p.phase.entry}))
    case Begin(k) => s.(process := p.(granted := p.granted - {k}), starts := s.starts + [Start(k, s.log[k], s.clock)])
  }

  /** A run: the states a list of events leads through, or not a run at all. */
  predicate Runs(s: State, es: seq<Event>)
    decreases |es|
  {
    es == [] || (Enabled(s, es[0]) && Runs(Next(s, es[0]), es[1..]))
  }

  function After(s: State, es: seq<Event>): State
    requires Runs(s, es)
    decreases |es|
  {
    if es == [] then s else After(Next(s, es[0]), es[1..])
  }

  /** Before the first worker starts: any file, any clock, no history beyond the file's own entries. */
  ghost predicate Initial(s: State) {
    && s.process.Down?
    && s.starts == []
    && s.base == |s.log|
    && Agrees(Entries(s.file), s.log, s.ttl, s.clock)
  }

  // ------------------------------------------------------------------------------------------
  // The invariant

  /** Records of the same job are a full window apart. */
  ghost predicate Spaced(log: seq<Entry>, base: nat, ttl: int) {
    forall a, b :: 0 <= a < b < |log| && base <= b && log[a].job == log[b].job ==> log[b].at - log[a].at >= ttl
  }

  ghost predicate MemoryFits(s: State) {
    s.process.Up? ==>
      var m := s.process.seen;
      match s.process.phase
      case Free => Agrees(m, s.log, s.ttl, s.clock)
      case Durable(_) => Agrees(m, s.log, s.ttl, s.clock)
      case Checked(job, at) => Agrees(m, s.log, s.ttl, s.clock) && at <= s.clock && !LiveInLog(s.log, job, s.ttl, at)
      case Pruned(job, at) => Agrees(m, s.log, s.ttl, s.clock) && at <= s.clock && !LiveInLog(s.log, job, s.ttl, at)
      case Recorded(job, at) =>
        && at <= s.clock && !LiveInLog(s.log, job, s.ttl, at)
        && job in m && m[job] == at
        && forall j: string, t: int :: j != job && t >= s.clock ==> (LiveIn(m, j, s.ttl, t) <==> LiveInLog(s.log, j, s.ttl, t))
  }

  ghost predicate Used(s: State, k: nat) {
    exists i :: 0 <= i < |s.starts| && s.starts[i].entry == k
  }

  /** Each log entry gives at most one permission to start, and it is used at most once. */
  ghost predicate OneStartPerEntry(s: State) {
    && (forall i :: 0 <= i < |s.starts| ==>
          && s.base <= s.starts[i].entry < |s.log| && s.log[s.starts[i].entry] == s.starts[i].record
          && s.starts[i].record.at <= s.starts[i].at <= s.clock)
    && (forall i, j :: 0 <= i < j < |s.starts| ==> s.starts[i].entry != s.starts[j].entry)
    && (s.process.Up? ==>
          && (forall k :: k in s.process.granted ==> s.base <= k < |s.log| && !Used(s, k))
          && (s.process.phase.Durable? ==>
                var k := s.process.phase.entry;
                s.base <= k < |s.log| && !Used(s, k) && k !in s.process.granted))
  }

  ghost predicate Inv(s: State) {
    && s.base <= |s.log|
    && (forall k :: s.base <= k < |s.log| ==> s.log[k].at <= s.clock)
    && Spaced(s.log, s.base, s.ttl)
    && Agrees(Entries(s.file), s.log, s.ttl, s.clock)
    && MemoryFits(s)
    && OneStartPerEntry(s)
  }

  lemma AppendKeepsSpacing(log: seq<Entry>, base: nat, ttl: int, e: Entry)
    requires base <= |log| && Spaced(log, base, ttl) && !LiveInLog(log, e.job, ttl, e.at)
    ensures Spaced(log + [e], base, ttl)
  {
    var log' := log + [e];
    forall a, b | 0 <= a < b < |log'| && base <= b && log'[a].job == log'[b].job
      ensures log'[b].at - log'[a].at >= ttl
    {
      if b == |log| {
        assert log[a].job == e.job;
      }
    }
  }

  lemma StepKeepsMemory(s: State, e: Event)
    requires Inv(s) && Enabled(s, e) && !e.RenameFile?
    ensures
      var s' := Next(s, e);
      Agrees(Entries(s'.file), s'.log, s'.ttl, s'.clock) && MemoryFits(s')
  {
    match e
    case Open => OpenRefinesLog(s.file, s.log, s.ttl, s.clock);
    case Deliver(job) =>
      assert LiveIn(s.process.seen, job, s.ttl, s.clock) <==> LiveInLog(s.log, job, s.ttl, s.clock);
    case PruneMemory => PruneKeepsTheFuture(s.process.seen, s.ttl, s.clock);
    case RecordInMemory =>
      var p := s.process;
      forall j: string, t: int | j != p.phase.job && t >= s.clock
        ensures LiveIn(p.seen[p.phase.job := p.phase.at], j, s.ttl, t) <==> LiveInLog(s.log, j, s.ttl, t)
      {
        assert LiveIn(p.seen, j, s.ttl, t) <==> LiveInLog(s.log, j, s.ttl, t);
      }
    case FailFlush =>
      RecordAgrees(s.process.seen, s.log, s.ttl, s.process.phase.job, s.process.phase.at, s.clock);
    case _ =>
  }

  lemma RenameKeepsInv(s: State)
    requires Inv(s) && Enabled(s, RenameFile)
    ensures Inv(Next(s, RenameFile))
  {
    var s' := Next(s, RenameFile);
    var p, e := s.process, Entry(s.process.phase.job, s.process.phase.at);
    AppendKeepsSpacing(s.log, s.base, s.ttl, e);
    RecordAgrees(p.seen, s.log, s.ttl, e.job, e.at, s.clock);
    assert p.seen[e.job := e.at] == p.seen;
    assert forall k: nat :: Used(s', k) ==> Used(s, k);
  }

  lemma BeginKeepsStarts(s: State, k: nat)
    requires Inv(s) && Enabled(s, Begin(k))
    ensures OneStartPerEntry(Next(s, Begin(k)))
  {
    var s' := Next(s, Begin(k));
    forall n: nat | Used(s', n) ensures n == k || Used(s, n) {
      var i :| 0 <= i < |s'.starts| && s'.starts[i].entry == n;
      if i < |s.starts| { assert s.starts[i].entry == n; }
    }
    forall i | 0 <= i < |s.starts| ensures s.starts[i].entry != k {
      if s.starts[i].entry == k { assert Used(s, k); }
    }
  }

  lemma StepKeepsInv(s: State, e: Event)
    requires Inv(s) && Enabled(s, e)
    ensures Inv(Next(s, e))
  {
    if e.RenameFile? {
      RenameKeepsInv(s);
    } else {
      StepKeepsMemory(s, e);
      if e.Begin? {
        BeginKeepsStarts(s, e.entry);
      } else {
        assert forall k: nat :: Used(Next(s, e), k) ==> Used(s, k);
      }
    }
  }

  lemma {:induction false} RunKeepsInv(s: State, es: seq<Event>)
    requires Inv(s) && Runs(s, es)
    ensures Inv(After(s, es)) && After(s, es).ttl == s.ttl
    decreases |es|
  {
    if es != [] {
      StepKeepsInv(s, es[0]);
      RunKeepsInv(Next(s, es[0]), es[1..]);
    }
  }

  // ------------------------------------------------------------------------------------------
  // Main results

  /**
   * At most once per window, over every run: two different starts of the same job stand under
   * records that are at least a window apart, and so the later one begins at least a window,
   * less the time the earlier one waited between its record and its start, after the earlier one.
   */
  lemma AtMostOncePerWindow(s0: State, es: seq<Event>, p: nat, q: nat)
    requires Initial(s0) && Runs(s0, es)
    requires p < |After(s0, es).starts| && q < |After(s0, es).starts| && p != q
    requires After(s0, es).starts[p].record.job == After(s0, es).starts[q].record.job
    ensures
      var (a, b) := (After(s0, es).starts[p], After(s0, es).starts[q]);
      || (b.record.at - a.record.at >= s0.ttl && b.at - a.at >= s0.ttl - (a.at - a.record.at))
      || (a.record.at - b.record.at >= s0.ttl && a.at - b.at >= s0.ttl - (b.at - b.record.at))
  {
    RunKeepsInv(s0, es);
    var s := After(s0, es);
    var a, b := s.starts[p].entry, s.starts[q].entry;
    assert a != b;
    if a < b {
      assert s.log[b].at - s.log[a].at >= s.ttl;
    } else {
      assert s.log[a].at - s.log[b].at >= s.ttl;
    }
  }

  /** Every start has a record of its own that was in the file when the job began, and was made no later. */
  lemma StartsAreRecorded(s0: State, es: seq<Event>, p: nat)
    requires Initial(s0) && Runs(s0, es) && p < |After(s0, es).starts|
    ensures
      var s := After(s0, es);
      && s.base <= s.starts[p].entry < |s.log|
      && s.log[s.starts[p].entry] == s.starts[p].record && s.starts[p].record.at <= s.starts[p].at <= s.clock
      && forall q :: 0 <= q < |s.starts| && q != p ==> s.starts[q].entry != s.starts[p].entry
  {
    RunKeepsInv(s0, es);
  }

  /**
   * Whatever happened before, a delivery is suppressed exactly when the never-pruned log holds a
   * live record of the job, and a worker that opened the file now would answer the same.
   */
  lemma SuppressedIffLogged(s0: State, es: seq<Event>, job: string)
    requires Initial(s0) && Runs(s0, es) && Enabled(After(s0, es), Deliver(job))
    ensures
      var s := After(s0, es);
      && (Next(s, Deliver(job)) == s <==> LiveInLog(s.log, job, s.ttl, s.clock))
      && (LiveIn(Entries(s.file), job, s.ttl, s.clock) <==> LiveInLog(s.log, job, s.ttl, s.clock))
  {
    RunKeepsInv(s0, es);
    var s := After(s0, es);
    assert LiveIn(s.process.seen, job, s.ttl, s.clock) <==> LiveInLog(s.log, job, s.ttl, s.clock);
  }

  function CallEvents(job: string, wait: nat, flush: Flush): seq<Event> {
    [Deliver(job), Tick(wait), PruneMemory, RecordInMemory] + (if flush.Renamed? then [RenameFile, ReturnFresh] else [FailFlush])
  }

  lemma {:induction false} AfterSplit(s: State, es: seq<Event>, fs: seq<Event>)
    requires Runs(s, es)
    ensures Runs(s, es + fs) <==> Runs(After(s, es), fs)
    ensures Runs(s, es + fs) ==> After(s, es + fs) == After(After(s, es), fs)
    decreases |es|
  {
    if es == [] {
      assert es + fs == fs;
    } else {
      assert (es + fs)[1..] == es[1..] + fs;
      AfterSplit(Next(s, es[0]), es[1..], fs);
    }
  }

  lemma One(s: State, e: Event)
    requires Enabled(s, e)
    ensures Runs(s, [e]) && After(s, [e]) == Next(s, e)
  {
    assert [e][1..] == [];
    assert After(Next(s, e), []) == Next(s, e);
  }

  lemma Two(s: State, e: Event, f: Event)
    requires Enabled(s, e) && Enabled(Next(s, e), f)
    ensures Runs(s, [e, f]) && After(s, [e, f]) == Next(Next(s, e), f)
  {
    One(s, e);
    One(Next(s, e), f);
    AfterSplit(s, [e], [f]);
    assert [e] + [f] == [e, f];
  }

  /** Opening is what the store's `Open` does: it fails exactly on an unreadable file, and else loads the file. */
  lemma OpenIsOpen(s: State)
    requires s.process.Down?
    ensures Enabled(s, Open) <==> !s.file.Unreadable?
    ensures Enabled(s, Open) ==> Next(s, Open) == s.(process := Up(Loaded(s.file, s.ttl, s.clock), Free, {}))
    ensures s.file.Missing? || s.file.Garbled? ==> Next(s, Open).process.seen == map[]
  {
  }

  /** The store's method is these steps in one go: same memory, file, log and answer. */
  lemma StepsMakeACall(s: State, job: string, wait: nat, flush: Flush)
    requires s.process.Up? && s.process.phase.Free? && !LiveIn(s.process.seen, job, s.ttl, s.clock)
    ensures Runs(s, CallEvents(job, wait, flush))
    ensures
      var s' := After(s, CallEvents(job, wait, flush));
      var (m, f, a) := Call(s.process.seen, s.file, s.ttl, job, s.clock, s.clock + wait, flush);
      && s'.process.Up? && s'.process.seen == m && s'.file == f && s'.process.phase.Free?
      && s'.process.granted == s.process.granted + (if a.Fresh? then {|s.log|} else {})
      && s'.log == s.log + (if a.Fresh? then [Entry(job, s.clock)] else [])
      && s'.clock == s.clock + wait && s'.ttl == s.ttl && s'.starts == s.starts
  {
    RecordSteps(s, job, wait);
    FlushSteps(s, Noted(s, job, wait), [Deliver(job), Tick(wait), PruneMemory, RecordInMemory], flush);
  }

  /** The job is recorded in memory, and the clock read twice. */
  function Noted(s: State, job: string, wait: nat): State
    requires s.process.Up?
  {
    var seen := Prune(s.process.seen, s.clock + wait - s.ttl)[job := s.clock];
    s.(clock := s.clock + wait, process := Up(seen, Recorded(job, s.clock), s.process.granted))
  }

  lemma RecordSteps(s: State, job: string, wait: nat)
    requires s.process.Up? && s.process.phase.Free? && !LiveIn(s.process.seen, job, s.ttl, s.clock)
    ensures
      var steps := [Deliver(job), Tick(wait), PruneMemory, RecordInMemory];
      Runs(s, steps) && After(s, steps) == Noted(s, job, wait)
  {
    var head := [Deliver(job), Tick(wait)];
    Two(s, Deliver(job), Tick(wait));
    var s2 := s.(clock := s.clock + wait, process := s.process.(phase := Checked(job, s.clock)));
    assert After(s, head) == s2;
    Two(s2, PruneMemory, RecordInMemory);
    AfterSplit(s, head, [PruneMemory, RecordInMemory]);
    assert head + [PruneMemory, RecordInMemory] == [Deliver(job), Tick(wait), PruneMemory, RecordInMemory];
  }

  lemma FlushSteps(s: State, s4: State, head: seq<Event>, flush: Flush)
    requires Runs(s, head) && After(s, head) == s4 && s4.process.Up? && s4.process.phase.Recorded?
    ensures
      var tail := if flush.Renamed? then [RenameFile, ReturnFresh] else [FailFlush];
      var p := s4.process;
      && Runs(s, head + tail)
      && After(s, head + tail) ==
         if flush.Renamed? then
           s4.(file := Holding(p.seen), log := s4.log + [Entry(p.phase.job, p.phase.at)],
               process := Up(p.seen, Free, p.granted + {|s4.log|}))
         else s4.(process := Up(p.seen - {p.phase.job}, Free, p.granted))
  {
    if flush.Renamed? {
      Two(s4, RenameFile, ReturnFresh);
      AfterSplit(s, head, [RenameFile, ReturnFresh]);
    } else {
      One(s4, FailFlush);
      AfterSplit(s, head, [FailFlush]);
    }
  }

  /** One successful call for `job`, then a pause. */
  lemma GrantAfter(s: State, job: string, pause: nat) returns (es: seq<Event>)
    requires s.process.Up? && s.process.phase.Free? && !LiveIn(s.process.seen, job, s.ttl, s.clock)
    ensures Runs(s, es)
    ensures
      var s' := After(s, es);
      && s'.process.Up? && s'.process.phase.Free? && s'.process.granted == s.process.granted + {|s.log|}
      && s'.process.seen == Prune(s.process.seen, s.clock - s.ttl)[job := s.clock]
      && s'.log == s.log + [Entry(job, s.clock)]
      && s'.clock == s.clock + pause && s'.ttl == s.ttl && s'.starts == s.starts
  {
    StepsMakeACall(s, job, 0, Renamed);
    var call := CallEvents(job, 0, Renamed);
    One(After(s, call), Tick(pause));
    AfterSplit(s, call, [Tick(pause)]);
    es := call + [Tick(pause)];
  }

  /**
   * The window is between records, not between starts, and the bound is tight: a handler that
   * waits `wait` between its record and its start leaves only `ttl - wait` to the next start of
   * the same job, which comes first if the wait is longer than the window. Only without that wait
   * are starts always a full window apart.
   */
  lemma LateStartShortensTheGap(ttl: nat, wait: nat) returns (s0: State, es: seq<Event>)
    ensures Initial(s0) && Runs(s0, es) && s0.ttl == ttl
    ensures
      var starts := After(s0, es).starts;
      && |starts| == 2 && starts[0].record.job == starts[1].record.job
      && var (late, next) := if wait <= ttl then (starts[0], starts[1]) else (starts[1], starts[0]);
         && late.at - late.record.at == wait && next.at == next.record.at
         && next.at - late.at == ttl - wait
  {
    s0 := State(0, ttl, Missing, Down, [], 0, []);
    One(s0, Open);
    var s1 := After(s0, [Open]);
    assert s1.process == Up(map[], Free, {});
    var rest;
    if wait <= ttl {
      rest := StartsInOrder(s1, "a", wait, ttl - wait);
    } else {
      rest := StartsOvertake(s1, "a", wait - ttl);
    }
    AfterSplit(s0, [Open], rest);
    es := [Open] + rest;
  }

  lemma StartsInOrder(s: State, job: string, wait: nat, pause: nat) returns (es: seq<Event>)
    requires s.process == Up(map[], Free, {}) && s.log == [] && s.starts == [] && wait + pause == s.ttl
    ensures Runs(s, es)
    ensures After(s, es).starts ==
      [Start(0, Entry(job, s.clock), s.clock + wait), Start(1, Entry(job, s.clock + s.ttl), s.clock + s.ttl)]
  {
    var es1 := StartAfter(s, job, wait, pause);
    var s1 := After(s, es1);
    assert s1.log == [Entry(job, s.clock)];
    assert s1.process.seen == map[job := s.clock];
    var es2 := StartAfter(s1, job, 0, 0);
    AfterSplit(s, es1, es2);
    es := es1 + es2;
  }

  lemma StartsOvertake(s: State, job: string, more: nat) returns (es: seq<Event>)
    requires s.process == Up(map[], Free, {}) && s.log == [] && s.starts == [] && s.ttl >= 0
    ensures Runs(s, es)
    ensures After(s, es).starts ==
      [Start(1, Entry(job, s.clock + s.ttl), s.clock + s.ttl), Start(0, Entry(job, s.clock), s.clock + s.ttl + more)]
  {
    var es1 := GrantAfter(s, job, s.ttl);
    var s1 := After(s, es1);
    assert s1.process.seen == map[job := s.clock];
    var es2 := GrantAfter(s1, job, 0);
    var s2 := After(s1, es2);
    assert s2.log == [Entry(job, s.clock), Entry(job, s.clock + s.ttl)] && s2.process.granted == {0, 1};
    var es3 := SecondFirst(s2, more);
    AfterSplit(s1, es2, es3);
    AfterSplit(s, es1, es2 + es3);
    es := es1 + (es2 + es3);
  }

  lemma SecondFirst(s: State, more: nat) returns (es: seq<Event>)
    requires s.process.Up? && s.process.granted == {0, 1} && |s.log| == 2 && s.starts == []
    ensures Runs(s, es)
    ensures After(s, es).starts == [Start(1, s.log[1], s.clock), Start(0, s.log[0], s.clock + more)]
  {
    Two(s, Begin(1), Tick(more));
    var s1 := After(s, [Begin(1), Tick(more)]);
    One(s1, Begin(0));
    AfterSplit(s, [Begin(1), Tick(more)], [Begin(0)]);
    es := [Begin(1), Tick(more)] + [Begin(0)];
  }

  /** One successful call for `job`, the start of the job after a wait, then a pause. */
  lemma StartAfter(s: State, job: string, wait: nat, pause: nat) returns (es: seq<Event>)
    requires s.process.Up? && s.process.phase.Free? && !LiveIn(s.process.seen, job, s.ttl, s.clock)
    ensures Runs(s, es)
    ensures
      var s' := After(s, es);
      && s'.process.Up? && s'.process.phase.Free?
      && s'.process.seen == Prune(s.process.seen, s.clock - s.ttl)[job := s.clock]
      && s'.log == s.log + [Entry(job, s.clock)]
      && s'.starts == s.starts + [Start(|s.log|, Entry(job, s.clock), s.clock + wait)]
      && s'.clock == s.clock + wait + pause && s'.ttl == s.ttl
  {
    var grant := GrantAfter(s, job, wait);
    var s1 := After(s, grant);
    var rest := [Begin(|s.log|), Tick(pause)];
    Two(s1, Begin(|s.log|), Tick(pause));
    AfterSplit(s, grant, rest);
    es := grant + rest;
  }
}
