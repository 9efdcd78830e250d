/**
 * The persistent TTL set of processed job ids. A `Dedupe` object lives as long as one worker
 * process; the `StateFile` it writes outlives it.
 */
module DedupeStore {

  type Seen = map<string, int>

  /** What reading the state file yields: `Garbled` is text that is not the expected JSON. */
  datatype File = Missing | Unreadable | Garbled | Holding(seen: Seen)

  /** How far one flush gets before it fails; only `Renamed` replaces the file. */
  datatype Flush = MarshalFailed | MkdirFailed | CreateFailed | WriteFailed | CloseFailed | RenameFailed | Renamed

  datatype Answer = Duplicate | Fresh | Failed

  predicate LiveIn(m: Seen, job: string, ttl: int, t: int) {
    job in m && t - m[job] < ttl
  }

  function Prune(m: Seen, cutoff: int): Seen {
    map j | j in m && m[j] >= cutoff :: m[j]
  }

  /** The entries a reader of the file gets before pruning. */
  function Entries(f: File): Seen {
    if f.Holding? then f.seen else map[]
  }

  /** What a process has in memory after opening the file. */
  function Loaded(f: File, ttl: int, now: int): Seen {
    Prune(Entries(f), now - ttl)
  }

  /** One `SeenOrRecord` on memory and file: `now1` and `now2` are its two clock reads. */
  function Call(m: Seen, f: File, ttl: int, job: string, now1: int, now2: int, flush: Flush): (Seen, File, Answer) {
    if LiveIn(m, job, ttl, now1) then (m, f, Duplicate)
    else
      var recorded := Prune(m, now2 - ttl)[job := now1];
      if flush.Renamed? then (recorded, Holding(recorded), Fresh)
      else (recorded - {job}, f, Failed)
  }

  class StateFile {
    var content: File

    constructor (content: File)
      ensures this.content == content
    {
      this.content := content;
    }
  }

  class Dedupe {
    const file: StateFile
    const ttl: int
    var seen: Seen

    constructor (file: StateFile, ttl: int, seen: Seen)
      ensures this.file == file && this.ttl == ttl && this.seen == seen
    {
      this.file, this.ttl, this.seen := file, ttl, seen;
    }

    /** Loads the file; only an unreadable file is an error, a garbled one starts empty. */
    static method Open(file: StateFile, ttl: int, now: int) returns (d: Dedupe?)
      ensures d == null <==> file.content.Unreadable?
      ensures d != null ==> fresh(d) && d.file == file && d.ttl == ttl
      ensures d != null ==> d.seen == Loaded(file.content, ttl, now)
      ensures unchanged(file)
    {
      match file.content {
        case Missing => d := new Dedupe(file, ttl, map[]);
        case Unreadable => d := null;
        case Garbled =>
          d := new Dedupe(file, ttl, map[]);
          d.PruneLocked(now);
        case Holding(m) =>
          d := new Dedupe(file, ttl, m);
          d.PruneLocked(now);
      }
    }

    /** Answers whether `job` was recorded within the TTL, and records it when it was not. */
    method SeenOrRecord(job: string, now1: int, now2: int, flush: Flush) returns (a: Answer)
      modifies this`seen, file
      ensures (seen, file.content, a) == Call(old(seen), old(file.content), ttl, job, now1, now2, flush)
    {
      if job in seen && now1 - seen[job] < ttl {
        return Duplicate;
      }
      PruneLocked(now2);
      seen := seen[job := now1];
      var ok := FlushLocked(flush);
      if !ok {
        seen := seen - {job};
        return Failed;
      }
      return Fresh;
    }

    /** Visits the entries in any order and deletes the ones older than the cutoff. */
    method PruneLocked(now: int)
      modifies this`seen
      ensures seen == Prune(old(seen), now - ttl)
    {
      var cutoff := now - ttl;
      var todo := seen.Keys;
      while todo != {}
        invariant todo <= seen.Keys <= old(seen).Keys
        invariant forall j :: j in old(seen) && (j in todo || old(seen)[j] >= cutoff) ==> j in seen
        invariant forall j :: j in seen ==> seen[j] == old(seen)[j] && (j in todo || seen[j] >= cutoff)
        decreases |todo|
      {
        var id :| id in todo;
        todo := todo - {id};
        if seen[id] < cutoff {
          seen := seen - {id};
        }
      }
    }

    /** Writes memory to a temporary file and renames it over the state file. */
    method FlushLocked(flush: Flush) returns (ok: bool)
      modifies file
      ensures ok <==> flush.Renamed?
      ensures file.content == if ok then Holding(seen) else old(file.content)
    {
      if flush.Renamed? {
        file.content := Holding(seen);
      }
      return flush.Renamed?;
    }
  }

  // ------------------------------------------------------------------------------------------
  // The log that is never pruned: one entry per record that reached the file.

  datatype Entry = Entry(job: string, at: int)

  predicate LiveInLog(log: seq<Entry>, job: string, ttl: int, t: int) {
    exists i :: 0 <= i < |log| && log[i].job == job && t - log[i].at < ttl
  }

  /** `m` answers every question about the present and the future as the log does. */
  ghost predicate Agrees(m: Seen, log: seq<Entry>, ttl: int, now: int) {
    forall j: string, t: int :: t >= now ==> (LiveIn(m, j, ttl, t) <==> LiveInLog(log, j, ttl, t))
  }

  lemma PruneKeepsTheFuture(m: Seen, ttl: int, now: int)
    ensures forall j: string, t: int :: t >= now ==> (LiveIn(Prune(m, now - ttl), j, ttl, t) <==> LiveIn(m, j, ttl, t))
  {
  }

  lemma LogGrows(log: seq<Entry>, e: Entry, j: string, ttl: int, t: int)
    ensures LiveInLog(log + [e], j, ttl, t) <==> LiveInLog(log, j, ttl, t) || (e.job == j && t - e.at < ttl)
  {
    if LiveInLog(log, j, ttl, t) {
      var i :| 0 <= i < |log| && log[i].job == j && t - log[i].at < ttl;
      assert (log + [e])[i] == log[i];
    }
    if e.job == j && t - e.at < ttl {
      assert (log + [e])[|log|] == e;
    }
  }

  lemma DeadStaysDead(log: seq<Entry>, j: string, ttl: int, t: int, t': int)
    requires t <= t' && !LiveInLog(log, j, ttl, t)
    ensures !LiveInLog(log, j, ttl, t')
  {
  }

  /** Recording a job the log holds dead keeps agreement, whichever copy of the map records it. */
  lemma RecordAgrees(m: Seen, log: seq<Entry>, ttl: int, job: string, at: int, now: int)
    requires at <= now && !LiveInLog(log, job, ttl, at)
    requires forall j: string, t: int :: j != job && t >= now ==> (LiveIn(m, j, ttl, t) <==> LiveInLog(log, j, ttl, t))
    ensures Agrees(m[job := at], log + [Entry(job, at)], ttl, now)
    ensures Agrees(m - {job}, log, ttl, now)
  {
    forall j: string, t: int | t >= now
      ensures LiveIn(m[job := at], j, ttl, t) <==> LiveInLog(log + [Entry(job, at)], j, ttl, t)
      ensures LiveIn(m - {job}, j, ttl, t) <==> LiveInLog(log, j, ttl, t)
    {
      LogGrows(log, Entry(job, at), j, ttl, t);
      DeadStaysDead(log, job, ttl, at, t);
      if j != job {
        assert LiveIn(m, j, ttl, t) <==> LiveInLog(log, j, ttl, t);
      }
    }
  }

  /**
   * The pruned map refines the log: a call answers `Duplicate` exactly when the log holds a live
   * entry, only a `Fresh` answer extends the log, and afterwards memory and file both agree with
   * the log from the second clock read on, also after a failed flush that was rolled back.
   */
  lemma CallRefinesLog(m: Seen, f: File, log: seq<Entry>, ttl: int, job: string, now1: int, now2: int, flush: Flush)
    requires now1 <= now2
    requires Agrees(m, log, ttl, now1) && Agrees(Entries(f), log, ttl, now1)
    ensures
      var (m', f', a) := Call(m, f, ttl, job, now1, now2, flush);
      var log' := if a.Fresh? then log + [Entry(job, now1)] else log;
      && (a.Duplicate? <==> LiveInLog(log, job, ttl, now1))
      && (a.Fresh? <==> !LiveInLog(log, job, ttl, now1) && flush.Renamed?)
      && Agrees(m', log', ttl, now2) && Agrees(Entries(f'), log', ttl, now2)
  {
    assert LiveIn(m, job, ttl, now1) <==> LiveInLog(log, job, ttl, now1);
    if !LiveIn(m, job, ttl, now1) {
      PruneKeepsTheFuture(m, ttl, now2);
      RecordAgrees(Prune(m, now2 - ttl), log, ttl, job, now1, now2);
      var pruned := Prune(m, now2 - ttl);
      assert pruned[job := now1] - {job} == pruned - {job};
    }
  }

  /** Reopening after a crash keeps agreement: pruning at load drops no entry that can still be live. */
  lemma OpenRefinesLog(f: File, log: seq<Entry>, ttl: int, now: int)
    requires Agrees(Entries(f), log, ttl, now)
    ensures Agrees(Loaded(f, ttl, now), log, ttl, now)
  {
    PruneKeepsTheFuture(Entries(f), ttl, now);
  }

  /**
   * Exactly when a prune at `now` forgets an entry that a question at `t` would still find live:
   * when the entry's window ends after `t` but before `now`, so only with a clock gone backwards.
   */
  lemma PruneForgetsIff(m: Seen, ttl: int, job: string, now: int, t: int)
    ensures LiveIn(m, job, ttl, t) && !LiveIn(Prune(m, now - ttl), job, ttl, t) <==>
      job in m && t < m[job] + ttl < now
  {
  }

  /**
   * The clock must not run backwards: with a 50 second window a job recorded at 100 is pruned by
   * another job's call at 200, and a clock that then reads 120 lets the first job run again.
   */
  lemma BackwardClockForgets()
    ensures
      var (m1, f1, a1) := Call(map[], Missing, 50, "a", 100, 100, Renamed);
      var (m2, f2, a2) := Call(m1, f1, 50, "b", 200, 200, Renamed);
      var (m3, f3, a3) := Call(m2, f2, 50, "a", 120, 120, Renamed);
      a1.Fresh? && a3.Fresh? && 120 - 100 < 50
  {
    var (m1, f1, a1) := Call(map[], Missing, 50, "a", 100, 100, Renamed);
    assert m1 == map["a" := 100];
    var (m2, f2, a2) := Call(m1, f1, 50, "b", 200, 200, Renamed);
    assert "a" != "b" by { assert "a"[0] != "b"[0]; }
    assert "a" !in m2;
  }
}
