/**
 Capping the error ring at every load, push and save costs nothing over whole runs: the file of the
 capped run is at every point the newest entries of the file of a run that never caps.
 */
module CapRuns {
  import opened Seqs
  import opened InstanceLog
  import opened CacheProtocol
  import opened ProjectProtocol

  const CAP: nat := SESSION_ERROR_CAP

  /** Capped and uncapped arrays agree on usage, and on the newest CAP errors. */
  ghost predicate LogsAgree(a: Logs, b: Logs, hist: set<Entry>) {
    && a.Keys == b.Keys
    && (Usage in a ==> a[Usage] == b[Usage])
    && (Errors in a ==>
          Drawn(a[Errors], hist) && Drawn(b[Errors], hist) && Newest(CAP, a[Errors]) == Newest(CAP, b[Errors]))
  }

  ghost predicate CachesAgree(a: Cache, b: Cache, hist: set<Entry>) {
    a.keys == b.keys && LogsAgree(a.logs, b.logs, hist)
  }

  ghost predicate ProcsAgree(a: Proc, b: Proc, hist: set<Entry>) {
    && CachesAgree(a.mem, b.mem, hist)
    && a.lastSync == b.lastSync && a.lastProjectSync == b.lastProjectSync && a.scoped == b.scoped
  }

  /** The capped world `w` and the uncapped world `v`; `hist` holds every error recorded so far. */
  ghost predicate Agree(w: World, v: World, hist: set<Entry>) {
    && OnePerTimestamp(hist)
    && |w.procs| == |v.procs| && w.clock == v.clock
    && (forall p :: 0 <= p < |w.procs| ==> ProcsAgree(w.procs[p], v.procs[p], hist))
    && w.global.version == v.global.version && CachesAgree(w.global.content, v.global.content, hist)
    && w.project.version == v.project.version && LogsAgree(w.project.content, v.project.content, hist)
    && |Get(w.project.content, Errors)| <= CAP
  }

  /** Each recorded error is newer than every error before it: one clock, one error per millisecond. */
  ghost predicate InOrder(steps: seq<Step>, hist: set<Entry>)
    decreases |steps|
  {
    steps != [] ==>
      && (steps[0].Push? && steps[0].log == Errors ==> forall h :: h in hist ==> h.ts < steps[0].entry.ts)
      && InOrder(steps[1..], Recorded(steps[0], hist))
  }

  function Recorded(step: Step, hist: set<Entry>): set<Entry> {
    if step.Push? && step.log == Errors then hist + {step.entry} else hist
  }

  ghost function AllRecorded(steps: seq<Step>, hist: set<Entry>): set<Entry>
    decreases |steps|
  {
    if steps == [] then hist else AllRecorded(steps[1..], Recorded(steps[0], hist))
  }

  lemma UnionAgrees(a: Logs, b: Logs, c: Logs, d: Logs, hist: set<Entry>)
    requires LogsAgree(a, b, hist) && LogsAgree(c, d, hist)
    ensures LogsAgree(a + c, b + d, hist)
  {
  }

  lemma MergedAgree(clock: int, disk: Logs, disk': Logs, mem: Logs, mem': Logs, hist: set<Entry>)
    requires OnePerTimestamp(hist) && LogsAgree(disk, disk', hist) && LogsAgree(mem, mem', hist)
    ensures Merged(Usage, Some(CAP), clock, disk, mem) == Merged(Usage, None, clock, disk', mem')
    ensures var a, b := Merged(Errors, Some(CAP), clock, disk, mem), Merged(Errors, None, clock, disk', mem');
      Drawn(a, hist) && Drawn(b, hist) && Newest(CAP, a) == Newest(CAP, b) && |a| <= CAP
  {
    var d, d', m, m' := Get(disk, Errors), Get(disk', Errors), Get(mem, Errors), Get(mem', Errors);
    JoinDrawn(d, m, hist);
    JoinDrawn(d', m', hist);
    NewestDrawn(CAP, Join(d, m), hist);
    NewestTwice(CAP, Join(d, m));
    JoinRespectsNewest(CAP, d, d', m, m', hist);
  }

  lemma LoadInstanceAgrees(a: Proc, b: Proc, f: File<Logs>, g: File<Logs>, clock: int, hist: set<Entry>)
    requires OnePerTimestamp(hist) && ProcsAgree(a, b, hist)
    requires f.version == g.version && LogsAgree(f.content, g.content, hist)
    ensures ProcsAgree(LoadInstance(a, f, clock, Some(CAP)), LoadInstance(b, g, clock, None), hist)
  {
    if a.scoped && a.lastProjectSync != Some(f.version) {
      MergedAgree(clock, f.content, g.content, a.mem.logs, b.mem.logs, hist);
      var o := map log | log in f.content :: Merged(log, Some(CAP), clock, f.content, a.mem.logs);
      var o' := map log | log in g.content :: Merged(log, None, clock, g.content, b.mem.logs);
      assert LogsAgree(o, o', hist);
      UnionAgrees(a.mem.logs, b.mem.logs, o, o', hist);
    }
  }

  lemma LoadGlobalAgrees(a: Proc, b: Proc, f: File<Cache>, g: File<Cache>, hist: set<Entry>)
    requires ProcsAgree(a, b, hist) && f.version == g.version && CachesAgree(f.content, g.content, hist)
    ensures ProcsAgree(LoadGlobal(a, f), LoadGlobal(b, g), hist)
  {
    hide Drawn, Newest;
    UnionAgrees(f.content.logs, g.content.logs, a.mem.logs, b.mem.logs, hist);
    assert a.mem.logs == map[] <==> a.mem.logs.Keys == {};
    assert b.mem.logs == map[] <==> b.mem.logs.Keys == {};
  }

  lemma LoadAgrees(w: World, v: World, p: nat, hist: set<Entry>)
    requires Agree(w, v, hist) && p < |w.procs|
    ensures Agree(LoadStep(w, p, Some(CAP)), LoadStep(v, p, None), hist)
  {
    LoadGlobalAgrees(w.procs[p], v.procs[p], w.global, v.global, hist);
    LoadInstanceAgrees(LoadGlobal(w.procs[p], w.global), LoadGlobal(v.procs[p], v.global),
                       w.project, v.project, w.clock, hist);
  }

  lemma SavedMemoryAgrees(a: Proc, b: Proc, f: File<Cache>, g: File<Cache>, hist: set<Entry>)
    requires ProcsAgree(a, b, hist) && f.version == g.version && CachesAgree(f.content, g.content, hist)
    ensures CachesAgree(SavedMemory(a, f), SavedMemory(b, g), hist)
    ensures CachesAgree(GlobalPart(a, SavedMemory(a, f)), GlobalPart(b, SavedMemory(b, g)), hist)
  {
  }

  lemma ProjectPartAgrees(
    a: Proc, b: Proc, m: Cache, m': Cache, f: File<Logs>, g: File<Logs>, clock: int, hist: set<Entry>)
    requires OnePerTimestamp(hist) && a.lastProjectSync == b.lastProjectSync && CachesAgree(m, m', hist)
    requires f.version == g.version && LogsAgree(f.content, g.content, hist)
    ensures LogsAgree(ProjectPart(a, m, f, clock, Some(CAP)), ProjectPart(b, m', g, clock, None), hist)
    ensures |Get(ProjectPart(a, m, f, clock, Some(CAP)), Errors)| <= CAP
  {
    hide Merged, Newest, Drawn, OnePerTimestamp;
    var disk := if a.lastProjectSync == Some(f.version) then map[] else f.content;
    var disk' := if a.lastProjectSync == Some(f.version) then map[] else g.content;
    MergedAgree(clock, disk, disk', m.logs, m'.logs, hist);
  }

  lemma SaveAgrees(w: World, v: World, p: nat, hist: set<Entry>)
    requires Agree(w, v, hist) && p < |w.procs|
    ensures Agree(SaveStep(w, p, Some(CAP)), SaveStep(v, p, None), hist)
  {
    hide LogsAgree, ProjectPart, SavedMemory, GlobalPart;
    var a, b := w.procs[p], v.procs[p];
    SavedMemoryAgrees(a, b, w.global, v.global, hist);
    ProjectPartAgrees(a, b, SavedMemory(a, w.global), SavedMemory(b, v.global), w.project, v.project, w.clock, hist);
  }

  lemma NewestAppend(n: nat, s: seq<Entry>, e: Entry)
    requires n > 0
    ensures Newest(n, s + [e]) == Newest(n, Newest(n, s) + [e])
  {
  }

  lemma PushAgrees(w: World, v: World, p: nat, log: Log, e: Entry, hist: set<Entry>)
    requires Agree(w, v, hist) && p < |w.procs|
    requires log == Errors ==> forall h :: h in hist ==> h.ts < e.ts
    ensures Agree(PushStep(w, p, log, e, Some(CAP)), PushStep(v, p, log, e, None), Recorded(Push(p, log, e), hist))
  {
    hide LogsAgree, Trim;
    var more := Recorded(Push(p, log, e), hist);
    WorldGrows(w, v, hist, more);
    PushedLogsAgree(w.procs[p].mem.logs, v.procs[p].mem.logs, log, e, w.clock, hist);
  }

  lemma PushedLogsAgree(a: Logs, b: Logs, log: Log, e: Entry, clock: int, hist: set<Entry>)
    requires LogsAgree(a, b, hist)
    requires log == Errors ==> forall h :: h in hist ==> h.ts < e.ts
    ensures LogsAgree(a[log := Trim(log, Some(CAP), clock, Get(a, log) + [e])],
                      b[log := Trim(log, None, clock, Get(b, log) + [e])],
                      Recorded(Push(0, log, e), hist))
  {
    hide Drawn, Newest;
    if log == Errors {
      var s, t := Get(a, Errors), Get(b, Errors);
      AppendDrawn(s, e, hist);
      AppendDrawn(t, e, hist);
      NewestAppend(CAP, s, e);
      NewestAppend(CAP, t, e);
      NewestTwice(CAP, s + [e]);
      NewestDrawn(CAP, s + [e], hist + {e});
    }
  }

  lemma AppendDrawn(s: seq<Entry>, e: Entry, hist: set<Entry>)
    requires Drawn(s, hist) && forall h :: h in hist ==> h.ts < e.ts
    ensures Drawn(s + [e], hist + {e})
  {
  }

  lemma WorldGrows(w: World, v: World, hist: set<Entry>, more: set<Entry>)
    requires Agree(w, v, hist) && hist <= more && OnePerTimestamp(more)
    ensures Agree(w, v, more)
  {
  }

  lemma PutAgrees(w: World, v: World, p: nat, k: string, val: Value, hist: set<Entry>)
    requires Agree(w, v, hist)
    ensures Agree(Next(w, Put(p, k, val), Some(CAP)), Next(v, Put(p, k, val), None), hist)
  {
    hide LogsAgree;
  }

  lemma TickAgrees(w: World, v: World, ms: nat, hist: set<Entry>)
    requires Agree(w, v, hist)
    ensures Agree(Next(w, Tick(ms), Some(CAP)), Next(v, Tick(ms), None), hist)
  {
    hide ProcsAgree, CachesAgree, LogsAgree;
  }

  /** A step of a process that does not exist. */
  lemma NobodyAgrees(w: World, v: World, step: Step, hist: set<Entry>)
    requires Agree(w, v, hist) && !step.Tick? && step.p >= |w.procs|
    requires step.Push? && step.log == Errors ==> forall h :: h in hist ==> h.ts < step.entry.ts
    ensures Agree(Next(w, step, Some(CAP)), Next(v, step, None), Recorded(step, hist))
  {
    WorldGrows(w, v, hist, Recorded(step, hist));
    SameCount(w, v, hist);
    hide Agree, OnePerTimestamp;
  }

  lemma SameCount(w: World, v: World, hist: set<Entry>)
    requires Agree(w, v, hist)
    ensures |w.procs| == |v.procs|
  {
  }

  lemma StepAgrees(w: World, v: World, step: Step, hist: set<Entry>)
    requires Agree(w, v, hist)
    requires step.Push? && step.log == Errors ==> forall h :: h in hist ==> h.ts < step.entry.ts
    ensures Agree(Next(w, step, Some(CAP)), Next(v, step, None), Recorded(step, hist))
  {
    SameCount(w, v, hist);
    hide Agree, LoadStep, SaveStep, PushStep;
    match step
    case Load(p) => if p < |w.procs| { LoadAgrees(w, v, p, hist); } else { NobodyAgrees(w, v, step, hist); }
    case Save(p) => if p < |w.procs| { SaveAgrees(w, v, p, hist); } else { NobodyAgrees(w, v, step, hist); }
    case Push(p, log, e) =>
      if p < |w.procs| { PushAgrees(w, v, p, log, e, hist); } else { NobodyAgrees(w, v, step, hist); }
    case Put(p, k, val) => PutAgrees(w, v, p, k, val, hist);
    case Tick(ms) => TickAgrees(w, v, ms, hist);
  }

  /** Processes that have recorded nothing yet agree with themselves on any file of one error per millisecond. */
  lemma FreshWorldAgrees(w: World, hist: set<Entry>)
    requires OnePerTimestamp(hist) && w.global.content.logs == map[]
    requires forall p :: 0 <= p < |w.procs| ==> w.procs[p].mem.logs == map[]
    requires Drawn(Get(w.project.content, Errors), hist) && |Get(w.project.content, Errors)| <= CAP
    ensures Agree(w, w, hist)
  {
  }

  /** In every interleaving the capped error file holds exactly the newest CAP errors of the uncapped one. */
  lemma {:induction false} CappedFileIsNewestOfUncapped(w: World, v: World, steps: seq<Step>, hist: set<Entry>)
    requires Agree(w, v, hist) && InOrder(steps, hist)
    ensures Agree(Run(w, steps, Some(CAP)), Run(v, steps, None), AllRecorded(steps, hist))
    ensures Get(Run(w, steps, Some(CAP)).project.content, Errors) ==
            Newest(CAP, Get(Run(v, steps, None).project.content, Errors))
    decreases |steps|
  {
    if steps != [] {
      StepAgrees(w, v, steps[0], hist);
      CappedFileIsNewestOfUncapped(
        Next(w, steps[0], Some(CAP)), Next(v, steps[0], None), steps[1..], Recorded(steps[0], hist));
    }
  }

  /** The capped and the uncapped run see the same versions, so they save in sync together. */
  lemma {:induction false} SameSyncs(w: World, v: World, steps: seq<Step>, hist: set<Entry>)
    requires Agree(w, v, hist) && InOrder(steps, hist)
    ensures SavesInSync(w, steps, Some(CAP)) <==> SavesInSync(v, steps, None)
    decreases |steps|
  {
    if steps != [] {
      SyncedAlike(w, v, steps[0], hist);
      StepAgrees(w, v, steps[0], hist);
      hide Agree, Next, Synced;
      SameSyncs(Next(w, steps[0], Some(CAP)), Next(v, steps[0], None), steps[1..], Recorded(steps[0], hist));
    }
  }

  lemma SyncedAlike(w: World, v: World, step: Step, hist: set<Entry>)
    requires Agree(w, v, hist)
    ensures |w.procs| == |v.procs|
    ensures step.Save? && step.p < |w.procs| ==>
              (w.procs[step.p].scoped <==> v.procs[step.p].scoped) && (Synced(w, step.p) <==> Synced(v, step.p))
  {
    hide LogsAgree;
    if step.Save? && step.p < |w.procs| { assert ProcsAgree(w.procs[step.p], v.procs[step.p], hist); }
  }

  /** Step `i` records an error that step `j` of the same process saves. */
  ghost predicate RecordedAndSaved(w: World, steps: seq<Step>, i: nat, j: nat) {
    && i < j < |steps| && steps[i].Push? && steps[i].log == Errors && steps[j] == Save(steps[i].p)
    && steps[i].p < |w.procs| && w.procs[steps[i].p].scoped
  }

  /**
   When saves are made in sync the error file is the newest CAP entries of a log from which no error was ever lost:
   neither one in the file at the start nor one recorded and saved during the run.
   */
  lemma DisciplinedErrorFile(w: World, steps: seq<Step>, hist: set<Entry>, i: nat, j: nat)
    requires Agree(w, w, hist) && InOrder(steps, hist)
    requires MemoryCoversFile(w, Errors) && SavesInSync(w, steps, Some(CAP))
    ensures var all := Get(Run(w, steps, None).project.content, Errors);
      && Get(Run(w, steps, Some(CAP)).project.content, Errors) == Newest(CAP, all)
      && Keys(Get(w.project.content, Errors)) <= Keys(all)
      && (RecordedAndSaved(w, steps, i, j) ==> KeyOf(steps[i].entry) in Keys(all))
  {
    CappedFileIsNewestOfUncapped(w, w, steps, hist);
    SameSyncs(w, w, steps, hist);
    SyncedRunsKeepKeys(w, steps, Errors, None);
    var w' := Run(w, steps, None);
    hide Agree, Run, SavesInSync, MemoryCoversFile;
    forall k | k in Keys(Get(w.project.content, Errors)) ensures k in Keys(Get(w'.project.content, Errors)) {
      assert k in LiveKeys(Errors, w'.clock, Get(w.project.content, Errors));
    }
    if RecordedAndSaved(w, steps, i, j) { RecordedKeysReachTheFile(w, steps, i, j, Errors, None); }
  }
}
