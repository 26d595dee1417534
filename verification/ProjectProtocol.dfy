/**
 The project file of the cache protocol: which runs keep the key of every recorded entry, and which do not. How many
 copies of a key survive is the subject of CopyRuns, and what capping costs that of CapRuns.
 */
module ProjectProtocol {
  import opened Seqs
  import opened InstanceLog
  import opened CacheProtocol

  // ---- keys that no cut may remove ----

  /** Usage entries live for 30 days; an error lives for ever in a run that is not capped. */
  predicate Live(log: Log, clock: int, k: Key) { log == Usage ==> k.0 > clock - THIRTY_DAYS_MS }

  ghost function LiveKeys(log: Log, clock: int, s: seq<Entry>): set<Key> {
    set k | k in Keys(s) && Live(log, clock, k)
  }

  ghost function FileKeys(w: World, log: Log): set<Key> {
    LiveKeys(log, w.clock, Get(w.project.content, log))
  }

  ghost function MemKeys(w: World, p: nat, log: Log): set<Key>
    requires p < |w.procs|
  {
    LiveKeys(log, w.clock, Get(w.procs[p].mem.logs, log))
  }

  ghost predicate Synced(w: World, p: nat)
    requires p < |w.procs|
  {
    w.procs[p].lastProjectSync == Some(w.project.version)
  }

  lemma TrimKeepsLive(log: Log, cap: Option<nat>, clock: int, s: seq<Entry>)
    requires log == Errors ==> cap == None
    ensures LiveKeys(log, clock, Trim(log, cap, clock, s)) == LiveKeys(log, clock, s)
  {
    if log == Usage {
      CutMembers(s, clock - THIRTY_DAYS_MS);
      var c := Cut(s, clock - THIRTY_DAYS_MS);
      forall k | k in LiveKeys(log, clock, s) ensures k in LiveKeys(log, clock, c) {
        var e :| e in s && KeyOf(e) == k;
        assert e in c;
      }
    }
  }

  lemma MergedLiveKeys(log: Log, cap: Option<nat>, clock: int, disk: Logs, mem: Logs)
    requires log == Errors ==> cap == None
    ensures LiveKeys(log, clock, Merged(log, cap, clock, disk, mem)) ==
            LiveKeys(log, clock, Get(disk, log)) + LiveKeys(log, clock, Get(mem, log))
  {
    TrimKeepsLive(log, cap, clock, Join(Get(disk, log), Get(mem, log)));
    JoinKeys(Get(disk, log), Get(mem, log));
  }

  // ---- one save ----

  /** A save never drops what the saving process holds, and writes the union when the file is news to it. */
  lemma SaveWrites(w: World, p: nat, log: Log, cap: Option<nat>)
    requires p < |w.procs| && w.procs[p].scoped && (log == Errors ==> cap == None)
    ensures var own := LiveKeys(log, w.clock, Get(SavedMemory(w.procs[p], w.global).logs, log));
      && MemKeys(w, p, log) <= own
      && FileKeys(SaveStep(w, p, cap), log) == if Synced(w, p) then own else FileKeys(w, log) + own
    ensures MemKeys(SaveStep(w, p, cap), p, log)
            == LiveKeys(log, w.clock, Get(SavedMemory(w.procs[p], w.global).logs, log))
  {
    var mem := SavedMemory(w.procs[p], w.global);
    var disk := if Synced(w, p) then map[] else w.project.content;
    MergedLiveKeys(log, cap, w.clock, disk, mem.logs);
    assert SaveStep(w, p, cap).project.content[log] == Merged(log, cap, w.clock, disk, mem.logs);
  }

  /**
   Exactly when a save keeps every live key of the project file (errors: before the cap): when the
   file changed since the last sync, so that it is read back, or when memory covers it.
   */
  lemma SaveKeepsEntriesIff(w: World, p: nat, log: Log, cap: Option<nat>)
    requires p < |w.procs| && w.procs[p].scoped && (log == Errors ==> cap == None)
    ensures FileKeys(w, log) <= FileKeys(SaveStep(w, p, cap), log) <==>
            !Synced(w, p)
            || FileKeys(w, log) <= LiveKeys(log, w.clock, Get(SavedMemory(w.procs[p], w.global).logs, log))
  {
    SaveWrites(w, p, log, cap);
  }

  /**
   The save marks the file as synced without taking the merged arrays into memory, so that a second
   save in a row writes only what the process itself holds: foreign entries kept by the first are gone.
   */
  lemma SecondSaveForgets(w: World, p: nat, log: Log, cap: Option<nat>)
    requires p < |w.procs| && w.procs[p].scoped && !Synced(w, p) && (log == Errors ==> cap == None)
    ensures var once := SaveStep(w, p, cap);
      && FileKeys(w, log) <= FileKeys(once, log)
      && FileKeys(SaveStep(once, p, cap), log) == MemKeys(once, p, log)
      && MemKeys(once, p, log) == LiveKeys(log, w.clock, Get(SavedMemory(w.procs[p], w.global).logs, log))
  {
    SaveWrites(w, p, log, cap);
    SaveWrites(SaveStep(w, p, cap), p, log, cap);
  }

  ghost function TwoFreshProcesses(now: int): World {
    var start := Proc(Cache(map[], map[]), None, None, true);
    World([start, start], File(0, Cache(map[], map[])), File(0, map[]), now)
  }

  ghost function BothLoaded(now: int): World {
    var loaded := Proc(Cache(map[], map[]), Some(0), Some(0), true);
    World([loaded, loaded], File(0, Cache(map[], map[])), File(0, map[]), now)
  }

  /** The witness below starts from a reachable state: two fresh processes load while no file exists. */
  lemma BothLoadedIsReachable(now: int, cap: Option<nat>)
    ensures Next(Next(TwoFreshProcesses(now), Load(0), cap), Load(1), cap) == BothLoaded(now)
  {
  }

  /**
   A run that loses an entry: process 1 records `x` and saves, process 0 saves and `x` is still there,
   process 0 saves again and `x` is gone.
   */
  lemma TwoSavesLoseAnEntry(x: Entry, saved: World, kept: World)
    requires var pushed := Next(BothLoaded(x.ts), Push(1, Usage, x), Some(SESSION_ERROR_CAP));
             saved == Next(pushed, Save(1), Some(SESSION_ERROR_CAP))
    requires kept == Next(saved, Save(0), Some(SESSION_ERROR_CAP))
    ensures KeyOf(x) in FileKeys(saved, Usage) && KeyOf(x) in FileKeys(kept, Usage)
    ensures KeyOf(x) !in FileKeys(Next(kept, Save(0), Some(SESSION_ERROR_CAP)), Usage)
  {
    hide SaveStep, PushStep, FileKeys, MemKeys, Synced, LiveKeys, SavedMemory;
    var cap := Some(SESSION_ERROR_CAP);
    var pushed := PushStep(BothLoaded(x.ts), 1, Usage, x, cap);
    SameProcesses(BothLoaded(x.ts), 1, Usage, x, cap);
    SameProcesses(pushed, 1, Usage, x, cap);
    RecordAndSave(x, cap);
    SameProcesses(saved, 0, Usage, x, cap);
    SecondSaveForgets(saved, 0, Usage, cap);
    NothingLive(x.ts);
  }

  lemma OwnEntryInMemory(x: Entry, cap: Option<nat>)
    ensures KeyOf(x) in MemKeys(PushStep(BothLoaded(x.ts), 1, Usage, x, cap), 1, Usage)
  {
  }

  lemma SameProcesses(w: World, p: nat, log: Log, e: Entry, cap: Option<nat>)
    requires p < |w.procs|
    ensures |PushStep(w, p, log, e, cap).procs| == |w.procs| && PushStep(w, p, log, e, cap).clock == w.clock
    ensures |SaveStep(w, p, cap).procs| == |w.procs| && SaveStep(w, p, cap).clock == w.clock
  {
  }

  lemma NothingLive(now: int)
    ensures LiveKeys(Usage, now, []) == {}
  {
  }

  lemma RecordAndSave(x: Entry, cap: Option<nat>)
    ensures var w := SaveStep(PushStep(BothLoaded(x.ts), 1, Usage, x, cap), 1, cap);
      && KeyOf(x) in FileKeys(w, Usage)
      && w.procs[0] == BothLoaded(x.ts).procs[0] && !Synced(w, 0)
      && Get(SavedMemory(w.procs[0], w.global).logs, Usage) == []
  {
    var w := PushStep(BothLoaded(x.ts), 1, Usage, x, cap);
    OwnEntryInMemory(x, cap);
    SameProcesses(BothLoaded(x.ts), 1, Usage, x, cap);
    assert w.procs[1].scoped;
    hide LiveKeys;
    SaveWrites(w, 1, Usage, cap);
    OtherProcessAfterSave(w, cap);
  }

  lemma OtherProcessAfterSave(w: World, cap: Option<nat>)
    requires |w.procs| == 2 && w.procs[0] == BothLoaded(w.clock).procs[0] && w.procs[1].scoped
    requires w.global == File(0, Cache(map[], map[])) && w.project == File(0, map[])
    ensures var w' := SaveStep(w, 1, cap);
      && w'.procs[0] == w.procs[0] && !Synced(w', 0)
      && Get(SavedMemory(w'.procs[0], w'.global).logs, Usage) == []
  {
  }

  // ---- whole runs ----

  /** Memory covers the project file whenever the process has seen its current version. */
  ghost predicate MemoryCoversFile(w: World, log: Log) {
    forall p :: 0 <= p < |w.procs| && w.procs[p].scoped ==>
      && (w.procs[p].lastProjectSync.Some? ==> w.procs[p].lastProjectSync.value <= w.project.version)
      && (Synced(w, p) ==> FileKeys(w, log) <= MemKeys(w, p, log))
  }

  /** Every save of a project-scoped process is made while that process has seen the file's current version. */
  ghost predicate SavesInSync(w: World, steps: seq<Step>, cap: Option<nat>)
    decreases |steps|
  {
    steps != [] ==>
      && (steps[0].Save? && steps[0].p < |w.procs| && w.procs[steps[0].p].scoped ==> Synced(w, steps[0].p))
      && SavesInSync(Next(w, steps[0], cap), steps[1..], cap)
  }

  lemma LoadCovers(w: World, p: nat, log: Log, cap: Option<nat>)
    requires p < |w.procs| && (log == Errors ==> cap == None)
    ensures var w' := LoadStep(w, p, cap);
      && MemKeys(w, p, log) <= MemKeys(w', p, log)
      && (w.procs[p].scoped ==> Synced(w', p))
      && (w.procs[p].scoped && !Synced(w, p) ==> FileKeys(w', log) <= MemKeys(w', p, log))
  {
    hide Live, Merged;
    var g := LoadGlobal(w.procs[p], w.global);
    assert Get(w.procs[p].mem.logs, log) == [] || Get(g.mem.logs, log) == Get(w.procs[p].mem.logs, log);
    if g.scoped && !Synced(w, p) {
      MergedLiveKeys(log, cap, w.clock, w.project.content, g.mem.logs);
    }
  }

  /** The step keeps coverage, and every live key of the file and of each memory. */
  ghost predicate KeysKept(w: World, w': World, log: Log) {
    && |w'.procs| == |w.procs| && w.clock <= w'.clock
    && MemoryCoversFile(w', log)
    && LiveKeys(log, w'.clock, Get(w.project.content, log)) <= FileKeys(w', log)
    && (forall p :: 0 <= p < |w.procs| ==>
          LiveKeys(log, w'.clock, Get(w.procs[p].mem.logs, log)) <= MemKeys(w', p, log))
  }

  lemma PushKeepsCoverage(w: World, p: nat, l: Log, e: Entry, log: Log, cap: Option<nat>)
    requires log == Errors ==> cap == None
    requires p < |w.procs| && MemoryCoversFile(w, log)
    ensures KeysKept(w, PushStep(w, p, l, e, cap), log)
    ensures l == log && Live(log, w.clock, KeyOf(e)) ==> KeyOf(e) in MemKeys(PushStep(w, p, l, e, cap), p, log)
  {
    var w' := PushStep(w, p, l, e, cap);
    if l == log {
      var s := Get(w.procs[p].mem.logs, log);
      TrimKeepsLive(log, cap, w.clock, s + [e]);
      KeysConcat(s, [e]);
      assert e in [e];
    }
    assert MemKeys(w, p, log) <= MemKeys(w', p, log);
    forall q | 0 <= q < |w.procs| && q != p ensures w'.procs[q] == w.procs[q] {
    }
  }

  lemma SaveKeepsCoverage(w: World, p: nat, log: Log, cap: Option<nat>)
    requires log == Errors ==> cap == None
    requires p < |w.procs| && MemoryCoversFile(w, log)
    requires w.procs[p].scoped ==> Synced(w, p)
    ensures KeysKept(w, SaveStep(w, p, cap), log)
    ensures w.procs[p].scoped ==> MemKeys(w, p, log) <= FileKeys(SaveStep(w, p, cap), log)
  {
    var w' := SaveStep(w, p, cap);
    var mem := SavedMemory(w.procs[p], w.global);
    assert Get(w.procs[p].mem.logs, log) == [] || Get(mem.logs, log) == Get(w.procs[p].mem.logs, log);
    if w.procs[p].scoped { SaveWrites(w, p, log, cap); }
    forall q | 0 <= q < |w.procs| && q != p ensures w'.procs[q] == w.procs[q] {
    }
  }

  lemma LoadKeepsCoverage(w: World, p: nat, log: Log, cap: Option<nat>)
    requires log == Errors ==> cap == None
    requires p < |w.procs| && MemoryCoversFile(w, log)
    ensures KeysKept(w, LoadStep(w, p, cap), log)
    ensures w.procs[p].scoped ==> Synced(LoadStep(w, p, cap), p)
  {
    LoadCovers(w, p, log, cap);
    var w' := LoadStep(w, p, cap);
    forall q | 0 <= q < |w.procs| && q != p ensures w'.procs[q] == w.procs[q] {
    }
  }

  lemma StepKeepsCoverage(w: World, step: Step, log: Log, cap: Option<nat>)
    requires log == Errors ==> cap == None
    requires MemoryCoversFile(w, log)
    requires step.Save? && step.p < |w.procs| && w.procs[step.p].scoped ==> Synced(w, step.p)
    ensures KeysKept(w, Next(w, step, cap), log)
  {
    match step
    case Load(p) => if p < |w.procs| { LoadKeepsCoverage(w, p, log, cap); }
    case Save(p) => if p < |w.procs| { SaveKeepsCoverage(w, p, log, cap); }
    case Push(p, l, e) => if p < |w.procs| { PushKeepsCoverage(w, p, l, e, log, cap); }
    case Put(p, k, v) =>
    case Tick(ms) =>
      forall p | 0 <= p < |w.procs| && w.procs[p].scoped && Synced(w, p)
        ensures FileKeys(Next(w, step, cap), log) <= MemKeys(Next(w, step, cap), p, log)
      {
        LiveShrinks(log, w.clock, w.clock + ms, Get(w.project.content, log), Get(w.procs[p].mem.logs, log));
      }
  }

  lemma KeysKeptTransitive(a: World, b: World, c: World, log: Log)
    requires KeysKept(a, b, log) && KeysKept(b, c, log)
    ensures KeysKept(a, c, log)
  {
    LiveShrinks(log, b.clock, c.clock, Get(a.project.content, log), Get(b.project.content, log));
    forall p | 0 <= p < |a.procs|
      ensures LiveKeys(log, c.clock, Get(a.procs[p].mem.logs, log)) <= MemKeys(c, p, log)
    {
      LiveShrinks(log, b.clock, c.clock, Get(a.procs[p].mem.logs, log), Get(b.procs[p].mem.logs, log));
    }
  }

  /**
   Every run whose saves are made in sync keeps each live key of the project file and of every memory: no key goes
   except by the 30-day cut (errors: in the uncapped run).
   */
  lemma {:induction false} SyncedRunsKeepKeys(w: World, steps: seq<Step>, log: Log, cap: Option<nat>)
    requires log == Errors ==> cap == None
    requires MemoryCoversFile(w, log) && SavesInSync(w, steps, cap)
    ensures KeysKept(w, Run(w, steps, cap), log)
    decreases |steps|
  {
    hide Next, KeysKept, MemoryCoversFile, Synced;
    if steps == [] {
      KeysKeptYet(w, log);
    } else {
      var w1 := Next(w, steps[0], cap);
      StepKeepsCoverage(w, steps[0], log, cap);
      KeysKeptCovers(w, w1, log);
      SyncedRunsKeepKeys(w1, steps[1..], log, cap);
      KeysKeptTransitive(w, w1, Run(w, steps, cap), log);
    }
  }

  lemma KeysKeptYet(w: World, log: Log)
    requires MemoryCoversFile(w, log)
    ensures KeysKept(w, w, log)
  {
  }

  lemma KeysKeptCovers(w: World, w': World, log: Log)
    requires KeysKept(w, w', log)
    ensures MemoryCoversFile(w', log)
  {
  }

  /** The step drops no live key from the project file. */
  ghost predicate KeepsFile(w: World, step: Step, log: Log, cap: Option<nat>) {
    LiveKeys(log, Next(w, step, cap).clock, Get(w.project.content, log)) <= FileKeys(Next(w, step, cap), log)
  }

  ghost predicate KeepsFileThroughout(w: World, steps: seq<Step>, log: Log, cap: Option<nat>)
    decreases |steps|
  {
    steps != [] ==>
      && KeepsFile(w, steps[0], log, cap)
      && KeepsFileThroughout(Next(w, steps[0], cap), steps[1..], log, cap)
  }

  /** Each scoped save finds the file changed since the last sync, or memory that covers it. */
  ghost predicate SavesReadOrCover(w: World, steps: seq<Step>, log: Log, cap: Option<nat>)
    decreases |steps|
  {
    steps != [] ==>
      && (steps[0].Save? && steps[0].p < |w.procs| && w.procs[steps[0].p].scoped ==>
            !Synced(w, steps[0].p) ||
            FileKeys(w, log) <= LiveKeys(log, w.clock, Get(SavedMemory(w.procs[steps[0].p], w.global).logs, log)))
      && SavesReadOrCover(Next(w, steps[0], cap), steps[1..], log, cap)
  }

  /** No step of a run drops a live key from the file exactly when each save reads the file or covers it. */
  lemma {:induction false} RunKeepsFileIff(w: World, steps: seq<Step>, log: Log, cap: Option<nat>)
    requires log == Errors ==> cap == None
    ensures KeepsFileThroughout(w, steps, log, cap) <==> SavesReadOrCover(w, steps, log, cap)
    decreases |steps|
  {
    hide Synced, FileKeys, LiveKeys, KeepsFile, SavedMemory, Next;
    if steps != [] {
      RunKeepsFileIff(Next(w, steps[0], cap), steps[1..], log, cap);
      StepKeepsFileIff(w, steps[0], log, cap);
    }
  }

  lemma StepKeepsFileIff(w: World, step: Step, log: Log, cap: Option<nat>)
    requires log == Errors ==> cap == None
    ensures KeepsFile(w, step, log, cap) <==>
            (step.Save? && step.p < |w.procs| && w.procs[step.p].scoped ==>
               !Synced(w, step.p) ||
               FileKeys(w, log) <= LiveKeys(log, w.clock, Get(SavedMemory(w.procs[step.p], w.global).logs, log)))
  {
    if step.Save? && step.p < |w.procs| && w.procs[step.p].scoped {
      SaveKeepsEntriesIff(w, step.p, log, cap);
      SaveKeepsClock(w, step.p, cap);
    }
  }

  lemma SaveKeepsClock(w: World, p: nat, cap: Option<nat>)
    requires p < |w.procs|
    ensures SaveStep(w, p, cap).clock == w.clock
  {
  }

  // ---- ways to save in sync ----

  /** Every save directly follows a load of the same process; `loaded` is the process that just loaded. */
  predicate LoadsBeforeSaving(steps: seq<Step>, loaded: Option<nat>)
    decreases |steps|
  {
    steps != [] ==>
      && (steps[0].Save? ==> loaded == Some(steps[0].p))
      && LoadsBeforeSaving(steps[1..], if steps[0].Load? then Some(steps[0].p) else None)
  }

  lemma LoadSyncs(w: World, p: nat, cap: Option<nat>)
    requires p < |w.procs|
    ensures w.procs[p].scoped ==> Synced(LoadStep(w, p, cap), p)
  {
  }

  lemma {:induction false} LoadingBeforeSavingIsInSync(
    w: World, steps: seq<Step>, loaded: Option<nat>, cap: Option<nat>)
    requires LoadsBeforeSaving(steps, loaded)
    requires loaded.Some? && loaded.value < |w.procs| && w.procs[loaded.value].scoped ==> Synced(w, loaded.value)
    ensures SavesInSync(w, steps, cap)
    decreases |steps|
  {
    if steps != [] {
      if steps[0].Load? && steps[0].p < |w.procs| { LoadSyncs(w, steps[0].p, cap); }
      LoadingBeforeSavingIsInSync(
        Next(w, steps[0], cap), steps[1..], if steps[0].Load? then Some(steps[0].p) else None, cap);
    }
  }

  /** One process per project: only `p` has this project file. */
  ghost predicate Alone(w: World, p: nat) {
    p < |w.procs| && forall q :: 0 <= q < |w.procs| && q != p ==> !w.procs[q].scoped
  }

  lemma AloneStaysInSync(w: World, p: nat, step: Step, cap: Option<nat>)
    requires Alone(w, p) && Synced(w, p)
    ensures Alone(Next(w, step, cap), p) && Synced(Next(w, step, cap), p)
  {
  }

  lemma {:induction false} AloneIsInSync(w: World, p: nat, steps: seq<Step>, cap: Option<nat>)
    requires Alone(w, p) && Synced(w, p)
    ensures SavesInSync(w, steps, cap)
    decreases |steps|
  {
    if steps != [] {
      hide Next;
      AloneStaysInSync(w, p, steps[0], cap);
      AloneIsInSync(Next(w, steps[0], cap), p, steps[1..], cap);
    }
  }

  /** One process per project that loads once loses no key, however it pushes and saves afterwards. */
  lemma OneProcessKeepsKeys(w: World, p: nat, steps: seq<Step>, log: Log, cap: Option<nat>)
    requires log == Errors ==> cap == None
    requires Alone(w, p) && w.procs[p].scoped && MemoryCoversFile(w, log)
    ensures KeysKept(w, Run(LoadStep(w, p, cap), steps, cap), log)
  {
    var loaded := LoadStep(w, p, cap);
    LoadKeepsCoverage(w, p, log, cap);
    AloneIsInSync(loaded, p, steps, cap);
    SyncedRunsKeepKeys(loaded, steps, log, cap);
    KeysKeptTransitive(w, loaded, Run(loaded, steps, cap), log);
  }

  // ---- cutting a run in two ----

  lemma {:induction false} RunConcat(w: World, a: seq<Step>, b: seq<Step>, cap: Option<nat>)
    ensures Run(w, a + b, cap) == Run(Run(w, a, cap), b, cap)
    ensures SavesInSync(w, a + b, cap) <==> SavesInSync(w, a, cap) && SavesInSync(Run(w, a, cap), b, cap)
    decreases |a|
  {
    hide Next, Synced;
    if a == [] {
      assert a + b == b;
    } else {
      assert (a + b)[1..] == a[1..] + b;
      RunConcat(Next(w, a[0], cap), a[1..], b, cap);
    }
  }

  lemma LiveShrinks(log: Log, early: int, late: int, a: seq<Entry>, b: seq<Entry>)
    requires early <= late && LiveKeys(log, early, a) <= LiveKeys(log, early, b)
    ensures LiveKeys(log, late, a) <= LiveKeys(log, late, b)
  {
    forall k | k in LiveKeys(log, late, a) ensures k in LiveKeys(log, late, b) {
      assert k in LiveKeys(log, early, a);
    }
  }

  /**
   * The key of an entry that a process records and later saves, in a run that saves in sync, is in the file at the
   * end.
   */
  lemma RecordedKeysReachTheFile(w: World, steps: seq<Step>, i: nat, j: nat, log: Log, cap: Option<nat>)
    requires log == Errors ==> cap == None
    requires MemoryCoversFile(w, log) && SavesInSync(w, steps, cap)
    requires i < j < |steps| && steps[i].Push? && steps[i].log == log && steps[j] == Save(steps[i].p)
    requires steps[i].p < |w.procs| && w.procs[steps[i].p].scoped
    requires Live(log, Run(w, steps, cap).clock, KeyOf(steps[i].entry))
    ensures KeyOf(steps[i].entry) in FileKeys(Run(w, steps, cap), log)
  {
    hide Run, SavesInSync, LiveKeys, MemoryCoversFile, KeysKept, Live;
    var p, e := steps[i].p, steps[i].entry;
    var before, between, after := steps[..i], steps[i + 1..j], steps[j + 1..];
    assert steps == before + ([steps[i]] + (between + ([steps[j]] + after)));
    var w0 := Run(w, before, cap);
    RunConcat(w, before, [steps[i]] + (between + ([steps[j]] + after)), cap);
    SyncedRunsKeepKeys(w, before, log, cap);
    KeysKeptCovers(w, w0, log);
    RunKeepsScope(w, before, p, cap);
    RunStep(w0, steps[i], between + ([steps[j]] + after), cap);
    PushKeepsCoverage(w0, p, log, e, log, cap);
    var w1 := PushStep(w0, p, log, e, cap);
    KeysKeptCovers(w0, w1, log);
    RunConcat(w1, between, [steps[j]] + after, cap);
    SyncedRunsKeepKeys(w1, between, log, cap);
    RunKeepsScope(w1, between, p, cap);
    var mid := Run(w1, between, cap);
    KeysKeptCovers(w1, mid, log);
    RunStep(mid, steps[j], after, cap);
    SaveKeepsCoverage(mid, p, log, cap);
    var saved := SaveStep(mid, p, cap);
    KeysKeptCovers(mid, saved, log);
    SyncedRunsKeepKeys(saved, after, log, cap);
    StillLive(w1, mid, saved, Run(saved, after, cap), p, log, KeyOf(e), w0);
  }

  lemma RunStep(w: World, step: Step, rest: seq<Step>, cap: Option<nat>)
    ensures Run(w, [step] + rest, cap) == Run(Next(w, step, cap), rest, cap)
    ensures SavesInSync(w, [step] + rest, cap) ==>
              SavesInSync(Next(w, step, cap), rest, cap) &&
              (step.Save? && step.p < |w.procs| && w.procs[step.p].scoped ==> Synced(w, step.p))
  {
    assert ([step] + rest)[1..] == rest;
  }

  lemma StillLive(w1: World, mid: World, saved: World, end: World, p: nat, log: Log, k: Key, w: World)
    requires p < |w1.procs| && KeysKept(w1, mid, log) && KeysKept(saved, end, log)
    requires mid.clock == saved.clock && w.clock == w1.clock && MemKeys(mid, p, log) <= FileKeys(saved, log)
    requires Live(log, w.clock, k) ==> k in MemKeys(w1, p, log)
    requires Live(log, end.clock, k)
    ensures k in FileKeys(end, log)
  {
    assert Live(log, w.clock, k) && Live(log, mid.clock, k);
    assert k in LiveKeys(log, mid.clock, Get(w1.procs[p].mem.logs, log));
    assert k in LiveKeys(log, end.clock, Get(saved.project.content, log));
  }

  lemma {:induction false} RunKeepsScope(w: World, steps: seq<Step>, p: nat, cap: Option<nat>)
    requires p < |w.procs|
    ensures p < |Run(w, steps, cap).procs| && Run(w, steps, cap).procs[p].scoped == w.procs[p].scoped
    decreases |steps|
  {
    if steps != [] { RunKeepsScope(Next(w, steps[0], cap), steps[1..], p, cap); }
  }
}
