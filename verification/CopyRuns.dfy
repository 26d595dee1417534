/**
 How many copies of an entry survive: two real events of one millisecond can have one key, and src/cache.ts
 promises to keep both. Everything here is about one log and one key; the errors are those of a run without the cap.
 */
module CopyRuns {
  import opened Seqs
  import opened InstanceLog
  import opened CacheProtocol
  import opened ProjectProtocol

  function FileCopies(w: World, log: Log, k: Key): nat {
    Count(Get(w.project.content, log), k)
  }

  function MemCopies(w: World, p: nat, log: Log, k: Key): nat
    requires p < |w.procs|
  {
    Count(Get(w.procs[p].mem.logs, log), k)
  }

  /** The copies in the memory a save writes: legacy entries of the global file fill a log the memory lacks. */
  function OwnCopies(w: World, p: nat, log: Log, k: Key): nat
    requires p < |w.procs|
  {
    Count(Get(SavedMemory(w.procs[p], w.global).logs, log), k)
  }

  // ---- what one step does to the copies of a key ----

  lemma {:induction false} CountCut(s: seq<Entry>, cutoff: int, k: Key)
    ensures Count(Cut(s, cutoff), k) == if k.0 > cutoff then Count(s, k) else 0
  {
    if s != [] {
      var n := |s| - 1;
      CountCut(s[..n], cutoff, k);
      CountConcat(Cut(s[..n], cutoff), if s[n].ts > cutoff then [s[n]] else [], k);
      assert Count([s[n]][..0], k) == 0;
    }
  }

  lemma TrimCopies(log: Log, cap: Option<nat>, clock: int, s: seq<Entry>, k: Key)
    requires (log == Errors ==> cap == None) && Live(log, clock, k)
    ensures Count(Trim(log, cap, clock, s), k) == Count(s, k)
  {
    if log == Usage { CountCut(s, clock - THIRTY_DAYS_MS, k); }
  }

  lemma MergedCopies(log: Log, cap: Option<nat>, clock: int, disk: Logs, mem: Logs, k: Key)
    requires (log == Errors ==> cap == None) && Live(log, clock, k)
    ensures var onDisk := Count(Get(disk, log), k);
      Count(Merged(log, cap, clock, disk, mem), k) == if onDisk > 0 then onDisk else Count(Get(mem, log), k)
  {
    TrimCopies(log, cap, clock, Join(Get(disk, log), Get(mem, log)), k);
    JoinCounts(Get(disk, log), Get(mem, log), k);
    CountZero(Get(disk, log), k);
  }

  /** A scoped save writes the saving process's copies, unless it reads the file and finds some there. */
  lemma SaveCopies(w: World, p: nat, log: Log, cap: Option<nat>, k: Key)
    requires p < |w.procs| && w.procs[p].scoped
    requires (log == Errors ==> cap == None) && Live(log, w.clock, k)
    ensures var w' := SaveStep(w, p, cap);
      && FileCopies(w', log, k)
          == (if Synced(w, p) || FileCopies(w, log, k) == 0 then OwnCopies(w, p, log, k) else FileCopies(w, log, k))
  {
    var mem := SavedMemory(w.procs[p], w.global);
    var disk := if Synced(w, p) then map[] else w.project.content;
    MergedCopies(log, cap, w.clock, disk, mem.logs, k);
    assert SaveStep(w, p, cap).project.content[log] == Merged(log, cap, w.clock, disk, mem.logs);
  }

  /** A load of news sets the copies in memory to those of the file, if it has any. */
  lemma LoadCopies(w: World, p: nat, log: Log, cap: Option<nat>, k: Key)
    requires p < |w.procs| && (log == Errors ==> cap == None) && Live(log, w.clock, k)
    ensures var w' := LoadStep(w, p, cap);
      var had := Count(Get(LoadGlobal(w.procs[p], w.global).mem.logs, log), k);
      MemCopies(w', p, log, k) ==
        if w.procs[p].scoped && !Synced(w, p) && FileCopies(w, log, k) > 0 then FileCopies(w, log, k) else had
  {
    hide Merged, LoadGlobal;
    var g := LoadGlobal(w.procs[p], w.global);
    if w.procs[p].scoped && !Synced(w, p) {
      assert g.scoped && g.lastProjectSync == w.procs[p].lastProjectSync by { GlobalHalf(w, p); }
      MergedCopies(log, cap, w.clock, w.project.content, g.mem.logs, k);
    } else {
      GlobalHalf(w, p);
    }
  }

  lemma GlobalHalf(w: World, p: nat)
    requires p < |w.procs|
    ensures var g := LoadGlobal(w.procs[p], w.global);
      g.scoped == w.procs[p].scoped && g.lastProjectSync == w.procs[p].lastProjectSync
  {
  }

  /** The global file only fills in a log the memory lacks. */
  lemma GlobalAddsOnly(w: World, p: nat, log: Log, k: Key)
    requires p < |w.procs|
    ensures var had := Count(Get(LoadGlobal(w.procs[p], w.global).mem.logs, log), k);
      MemCopies(w, p, log, k) == 0 || had == MemCopies(w, p, log, k)
    ensures MemCopies(w, p, log, k) == 0 || OwnCopies(w, p, log, k) == MemCopies(w, p, log, k)
  {
  }

  lemma PushCopies(w: World, p: nat, l: Log, e: Entry, log: Log, cap: Option<nat>, k: Key)
    requires p < |w.procs| && (log == Errors ==> cap == None) && Live(log, w.clock, k)
    ensures MemCopies(PushStep(w, p, l, e, cap), p, log, k)
            == MemCopies(w, p, log, k) + if l == log && KeyOf(e) == k then 1 else 0
  {
    if l == log {
      var s := Get(w.procs[p].mem.logs, log);
      TrimCopies(log, cap, w.clock, s + [e], k);
      assert (s + [e])[..|s|] == s;
    }
  }

  // ---- exactly which steps and runs lose a copy ----

  /** No copy of a live key leaves the file or a memory. */
  ghost predicate KeepsCopies(w: World, w': World, log: Log, k: Key) {
    |w'.procs| == |w.procs| && w.clock <= w'.clock &&
    (Live(log, w'.clock, k) ==>
       && FileCopies(w, log, k) <= FileCopies(w', log, k)
       && forall p :: 0 <= p < |w.procs| ==> MemCopies(w, p, log, k) <= MemCopies(w', p, log, k))
  }

  /**
   Before the step: a load meets news with fewer copies than memory has, or a save that does not read the file has fewer
   copies than the file.
   */
  ghost predicate Drops(w: World, step: Step, log: Log, k: Key) {
    match step
    case Load(p) =>
      p < |w.procs| && w.procs[p].scoped && !Synced(w, p) && Live(log, w.clock, k) &&
      0 < FileCopies(w, log, k) < MemCopies(w, p, log, k)
    case Save(p) =>
      p < |w.procs| && w.procs[p].scoped && Synced(w, p) && Live(log, w.clock, k) &&
      OwnCopies(w, p, log, k) < FileCopies(w, log, k)
    case _ => false
  }

  lemma OthersKeep(w: World, p: nat, cap: Option<nat>)
    requires p < |w.procs|
    ensures forall q :: 0 <= q < |w.procs| && q != p ==> LoadStep(w, p, cap).procs[q] == w.procs[q]
    ensures forall q :: 0 <= q < |w.procs| && q != p ==> SaveStep(w, p, cap).procs[q] == w.procs[q]
  {
  }

  lemma SaveLeavesProject(w: World, p: nat, cap: Option<nat>)
    requires p < |w.procs|
    ensures var w' := SaveStep(w, p, cap);
      && |w'.procs| == |w.procs| && w'.clock == w.clock && w'.procs[p].scoped == w.procs[p].scoped
      && w'.procs[p].mem == SavedMemory(w.procs[p], w.global)
      && (if w.procs[p].scoped then w'.project.version == w.project.version + 1 && Synced(w', p)
          else w'.project == w.project)
  {
  }

  lemma LoadKeepsCopiesIff(w: World, p: nat, log: Log, cap: Option<nat>, k: Key)
    requires p < |w.procs| && (log == Errors ==> cap == None)
    ensures KeepsCopies(w, LoadStep(w, p, cap), log, k) <==> !Drops(w, Load(p), log, k)
  {
    hide LoadGlobal, LoadInstance, Synced;
    var w' := LoadStep(w, p, cap);
    if Live(log, w.clock, k) {
      LoadCopies(w, p, log, cap, k);
      GlobalAddsOnly(w, p, log, k);
    }
  }

  lemma SaveKeepsCopiesIff(w: World, p: nat, log: Log, cap: Option<nat>, k: Key)
    requires p < |w.procs| && (log == Errors ==> cap == None)
    ensures KeepsCopies(w, SaveStep(w, p, cap), log, k) <==> !Drops(w, Save(p), log, k)
  {
    var w' := SaveStep(w, p, cap);
    OthersKeep(w, p, cap);
    GlobalAddsOnly(w, p, log, k);
    SaveLeavesProject(w, p, cap);
    hide Live, SavedMemory, SaveStep, Count;
    if Live(log, w.clock, k) && w.procs[p].scoped { SaveCopies(w, p, log, cap, k); }
  }

  lemma PushLeaves(w: World, p: nat, log: Log, e: Entry, cap: Option<nat>)
    requires p < |w.procs|
    ensures var w' := PushStep(w, p, log, e, cap);
      && |w'.procs| == |w.procs| && w'.clock == w.clock && w'.project == w.project
      && w'.procs[p].scoped == w.procs[p].scoped && w'.procs[p].lastProjectSync == w.procs[p].lastProjectSync
      && forall q :: 0 <= q < |w.procs| && q != p ==> w'.procs[q] == w.procs[q]
  {
  }

  lemma PushKeepsCopies(w: World, p: nat, l: Log, e: Entry, log: Log, cap: Option<nat>, k: Key)
    requires p < |w.procs| && (log == Errors ==> cap == None)
    ensures KeepsCopies(w, PushStep(w, p, l, e, cap), log, k)
  {
    PushLeaves(w, p, l, e, cap);
    hide PushStep, Live, Count;
    if Live(log, w.clock, k) { PushCopies(w, p, l, e, log, cap, k); }
  }

  lemma StepKeepsCopiesIff(w: World, step: Step, log: Log, cap: Option<nat>, k: Key)
    requires log == Errors ==> cap == None
    ensures KeepsCopies(w, Next(w, step, cap), log, k) <==> !Drops(w, step, log, k)
  {
    hide SaveStep, LoadStep, PushStep;
    match step
    case Load(p) => if p < |w.procs| { LoadKeepsCopiesIff(w, p, log, cap, k); }
    case Save(p) => if p < |w.procs| { SaveKeepsCopiesIff(w, p, log, cap, k); }
    case Push(p, l, e) =>
      if p < |w.procs| { PushKeepsCopies(w, p, l, e, log, cap, k); }
    case Put(p, _, _) =>
    case Tick(_) =>
  }

  ghost predicate KeepsCopiesThroughout(w: World, steps: seq<Step>, log: Log, cap: Option<nat>, k: Key)
    decreases |steps|
  {
    steps != [] ==>
      && KeepsCopies(w, Next(w, steps[0], cap), log, k)
      && KeepsCopiesThroughout(Next(w, steps[0], cap), steps[1..], log, cap, k)
  }

  ghost predicate NeverDrops(w: World, steps: seq<Step>, log: Log, cap: Option<nat>, k: Key)
    decreases |steps|
  {
    steps != [] ==> !Drops(w, steps[0], log, k) && NeverDrops(Next(w, steps[0], cap), steps[1..], log, cap, k)
  }

  /** No step of a run loses a copy, from the file or from any memory, exactly when none meets the condition. */
  lemma {:induction false} RunKeepsCopiesIff(w: World, steps: seq<Step>, log: Log, cap: Option<nat>, k: Key)
    requires log == Errors ==> cap == None
    ensures KeepsCopiesThroughout(w, steps, log, cap, k) <==> NeverDrops(w, steps, log, cap, k)
    decreases |steps|
  {
    hide KeepsCopies, Drops, Next;
    if steps != [] {
      StepKeepsCopiesIff(w, steps[0], log, cap, k);
      RunKeepsCopiesIff(Next(w, steps[0], cap), steps[1..], log, cap, k);
    }
  }

  lemma KeepsCopiesTransitive(a: World, b: World, c: World, log: Log, k: Key)
    requires KeepsCopies(a, b, log, k) && KeepsCopies(b, c, log, k)
    ensures KeepsCopies(a, c, log, k)
  {
    hide FileCopies, MemCopies;
    assert Live(log, c.clock, k) ==> Live(log, b.clock, k);
  }

  lemma {:induction false} KeptToTheEnd(w: World, steps: seq<Step>, log: Log, cap: Option<nat>, k: Key)
    requires KeepsCopiesThroughout(w, steps, log, cap, k)
    ensures KeepsCopies(w, Run(w, steps, cap), log, k)
    decreases |steps|
  {
    if steps != [] {
      hide KeepsCopies, Next;
      KeptToTheEnd(Next(w, steps[0], cap), steps[1..], log, cap, k);
      KeepsCopiesTransitive(w, Next(w, steps[0], cap), Run(w, steps, cap), log, k);
    }
  }

  // ---- runs that save in sync ----

  /** A process that has seen the current file has at least as many copies as the file. */
  ghost predicate CopiesCover(w: World, log: Log, k: Key) {
    forall p :: 0 <= p < |w.procs| && w.procs[p].scoped ==>
      && (w.procs[p].lastProjectSync.Some? ==> w.procs[p].lastProjectSync.value <= w.project.version)
      && (Synced(w, p) && Live(log, w.clock, k) ==> FileCopies(w, log, k) <= MemCopies(w, p, log, k))
  }

  /** The file keeps its copies; memories may not. */
  ghost predicate KeepsFileCopies(w: World, w': World, log: Log, k: Key) {
    |w'.procs| == |w.procs| && w.clock <= w'.clock &&
    (Live(log, w'.clock, k) ==> FileCopies(w, log, k) <= FileCopies(w', log, k))
  }

  lemma LoadKeepsCover(w: World, p: nat, log: Log, cap: Option<nat>, k: Key)
    requires (log == Errors ==> cap == None) && p < |w.procs| && CopiesCover(w, log, k)
    ensures CopiesCover(LoadStep(w, p, cap), log, k) && KeepsFileCopies(w, LoadStep(w, p, cap), log, k)
  {
    OthersKeep(w, p, cap);
    LoadSyncs(w, p, cap);
    GlobalHalf(w, p);
    hide LoadGlobal;
    if Live(log, w.clock, k) {
      LoadCopies(w, p, log, cap, k);
      GlobalAddsOnly(w, p, log, k);
    }
  }

  /** A save in sync writes at least the copies in memory. */
  lemma SaveKeepsCover(w: World, p: nat, log: Log, cap: Option<nat>, k: Key)
    requires (log == Errors ==> cap == None) && p < |w.procs| && CopiesCover(w, log, k)
    requires w.procs[p].scoped ==> Synced(w, p)
    ensures CopiesCover(SaveStep(w, p, cap), log, k) && KeepsFileCopies(w, SaveStep(w, p, cap), log, k)
    ensures w.procs[p].scoped && Live(log, w.clock, k) ==>
              MemCopies(w, p, log, k) <= FileCopies(SaveStep(w, p, cap), log, k)
  {
    OthersKeep(w, p, cap);
    GlobalAddsOnly(w, p, log, k);
    SaveLeavesProject(w, p, cap);
    hide SavedMemory, SaveStep, Count;
    if Live(log, w.clock, k) && w.procs[p].scoped { SaveCopies(w, p, log, cap, k); }
  }

  lemma PushKeepsCover(w: World, p: nat, l: Log, e: Entry, log: Log, cap: Option<nat>, k: Key)
    requires (log == Errors ==> cap == None) && p < |w.procs| && CopiesCover(w, log, k)
    ensures CopiesCover(PushStep(w, p, l, e, cap), log, k) && KeepsFileCopies(w, PushStep(w, p, l, e, cap), log, k)
  {
    PushLeaves(w, p, l, e, cap);
    PushKeepsCopies(w, p, l, e, log, cap, k);
    hide PushStep, MemCopies, Live;
    assert FileCopies(PushStep(w, p, l, e, cap), log, k) == FileCopies(w, log, k);
  }

  lemma StepKeepsCover(w: World, step: Step, log: Log, cap: Option<nat>, k: Key)
    requires (log == Errors ==> cap == None) && CopiesCover(w, log, k)
    requires step.Save? && step.p < |w.procs| && w.procs[step.p].scoped ==> Synced(w, step.p)
    ensures CopiesCover(Next(w, step, cap), log, k) && KeepsFileCopies(w, Next(w, step, cap), log, k)
  {
    hide SaveStep, LoadStep, PushStep;
    match step
    case Load(p) => if p < |w.procs| { LoadKeepsCover(w, p, log, cap, k); }
    case Save(p) => if p < |w.procs| { SaveKeepsCover(w, p, log, cap, k); }
    case Push(p, l, e) => if p < |w.procs| { PushKeepsCover(w, p, l, e, log, cap, k); }
    case Put(p, _, _) =>
    case Tick(_) =>
  }

  /** Runs that save in sync never lose a copy from the file. */
  lemma {:induction false} SyncedRunsKeepFileCopies(w: World, steps: seq<Step>, log: Log, cap: Option<nat>, k: Key)
    requires (log == Errors ==> cap == None) && CopiesCover(w, log, k) && SavesInSync(w, steps, cap)
    ensures CopiesCover(Run(w, steps, cap), log, k) && KeepsFileCopies(w, Run(w, steps, cap), log, k)
    decreases |steps|
  {
    hide Next, CopiesCover, Synced;
    if steps != [] {
      StepKeepsCover(w, steps[0], log, cap, k);
      SyncedRunsKeepFileCopies(Next(w, steps[0], cap), steps[1..], log, cap, k);
    }
  }

  /** Every real event reaches the file: a process that records an entry and later saves adds a copy of its own. */
  lemma RecordedCopiesReachTheFile(w: World, steps: seq<Step>, i: nat, j: nat, log: Log, cap: Option<nat>)
    requires log == Errors ==> cap == None
    requires i < j < |steps| && steps[i].Push? && steps[i].log == log && steps[j] == Save(steps[i].p)
    requires steps[i].p < |w.procs| && w.procs[steps[i].p].scoped
    requires var k := KeyOf(steps[i].entry);
      && CopiesCover(w, log, k) && SavesInSync(w, steps, cap) && NeverDrops(w, steps, log, cap, k)
      && Live(log, Run(w, steps, cap).clock, k)
    ensures var k, before := KeyOf(steps[i].entry), Run(w, steps[..i], cap);
      && |before.procs| == |w.procs|
      && MemCopies(before, steps[i].p, log, k) + 1 <= FileCopies(Run(w, steps, cap), log, k)
  {
    hide Run, SavesInSync, CopiesCover, NeverDrops, KeepsCopies, Live, MemCopies, FileCopies;
    var p, e := steps[i].p, steps[i].entry;
    var k := KeyOf(e);
    var before, between, after := steps[..i], steps[i + 1..j], steps[j + 1..];
    assert steps == before + ([steps[i]] + (between + ([steps[j]] + after)));
    var w0 := Run(w, before, cap);
    CutInTwo(w, before, [steps[i]] + (between + ([steps[j]] + after)), log, cap, k);
    RunKeepsScope(w, before, p, cap);
    var w1 := PushStep(w0, p, log, e, cap);
    CutStep(w0, steps[i], between + ([steps[j]] + after), log, cap, k);
    CutInTwo(w1, between, [steps[j]] + after, log, cap, k);
    RunKeepsScope(w1, between, p, cap);
    var mid := Run(w1, between, cap);
    CutStep(mid, steps[j], after, log, cap, k);
    var saved := SaveStep(mid, p, cap);
    SyncedRunsKeepFileCopies(saved, after, log, cap, k);
    assert KeepsFileCopies(saved, Run(saved, after, cap), log, k);
    CopiesPushedAndSaved(w0, w1, mid, saved, Run(saved, after, cap), p, e, log, cap);
  }

  /** The first part of a run keeps coverage and, if nothing is dropped, every copy. */
  lemma CutInTwo(w: World, a: seq<Step>, b: seq<Step>, log: Log, cap: Option<nat>, k: Key)
    requires (log == Errors ==> cap == None) && CopiesCover(w, log, k)
    requires SavesInSync(w, a + b, cap) && NeverDrops(w, a + b, log, cap, k)
    ensures var mid := Run(w, a, cap);
      && CopiesCover(mid, log, k) && KeepsCopies(w, mid, log, k) && Run(w, a + b, cap) == Run(mid, b, cap)
      && |mid.procs| == |w.procs|
      && SavesInSync(mid, b, cap) && NeverDrops(mid, b, log, cap, k)
  {
    hide Next, CopiesCover, Synced, Drops, KeepsCopies;
    RunConcat(w, a, b, cap);
    DropsConcat(w, a, b, log, cap, k);
    SyncedRunsKeepFileCopies(w, a, log, cap, k);
    RunKeepsCopiesIff(w, a, log, cap, k);
    KeptToTheEnd(w, a, log, cap, k);
  }

  lemma {:induction false} DropsConcat(w: World, a: seq<Step>, b: seq<Step>, log: Log, cap: Option<nat>, k: Key)
    ensures NeverDrops(w, a + b, log, cap, k) <==>
            NeverDrops(w, a, log, cap, k) && NeverDrops(Run(w, a, cap), b, log, cap, k)
    decreases |a|
  {
    hide Next, Drops;
    if a == [] {
      assert a + b == b;
    } else {
      assert (a + b)[1..] == a[1..] + b;
      DropsConcat(Next(w, a[0], cap), a[1..], b, log, cap, k);
    }
  }

  lemma CutStep(w: World, step: Step, rest: seq<Step>, log: Log, cap: Option<nat>, k: Key)
    requires (log == Errors ==> cap == None) && CopiesCover(w, log, k)
    requires SavesInSync(w, [step] + rest, cap) && NeverDrops(w, [step] + rest, log, cap, k)
    ensures var w' := Next(w, step, cap);
      && CopiesCover(w', log, k) && SavesInSync(w', rest, cap) && NeverDrops(w', rest, log, cap, k)
      && Run(w, [step] + rest, cap) == Run(w', rest, cap)
      && (step.Save? && step.p < |w.procs| && w.procs[step.p].scoped ==> Synced(w, step.p))
  {
    hide Next, CopiesCover, Synced, Drops;
    RunStep(w, step, rest, cap);
    assert ([step] + rest)[1..] == rest;
    StepKeepsCover(w, step, log, cap, k);
  }

  lemma CopiesPushedAndSaved(
    w0: World, w1: World, mid: World, saved: World, end: World, p: nat, e: Entry, log: Log, cap: Option<nat>)
    requires (log == Errors ==> cap == None) && p < |w0.procs| && p < |mid.procs| && mid.procs[p].scoped
            && Synced(mid, p)
    requires w1 == PushStep(w0, p, log, e, cap) && saved == SaveStep(mid, p, cap)
    requires var k := KeyOf(e);
      && CopiesCover(mid, log, k) && KeepsCopies(w1, mid, log, k) && KeepsFileCopies(saved, end, log, k)
      && Live(log, end.clock, k)
    ensures MemCopies(w0, p, log, KeyOf(e)) + 1 <= FileCopies(end, log, KeyOf(e))
  {
    var k := KeyOf(e);
    hide SaveStep, PushStep, CopiesCover, MemCopies, FileCopies;
    assert saved.clock == mid.clock by { SaveKeepsClock(mid, p, cap); }
    assert w1.clock == w0.clock by { SameProcesses(w0, p, log, e, cap); }
    assert Live(log, mid.clock, k) && Live(log, w0.clock, k);
    PushCopies(w0, p, log, e, log, cap, k);
    SaveKeepsCover(mid, p, log, cap, k);
  }

  /** One process per project that loads once loses no copy, however it pushes and saves afterwards. */
  lemma OneProcessKeepsCopies(w: World, p: nat, steps: seq<Step>, log: Log, cap: Option<nat>, k: Key)
    requires (log == Errors ==> cap == None) && Alone(w, p) && w.procs[p].scoped && CopiesCover(w, log, k)
    ensures KeepsCopiesThroughout(LoadStep(w, p, cap), steps, log, cap, k)
  {
    hide LoadStep;
    LoadKeepsCover(w, p, log, cap, k);
    AloneAfterLoad(w, p, cap);
    AloneNeverDrops(LoadStep(w, p, cap), p, steps, log, cap, k);
    RunKeepsCopiesIff(LoadStep(w, p, cap), steps, log, cap, k);
  }

  lemma AloneAfterLoad(w: World, p: nat, cap: Option<nat>)
    requires Alone(w, p) && w.procs[p].scoped
    ensures Alone(LoadStep(w, p, cap), p) && Synced(LoadStep(w, p, cap), p)
  {
  }

  lemma {:induction false} AloneNeverDrops(w: World, p: nat, steps: seq<Step>, log: Log, cap: Option<nat>, k: Key)
    requires (log == Errors ==> cap == None) && Alone(w, p) && Synced(w, p) && CopiesCover(w, log, k)
    ensures NeverDrops(w, steps, log, cap, k)
    decreases |steps|
  {
    if steps != [] {
      hide Next;
      AloneStaysInSync(w, p, steps[0], cap);
      StepKeepsCover(w, steps[0], log, cap, k);
      AloneDoesNotDrop(w, p, steps[0], log, k);
      AloneNeverDrops(Next(w, steps[0], cap), p, steps[1..], log, cap, k);
    }
  }

  lemma AloneDoesNotDrop(w: World, p: nat, step: Step, log: Log, k: Key)
    requires Alone(w, p) && Synced(w, p) && CopiesCover(w, log, k)
    ensures !Drops(w, step, log, k)
  {
    if step.Save? && step.p < |w.procs| { GlobalAddsOnly(w, step.p, log, k); }
  }

  // ---- a run that loses a real event ----

  lemma LoadLeaves(w: World, p: nat, cap: Option<nat>)
    requires p < |w.procs| && w.procs[p].scoped
    ensures var w' := LoadStep(w, p, cap);
      && |w'.procs| == |w.procs| && w'.clock == w.clock && w'.project == w.project
      && w'.procs[p].scoped && Synced(w', p)
      && forall q :: 0 <= q < |w.procs| && q != p ==> w'.procs[q] == w.procs[q]
  {
  }

  lemma NothingYet(x: Entry)
    ensures var w := BothLoaded(x.ts);
      FileCopies(w, Usage, KeyOf(x)) == MemCopies(w, 0, Usage, KeyOf(x)) == 0
  {
  }

  /** A save is news for a process that had seen the file before it. */
  lemma NewsFor(w: World, w': World, q: nat)
    requires q < |w.procs| && q < |w'.procs| && w'.procs[q].lastProjectSync == w.procs[q].lastProjectSync
    requires Synced(w, q) && w'.project.version == w.project.version + 1
    ensures !Synced(w', q)
  {
  }

  lemma SyncedHere(w: World, w': World, q: nat)
    requires q < |w.procs| && q < |w'.procs| && w'.procs[q].lastProjectSync == w.procs[q].lastProjectSync
    requires w'.project.version == w.project.version
    ensures Synced(w', q) == Synced(w, q)
  {
  }

  lemma SavedCopies(w: World, w': World, p: nat, log: Log, k: Key)
    requires p < |w.procs| && p < |w'.procs| && w'.procs[p].mem == SavedMemory(w.procs[p], w.global)
    ensures MemCopies(w', p, log, k) == OwnCopies(w, p, log, k)
  {
  }

  lemma SameMemory(w: World, w': World, p: nat, log: Log, k: Key)
    requires p < |w.procs| && p < |w'.procs| && w'.procs[p] == w.procs[p]
    ensures MemCopies(w', p, log, k) == MemCopies(w, p, log, k)
  {
  }

  /** Process 0 records and saves; process 1 loads that and saves. */
  lemma FirstEvent(w: World, x: Entry, cap: Option<nat>) returns (w4: World)
    requires w == BothLoaded(x.ts)
    ensures w4 == Run(w, [Push(0, Usage, x), Save(0), Load(1), Save(1)], cap)
    ensures |w4.procs| == 2 && w4.clock == x.ts && w4.procs[0].scoped && !Synced(w4, 0)
    ensures MemCopies(w4, 0, Usage, KeyOf(x)) == 1 && FileCopies(w4, Usage, KeyOf(x)) == 1
    ensures SavesInSync(w, [Push(0, Usage, x), Save(0), Load(1), Save(1)], cap)
  {
    hide PushStep, SaveStep, LoadStep, MemCopies, FileCopies, OwnCopies, SavedMemory;
    var k := KeyOf(x);
    assert w.clock == x.ts && Synced(w, 0) && Synced(w, 1) && w.procs[0].scoped && w.procs[1].scoped;
    NothingYet(x);
    hide BothLoaded, Synced;
    var w1 := PushStep(w, 0, Usage, x, cap);
    PushLeaves(w, 0, Usage, x, cap);
    PushCopies(w, 0, Usage, x, Usage, cap, k);
    SameFile(w, w1, 0, Usage, k);
    SameFile(w, w1, 1, Usage, k);
    var w2 := SaveStep(w1, 0, cap);
    SaveLeavesProject(w1, 0, cap);
    OthersKeep(w1, 0, cap);
    SaveCopies(w1, 0, Usage, cap, k);
    GlobalAddsOnly(w1, 0, Usage, k);
    NewsFor(w1, w2, 1);
    SavedCopies(w1, w2, 0, Usage, k);
    var w3 := LoadStep(w2, 1, cap);
    LoadLeaves(w2, 1, cap);
    LoadCopies(w2, 1, Usage, cap, k);
    w4 := SaveStep(w3, 1, cap);
    SaveLeavesProject(w3, 1, cap);
    OthersKeep(w3, 1, cap);
    GlobalAddsOnly(w3, 1, Usage, k);
    SaveCopies(w3, 1, Usage, cap, k);
    SameMemory(w2, w4, 0, Usage, k);
    SyncedHere(w2, w3, 0);
    NewsFor(w3, w4, 0);
    assert [Push(0, Usage, x), Save(0), Load(1), Save(1)] == [Push(0, Usage, x), Save(0)] + [Load(1), Save(1)];
    LastTwo(w, Push(0, Usage, x), Save(0), cap);
    LastTwo(w2, Load(1), Save(1), cap);
    RunConcat(w, [Push(0, Usage, x), Save(0)], [Load(1), Save(1)], cap);
    OneInSync(w, Push(0, Usage, x), cap);
    OneInSync(w1, Save(0), cap);
    OneInSync(w2, Load(1), cap);
    OneInSync(w3, Save(1), cap);
  }

  /**
   Process 0 records two real events of one millisecond with one key, saving in between. Process 1 only loads and saves.
   After its next load process 0 has one copy left, and so has the file after its next save, although every save was
   made in sync.
   */
  lemma SecondRealEventIsLost(x: Entry, cap: Option<nat>)
    ensures var steps := [Push(0, Usage, x), Save(0), Load(1), Save(1), Push(0, Usage, x), Load(0)];
      var w := BothLoaded(x.ts);
      var recorded, loaded := Run(w, steps[..5], cap), Run(w, steps, cap);
      && SavesInSync(w, steps, cap) && |recorded.procs| == |loaded.procs| == 2
      && MemCopies(recorded, 0, Usage, KeyOf(x)) == 2
      && MemCopies(loaded, 0, Usage, KeyOf(x)) == 1
      && FileCopies(SaveStep(loaded, 0, cap), Usage, KeyOf(x)) == 1
  {
    hide PushStep, SaveStep, LoadStep, MemCopies, FileCopies, OwnCopies, Synced, BothLoaded, SavesInSync;
    var w, k := BothLoaded(x.ts), KeyOf(x);
    var four := [Push(0, Usage, x), Save(0), Load(1), Save(1)];
    var w4 := FirstEvent(w, x, cap);
    var w5 := PushStep(w4, 0, Usage, x, cap);
    PushLeaves(w4, 0, Usage, x, cap);
    PushCopies(w4, 0, Usage, x, Usage, cap, k);
    assert !Synced(w5, 0) && FileCopies(w5, Usage, k) == 1 by { SameFile(w4, w5, 0, Usage, k); }
    var w6 := LoadStep(w5, 0, cap);
    LoadLeaves(w5, 0, cap);
    LoadCopies(w5, 0, Usage, cap, k);
    GlobalAddsOnly(w6, 0, Usage, k);
    SaveCopies(w6, 0, Usage, cap, k);
    var steps := [Push(0, Usage, x), Save(0), Load(1), Save(1), Push(0, Usage, x), Load(0)];
    assert steps == four + [Push(0, Usage, x), Load(0)];
    assert steps[..5] == four + [Push(0, Usage, x)];
    RunConcat(w, four, [Push(0, Usage, x)], cap);
    RunConcat(w, four, [Push(0, Usage, x), Load(0)], cap);
    LastTwo(w4, Push(0, Usage, x), Load(0), cap);
    OneInSync(w4, Push(0, Usage, x), cap);
    OneInSync(w5, Load(0), cap);
  }

  lemma SameFile(w: World, w': World, p: nat, log: Log, k: Key)
    requires p < |w.procs| && p < |w'.procs| && w'.project == w.project
    requires w'.procs[p].lastProjectSync == w.procs[p].lastProjectSync
    ensures Synced(w', p) == Synced(w, p) && FileCopies(w', log, k) == FileCopies(w, log, k)
  {
  }

  lemma LastTwo(w: World, a: Step, b: Step, cap: Option<nat>)
    ensures Run(w, [a], cap) == Next(w, a, cap) && Run(w, [a, b], cap) == Next(Next(w, a, cap), b, cap)
    ensures SavesInSync(w, [a, b], cap) <==> SavesInSync(w, [a], cap) && SavesInSync(Next(w, a, cap), [b], cap)
  {
    hide Next, Synced;
    var w1 := Next(w, a, cap);
    assert [a, b][1..] == [b] && [a][1..] == [] && [b][1..] == [];
    assert Run(w, [a], cap) == Run(w1, [], cap) && Run(w1, [b], cap) == Run(Next(w1, b, cap), [], cap);
    assert SavesInSync(w1, [], cap);
  }

  lemma OneInSync(w: World, step: Step, cap: Option<nat>)
    ensures SavesInSync(w, [step], cap) <==>
            (step.Save? && step.p < |w.procs| && w.procs[step.p].scoped ==> Synced(w, step.p))
  {
    assert [step][1..] == [];
  }
}
