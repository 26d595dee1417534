/**
 * Whose value survives in the global cache of src/cache.ts: one place at a time, a plain value under a top-level key or
 * one sub-key of a record.
 */
module GlobalValues {
  import opened CacheProtocol
  import opened InstanceLog
  import opened Seqs

  datatype Place = Whole(key: string) | Part(key: string, sub: string)

  type Keyed = map<string, Value>

  /** What stands at a place; None where nothing stands, or a value of the other shape. */
  function ValueAt(m: Keyed, at: Place): Option<string> {
    if at.key !in m then None
    else
      match (m[at.key], at)
      case (Plain(v), Whole(_)) => Some(v)
      case (Record(subs), Part(_, sub)) => if sub in subs then Some(subs[sub]) else None
      case _ => None
  }

  /** Two tables with the same keys, shapes and values. */
  lemma SameValues(a: Keyed, b: Keyed)
    requires forall k :: (k in a <==> k in b) && (k in a ==> (a[k].Record? <==> b[k].Record?))
    requires forall at: Place :: ValueAt(a, at) == ValueAt(b, at)
    ensures a == b
  {
    forall k | k in a ensures a[k] == b[k] {
      assert ValueAt(a, Whole(k)) == ValueAt(b, Whole(k));
      if a[k].Record? {
        forall s ensures (s in a[k].subs <==> s in b[k].subs) && (s in a[k].subs ==> a[k].subs[s] == b[k].subs[s]) {
          assert ValueAt(a, Part(k, s)) == ValueAt(b, Part(k, s));
        }
        assert a[k].subs == b[k].subs;
      }
    }
  }

  /**
   * The memory wins, the disk fills gaps: a key of memory keeps its shape and values, and a record gets the sub-keys
   * that only the disk's record has; a key that only the disk has is taken over, the volatile one aside;
   * nothing else is there.
   */
  ghost predicate MemoryWins(after: Keyed, mem: Keyed, disk: Keyed) {
    && (forall k :: k in after <==> k in mem || (k in disk && k != VOLATILE))
    && (forall k :: k in after ==> (after[k].Record? <==> if k in mem then mem[k].Record? else disk[k].Record?))
    && (forall at: Place :: at.key in mem && ValueAt(mem, at).Some? ==> ValueAt(after, at) == ValueAt(mem, at))
    && (forall at: Place :: at.key in mem && ValueAt(mem, at).None? && at.key != VOLATILE ==>
          ValueAt(after, at) == if at.Part? && mem[at.key].Record? then ValueAt(disk, at) else None)
    && (forall at: Place :: at.key !in mem && at.key != VOLATILE ==> ValueAt(after, at) == ValueAt(disk, at))
    && (VOLATILE in mem ==> VOLATILE in after && after[VOLATILE] == mem[VOLATILE])
  }

  /** These laws leave one table. */
  lemma MemoryWinsIsUnique(a: Keyed, b: Keyed, mem: Keyed, disk: Keyed)
    requires MemoryWins(a, mem, disk) && MemoryWins(b, mem, disk)
    ensures a == b
  {
    forall at: Place ensures ValueAt(a, at) == ValueAt(b, at) {
      assert at.key in mem || at.key != VOLATILE || at.key !in a;
    }
    SameValues(a, b);
  }

  /** Log arrays in the global file, as processes without a project keep them, are taken over or kept whole. */
  ghost predicate MemoryLogsWin(after: Logs, mem: Logs, disk: Logs) {
    && after.Keys == mem.Keys + disk.Keys
    && forall log :: log in after ==> after[log] == if log in mem then mem[log] else disk[log]
  }

  lemma MergeLaw(mem: Cache, disk: Cache)
    ensures var after := MergeExternal(mem, StripVolatile(disk));
      MemoryWins(after.keys, mem.keys, disk.keys) && MemoryLogsWin(after.logs, mem.logs, disk.logs)
  {
  }

  // ---- loads and saves ----

  lemma LoadedMemory(p: Proc, global: File<Cache>)
    requires p.lastSync != Some(global.version)
    ensures var g := LoadGlobal(p, global);
      && MemoryWins(g.mem.keys, p.mem.keys, global.content.keys)
      && MemoryLogsWin(g.mem.logs, p.mem.logs, global.content.logs)
  {
    MergeLaw(p.mem, global.content);
  }

  /**
   * A load that finds the global file changed lets the memory win against it; one that does not leaves the keys alone.
   * Either way the process is in step with the file, which the load does not touch, and so are the other processes.
   */
  lemma LoadLetsMemoryWin(w: World, p: nat, cap: Option<nat>)
    requires p < |w.procs|
    ensures var w' := LoadStep(w, p, cap);
      var mem, after := w.procs[p].mem.keys, w'.procs[p].mem.keys;
      && w'.global == w.global && w'.project == w.project && w'.clock == w.clock && |w'.procs| == |w.procs|
      && (forall q :: 0 <= q < |w.procs| && q != p ==> w'.procs[q] == w.procs[q])
      && w'.procs[p].lastSync == Some(w.global.version)
      && if w.procs[p].lastSync == Some(w.global.version) then after == mem
         else MemoryWins(after, mem, w.global.content.keys)
  {
    if w.procs[p].lastSync != Some(w.global.version) {
      LoadedMemory(w.procs[p], w.global);
    }
  }

  /** After a save the file holds what the memory holds, without the volatile key, and the memory has won likewise. */
  lemma SaveLetsMemoryWin(w: World, p: nat, cap: Option<nat>)
    requires p < |w.procs|
    ensures var w' := SaveStep(w, p, cap);
      var mem, after, file := w.procs[p].mem.keys, w'.procs[p].mem.keys, w'.global.content.keys;
      && (forall k :: k in file <==> k in after && k != VOLATILE)
      && (forall k :: k in file ==> file[k] == after[k])
      && (if w.procs[p].lastSync == Some(w.global.version) then after == mem
          else MemoryWins(after, mem, w.global.content.keys))
      && w'.procs[p].lastSync == Some(w'.global.version) && w'.global.version == w.global.version + 1
      && w'.clock == w.clock && |w'.procs| == |w.procs|
      && (forall q :: 0 <= q < |w.procs| && q != p ==> w'.procs[q] == w.procs[q])
  {
    if w.procs[p].lastSync != Some(w.global.version) {
      MergeLaw(w.procs[p].mem, w.global.content);
    }
  }

  /** With a project the logs leave the global file; without one they are written to it whole. */
  lemma SavedLogs(w: World, p: nat, cap: Option<nat>)
    requires p < |w.procs|
    ensures var w' := SaveStep(w, p, cap);
      var mem, after, file := w.procs[p].mem.logs, w'.procs[p].mem.logs, w'.global.content.logs;
      && (if w.procs[p].scoped then file == map[] else file == after && w'.project == w.project)
      && if w.procs[p].lastSync == Some(w.global.version) then after == mem
         else MemoryLogsWin(after, mem, w.global.content.logs)
  {
    if w.procs[p].lastSync != Some(w.global.version) {
      MergeLaw(w.procs[p].mem, w.global.content);
    }
    var logs := SavedMemory(w.procs[p], w.global).logs;
    forall log ensures log !in logs - {Errors, Usage} {
      match log case Errors => case Usage =>
    }
  }

  // ---- whole runs: which steps change a value of the global file ----

  /** The save leaves the value alone: its memory has that very value, or takes it from the file. */
  ghost predicate Respects(w: World, step: Step, at: Place) {
    step.Save? && step.p < |w.procs| ==>
      var pr := w.procs[step.p];
      || ValueAt(pr.mem.keys, at) == ValueAt(w.global.content.keys, at)
      || (ValueAt(pr.mem.keys, at).None? && pr.lastSync != Some(w.global.version)
          && (at.key in pr.mem.keys ==> at.Part? && pr.mem.keys[at.key].Record?))
  }

  ghost predicate AllRespect(w: World, steps: seq<Step>, at: Place, cap: Option<nat>)
    decreases |steps|
  {
    steps != [] ==> Respects(w, steps[0], at) && AllRespect(Next(w, steps[0], cap), steps[1..], at, cap)
  }

  ghost predicate StaysThroughout(w: World, steps: seq<Step>, at: Place, cap: Option<nat>)
    decreases |steps|
  {
    steps != [] ==>
      var w' := Next(w, steps[0], cap);
      && ValueAt(w'.global.content.keys, at) == ValueAt(w.global.content.keys, at)
      && StaysThroughout(w', steps[1..], at, cap)
  }

  lemma SavedValue(w: World, p: nat, at: Place, cap: Option<nat>)
    requires p < |w.procs| && at.key != VOLATILE
    ensures var mem, disk := w.procs[p].mem.keys, w.global.content.keys;
      ValueAt(SaveStep(w, p, cap).global.content.keys, at) ==
        if w.procs[p].lastSync == Some(w.global.version) || ValueAt(mem, at).Some? then ValueAt(mem, at)
        else if at.key !in mem || (at.Part? && mem[at.key].Record?) then ValueAt(disk, at)
        else None
  {
    hide SaveStep;
    SaveLetsMemoryWin(w, p, cap);
    var w' := SaveStep(w, p, cap);
    assert ValueAt(w'.global.content.keys, at) == ValueAt(w'.procs[p].mem.keys, at);
  }

  lemma OthersLeaveTheFile(w: World, step: Step, cap: Option<nat>)
    requires step.Save? ==> step.p >= |w.procs|
    ensures Next(w, step, cap).global == w.global
  {
  }

  lemma StepKeepsValueIff(w: World, step: Step, at: Place, cap: Option<nat>)
    requires at.key != VOLATILE
    ensures ValueAt(Next(w, step, cap).global.content.keys, at) == ValueAt(w.global.content.keys, at)
            <==> Respects(w, step, at)
  {
    hide SaveStep;
    if step.Save? && step.p < |w.procs| {
      SavedValue(w, step.p, at, cap);
    } else {
      OthersLeaveTheFile(w, step, cap);
    }
  }

  /**
   * No step of a run changes a value of the global file exactly when each saver has that very value in memory or, with
   * the file changed since its last sync, nothing of its own there.
   */
  lemma {:induction false} RunKeepsValueIff(w: World, steps: seq<Step>, at: Place, cap: Option<nat>)
    requires at.key != VOLATILE
    ensures StaysThroughout(w, steps, at, cap) <==> AllRespect(w, steps, at, cap)
    decreases |steps|
  {
    hide Next, ValueAt, Respects;
    if steps != [] {
      StepKeepsValueIff(w, steps[0], at, cap);
      RunKeepsValueIff(Next(w, steps[0], cap), steps[1..], at, cap);
    }
  }

  /** Some save of the run was made by a process that held `v` at the place. */
  ghost predicate SomeSaverHeld(w: World, steps: seq<Step>, at: Place, v: string, cap: Option<nat>)
    decreases |steps|
  {
    steps != [] &&
    ((steps[0].Save? && steps[0].p < |w.procs| && ValueAt(w.procs[steps[0].p].mem.keys, at) == Some(v)) ||
     SomeSaverHeld(Next(w, steps[0], cap), steps[1..], at, v, cap))
  }

  /** A value in the file at the end of a run was there at the start, or a saver held it: no value is made up. */
  lemma {:induction false} ValuesComeFromSavers(w: World, steps: seq<Step>, at: Place, cap: Option<nat>)
    requires at.key != VOLATILE
    ensures var now := ValueAt(Run(w, steps, cap).global.content.keys, at);
      now.Some? ==> now == ValueAt(w.global.content.keys, at) || SomeSaverHeld(w, steps, at, now.value, cap)
    decreases |steps|
  {
    hide SaveStep, ValueAt;
    if steps != [] {
      ValuesComeFromSavers(Next(w, steps[0], cap), steps[1..], at, cap);
      if steps[0].Save? && steps[0].p < |w.procs| {
        SavedValue(w, steps[0].p, at, cap);
      } else {
        OthersLeaveTheFile(w, steps[0], cap);
      }
    }
  }

  /** In a run of additions a value of the file changes only to one a saver held. */
  lemma AddedValuesComeFromSavers(w: World, steps: seq<Step>, at: Place, records: set<string>, cap: Option<nat>)
    requires GlobalInv(w, records) && AddsOnlyRun(w, steps, records, cap) && at.key != VOLATILE
    requires ValueAt(w.global.content.keys, at).Some?
    ensures var now := ValueAt(Run(w, steps, cap).global.content.keys, at);
      && now.Some?
      && (now != ValueAt(w.global.content.keys, at) ==> SomeSaverHeld(w, steps, at, now.value, cap))
  {
    hide Run, AddsOnlyRun, SomeSaverHeld;
    GlobalFileNeverLosesKeys(w, steps, records, cap);
    ValuesComeFromSavers(w, steps, at, cap);
  }
}
