/**
 The cache protocol of src/cache.ts as steps over any number of processes that share one global scan
 cache and one project file. A load or a save is one step; `mtime:size` is a version that changes on
 every write, version 0 meaning that the file does not exist.
 */
module CacheProtocol {
  import opened Seqs
  import opened InstanceLog

  /** VOLATILE_KEYS: never read from disk and never written. */
  const VOLATILE: string := "provider_breaker"

  /** A top-level cache value: a record merged key by key, or anything else (number, list, ...). */
  datatype Value = Record(subs: map<string, string>) | Plain(v: string)

  /** The two instance keys: session_errors and usage_log. */
  datatype Log = Errors | Usage

  type Logs = map<Log, seq<Entry>>

  datatype Cache = Cache(keys: map<string, Value>, logs: Logs)

  datatype File<T> = File(version: nat, content: T)

  datatype Proc = Proc(mem: Cache, lastSync: Option<nat>, lastProjectSync: Option<nat>, scoped: bool)

  /** `clock` is Date.now(). */
  datatype World = World(procs: seq<Proc>, global: File<Cache>, project: File<Logs>, clock: int)

  datatype Step =
    | Tick(ms: nat)
    | Load(p: nat)
    | Save(p: nat)
    | Put(p: nat, key: string, value: Value)
    | Push(p: nat, log: Log, entry: Entry)

  // ---- what the manager's methods compute ----

  function MergeValue(mem: Value, disk: Value): Value {
    if mem.Record? && disk.Record? then Record(disk.subs + mem.subs) else mem
  }

  function MergeKeys(mem: map<string, Value>, disk: map<string, Value>): map<string, Value> {
    map k | k in mem.Keys + disk.Keys ::
      if k !in mem then disk[k] else if k !in disk then mem[k] else MergeValue(mem[k], disk[k])
  }

  /** mergeExternal: what the memory lacks comes from disk, on a conflict the memory wins. */
  function MergeExternal(mem: Cache, disk: Cache): Cache {
    Cache(MergeKeys(mem.keys, disk.keys), disk.logs + mem.logs)
  }

  function StripVolatile(c: Cache): Cache { c.(keys := c.keys - {VOLATILE}) }

  function Get(logs: Logs, log: Log): seq<Entry> { if log in logs then logs[log] else [] }

  /** The cut after each instance join: the newest `cap` errors, 30 days of usage. No cap: the ideal run. */
  function Trim(log: Log, cap: Option<nat>, clock: int, s: seq<Entry>): seq<Entry> {
    match log
    case Errors => (match cap case None => s case Some(n) => Newest(n, s))
    case Usage => Cut(s, clock - THIRTY_DAYS_MS)
  }

  function Merged(log: Log, cap: Option<nat>, clock: int, disk: Logs, mem: Logs): seq<Entry> {
    Trim(log, cap, clock, Join(Get(disk, log), Get(mem, log)))
  }

  /** loadInstanceState. */
  function LoadInstance(p: Proc, project: File<Logs>, clock: int, cap: Option<nat>): Proc {
    if !p.scoped || p.lastProjectSync == Some(project.version) then p
    else
      var overlay := map log | log in project.content :: Merged(log, cap, clock, project.content, p.mem.logs);
      p.(mem := p.mem.(logs := p.mem.logs + overlay), lastProjectSync := Some(project.version))
  }

  /** The global half of loadCache. */
  function LoadGlobal(p: Proc, global: File<Cache>): Proc {
    if p.lastSync == Some(global.version) then p
    else
      var disk := StripVolatile(global.content);
      var mem := if p.lastSync.None? && p.mem == Cache(map[], map[]) then disk else MergeExternal(p.mem, disk);
      p.(mem := mem, lastSync := Some(global.version))
  }

  /** The memory that saveCache writes: merged with the global file when that changed since the last sync. */
  function SavedMemory(p: Proc, global: File<Cache>): Cache {
    if p.lastSync == Some(global.version) then p.mem else MergeExternal(p.mem, StripVolatile(global.content))
  }

  function GlobalPart(p: Proc, mem: Cache): Cache {
    var c := StripVolatile(mem);
    if p.scoped then c.(logs := c.logs - {Errors, Usage}) else c
  }

  /** What saveCache writes to the project file: disk is read only when it changed since the last sync. */
  function ProjectPart(p: Proc, mem: Cache, project: File<Logs>, clock: int, cap: Option<nat>): Logs {
    var disk := if p.lastProjectSync == Some(project.version) then map[] else project.content;
    map log | log in {Errors, Usage} :: Merged(log, cap, clock, disk, mem.logs)
  }

  function LoadStep(w: World, p: nat, cap: Option<nat>): World
    requires p < |w.procs|
  {
    w.(procs := w.procs[p := LoadInstance(LoadGlobal(w.procs[p], w.global), w.project, w.clock, cap)])
  }

  function SaveStep(w: World, p: nat, cap: Option<nat>): World
    requires p < |w.procs|
  {
    var pr := w.procs[p];
    var mem := SavedMemory(pr, w.global);
    var g := File(w.global.version + 1, GlobalPart(pr, mem));
    var pr' := pr.(mem := mem, lastSync := Some(g.version));
    if !pr.scoped then w.(procs := w.procs[p := pr'], global := g)
    else
      var f := File(w.project.version + 1, ProjectPart(pr, mem, w.project, w.clock, cap));
      w.(procs := w.procs[p := pr'.(lastProjectSync := Some(f.version))], global := g, project := f)
  }

  /** A push appends and trims the in-memory array (pushSessionError, addUsageLogEntry). */
  function PushStep(w: World, p: nat, log: Log, e: Entry, cap: Option<nat>): World
    requires p < |w.procs|
  {
    var mem := w.procs[p].mem;
    var s := Trim(log, cap, w.clock, Get(mem.logs, log) + [e]);
    w.(procs := w.procs[p := w.procs[p].(mem := mem.(logs := mem.logs[log := s]))])
  }

  function Next(w: World, step: Step, cap: Option<nat>): (w': World)
    ensures |w'.procs| == |w.procs|
  {
    match step
    case Tick(ms) => w.(clock := w.clock + ms)
    case Load(p) => if p < |w.procs| then LoadStep(w, p, cap) else w
    case Save(p) => if p < |w.procs| then SaveStep(w, p, cap) else w
    case Put(p, k, v) =>
      if p < |w.procs|
      then w.(procs := w.procs[p := w.procs[p].(mem := w.procs[p].mem.(keys := w.procs[p].mem.keys[k := v]))])
      else w
    case Push(p, log, e) => if p < |w.procs| then PushStep(w, p, log, e, cap) else w
  }

  function Run(w: World, steps: seq<Step>, cap: Option<nat>): World
    decreases |steps|
  {
    if steps == [] then w else Run(Next(w, steps[0], cap), steps[1..], cap)
  }

  // ---- the global file: no key and no record sub-key is ever lost ----

  /** Every key of `d`, and every sub-key of a record, is in `m` (the volatile key aside). */
  ghost predicate Covers(m: map<string, Value>, d: map<string, Value>) {
    forall k :: k in d && k != VOLATILE ==>
      k in m && (d[k].Record? ==> m[k].Record? && d[k].subs.Keys <= m[k].subs.Keys)
  }

  /** One value shape per key. */
  ghost predicate Shaped(m: map<string, Value>, records: set<string>) {
    forall k :: k in m ==> (m[k].Record? <==> k in records)
  }

  ghost predicate GlobalInv(w: World, records: set<string>) {
    && Shaped(w.global.content.keys, records)
    && forall p :: 0 <= p < |w.procs| ==>
         && Shaped(w.procs[p].mem.keys, records)
         && (w.procs[p].lastSync.Some? ==> w.procs[p].lastSync.value <= w.global.version)
         && (w.procs[p].lastSync == Some(w.global.version) ==> Covers(w.procs[p].mem.keys, w.global.content.keys))
  }

  /** A mutation keeps the shape of its key and adds sub-keys only: no deletes. */
  ghost predicate AddsOnly(w: World, step: Step, records: set<string>) {
    step.Put? && step.p < |w.procs| ==>
      && (step.value.Record? <==> step.key in records)
      && (step.key in w.procs[step.p].mem.keys && step.value.Record? ==>
            var was := w.procs[step.p].mem.keys[step.key];
            was.Record? ==> was.subs.Keys <= step.value.subs.Keys)
  }

  ghost predicate AddsOnlyRun(w: World, steps: seq<Step>, records: set<string>, cap: Option<nat>)
    decreases |steps|
  {
    steps != [] ==> AddsOnly(w, steps[0], records) && AddsOnlyRun(Next(w, steps[0], cap), steps[1..], records, cap)
  }

  lemma CoversTransitive(a: map<string, Value>, b: map<string, Value>, c: map<string, Value>)
    requires Covers(a, b) && Covers(b, c)
    ensures Covers(a, c)
  {
  }

  lemma SavedMemoryCovers(w: World, p: nat, records: set<string>)
    requires GlobalInv(w, records) && p < |w.procs|
    ensures Shaped(SavedMemory(w.procs[p], w.global).keys, records)
    ensures Covers(SavedMemory(w.procs[p], w.global).keys, w.global.content.keys)
  {
  }

  lemma LoadKeepsGlobalInv(w: World, p: nat, records: set<string>, cap: Option<nat>)
    requires GlobalInv(w, records) && p < |w.procs|
    ensures GlobalInv(LoadStep(w, p, cap), records)
  {
  }

  lemma SaveKeepsGlobalInv(w: World, p: nat, records: set<string>, cap: Option<nat>)
    requires GlobalInv(w, records) && p < |w.procs|
    ensures GlobalInv(SaveStep(w, p, cap), records)
    ensures Covers(SaveStep(w, p, cap).global.content.keys, w.global.content.keys)
  {
    SavedMemoryCovers(w, p, records);
    var mem := SavedMemory(w.procs[p], w.global).keys;
    var w' := SaveStep(w, p, cap);
    assert w'.global.content.keys == mem - {VOLATILE};
    assert Covers(mem, w'.global.content.keys) && Covers(w'.global.content.keys, mem);
    CoversTransitive(w'.global.content.keys, mem, w.global.content.keys);
    assert w'.procs[p].mem.keys == mem;
  }

  lemma StepKeepsGlobalInv(w: World, step: Step, records: set<string>, cap: Option<nat>)
    requires GlobalInv(w, records) && AddsOnly(w, step, records)
    ensures GlobalInv(Next(w, step, cap), records)
    ensures Covers(Next(w, step, cap).global.content.keys, w.global.content.keys)
  {
    match step
    case Load(p) => if p < |w.procs| { LoadKeepsGlobalInv(w, p, records, cap); }
    case Save(p) => if p < |w.procs| { SaveKeepsGlobalInv(w, p, records, cap); }
    case Put(p, k, v) =>
      if p < |w.procs| {
        var w' := Next(w, step, cap);
        assert w'.procs[p].mem.keys == w.procs[p].mem.keys[k := v];
      }
    case Push(p, log, e) =>
      if p < |w.procs| { assert Next(w, step, cap).procs[p].mem.keys == w.procs[p].mem.keys; }
    case Tick(_) =>
  }

  /**
   Over every interleaving of loads, saves and additions by any number of processes, no save removes a
   top-level key or a record sub-key from the global file.
   */
  lemma {:induction false} GlobalFileNeverLosesKeys(w: World, steps: seq<Step>, records: set<string>, cap: Option<nat>)
    requires GlobalInv(w, records) && AddsOnlyRun(w, steps, records, cap)
    ensures GlobalInv(Run(w, steps, cap), records)
    ensures Covers(Run(w, steps, cap).global.content.keys, w.global.content.keys)
    decreases |steps|
  {
    if steps != [] {
      var w' := Next(w, steps[0], cap);
      StepKeepsGlobalInv(w, steps[0], records, cap);
      GlobalFileNeverLosesKeys(w', steps[1..], records, cap);
      CoversTransitive(Run(w, steps, cap).global.content.keys, w'.global.content.keys, w.global.content.keys);
    }
  }

  /** Fresh processes start in the invariant whatever the file holds, so long as shapes agree. */
  lemma FreshWorldIsFine(w: World, records: set<string>)
    requires Shaped(w.global.content.keys, records)
    requires forall p :: 0 <= p < |w.procs| ==> w.procs[p].mem == Cache(map[], map[]) && w.procs[p].lastSync == None
    ensures GlobalInv(w, records)
  {
  }

  /** Every record on disk that memory also holds is a record in memory. */
  ghost predicate ShapesAgree(mem: map<string, Value>, disk: map<string, Value>) {
    forall k :: k in disk && k in mem && k != VOLATILE && disk[k].Record? ==> mem[k].Record?
  }

  /** The save reads the global file into matching shapes, or skips the read and memory covers the file. */
  ghost predicate ReadsOrCovers(w: World, p: nat)
    requires p < |w.procs|
  {
    if w.procs[p].lastSync == Some(w.global.version) then Covers(w.procs[p].mem.keys, w.global.content.keys)
    else ShapesAgree(w.procs[p].mem.keys, w.global.content.keys)
  }

  /** Exactly when a save keeps all keys and sub-keys of the global file. */
  lemma SaveKeepsKeysIff(w: World, p: nat, cap: Option<nat>)
    requires p < |w.procs|
    ensures Covers(SaveStep(w, p, cap).global.content.keys, w.global.content.keys) <==> ReadsOrCovers(w, p)
  {
    var pr, disk := w.procs[p], w.global.content.keys;
    assert SaveStep(w, p, cap).global.content.keys == SavedMemory(pr, w.global).keys - {VOLATILE};
    if pr.lastSync != Some(w.global.version) {
      assert SavedMemory(pr, w.global).keys == MergeKeys(pr.mem.keys, disk - {VOLATILE});
    }
  }

  ghost predicate GlobalKeptThroughout(w: World, steps: seq<Step>, cap: Option<nat>)
    decreases |steps|
  {
    steps != [] ==>
      && Covers(Next(w, steps[0], cap).global.content.keys, w.global.content.keys)
      && GlobalKeptThroughout(Next(w, steps[0], cap), steps[1..], cap)
  }

  ghost predicate SavesReadOrCoverGlobal(w: World, steps: seq<Step>, cap: Option<nat>)
    decreases |steps|
  {
    steps != [] ==>
      && (steps[0].Save? && steps[0].p < |w.procs| ==> ReadsOrCovers(w, steps[0].p))
      && SavesReadOrCoverGlobal(Next(w, steps[0], cap), steps[1..], cap)
  }

  /**
   No step of a run drops a key or sub-key from the global file exactly when each save reads it into matching shapes or
   covers it.
   */
  lemma {:induction false} GlobalRunKeepsKeysIff(w: World, steps: seq<Step>, cap: Option<nat>)
    ensures GlobalKeptThroughout(w, steps, cap) <==> SavesReadOrCoverGlobal(w, steps, cap)
    decreases |steps|
  {
    hide SaveStep, LoadStep, PushStep, Covers, ReadsOrCovers;
    if steps != [] {
      GlobalRunKeepsKeysIff(Next(w, steps[0], cap), steps[1..], cap);
      if steps[0].Save? && steps[0].p < |w.procs| {
        SaveKeepsKeysIff(w, steps[0].p, cap);
      } else {
        OnlySavesWrite(w, steps[0], cap);
      }
    }
  }

  lemma OnlySavesWrite(w: World, step: Step, cap: Option<nat>)
    requires step.Save? ==> step.p >= |w.procs|
    ensures Covers(Next(w, step, cap).global.content.keys, w.global.content.keys)
  {
  }

  /**
   A run that drops sub-keys: two processes start without a file, one records "k" as a record and saves, the other sets
   "k" to a plain value and saves over it.
   */
  lemma ShapeClashDropsSubKeys(scoped: bool, now: int, cap: Option<nat>)
    ensures var start := Proc(Cache(map[], map[]), None, None, scoped);
      var w := World([start, start], File(0, Cache(map[], map[])), File(0, map[]), now);
      var steps := [Load(0), Load(1), Put(0, "k", Record(map["a" := "1"])), Save(0), Put(1, "k", Plain("x"))];
      var saved := Run(w, steps, cap);
      && |saved.procs| == 2 && "k" in saved.global.content.keys && saved.global.content.keys["k"].Record?
      && !Covers(SaveStep(saved, 1, cap).global.content.keys, saved.global.content.keys)
  {
    var start := Proc(Cache(map[], map[]), None, None, scoped);
    var w := World([start, start], File(0, Cache(map[], map[])), File(0, map[]), now);
    var w1 := LoadStep(w, 0, cap);
    var w2 := LoadStep(w1, 1, cap);
    FirstLoad(w, 0, cap);
    FirstLoad(w1, 1, cap);
    var r := Record(map["a" := "1"]);
    var w3 := Next(w2, Put(0, "k", r), cap);
    var w4 := SaveStep(w3, 0, cap);
    SavedKeys(w3, 0, cap);
    var w5 := Next(w4, Put(1, "k", Plain("x")), cap);
    RunOfFive(w, Load(0), Load(1), Put(0, "k", r), Save(0), Put(1, "k", Plain("x")), cap);
    hide LoadStep, SaveStep, Covers;
    SaveKeepsKeysIff(w5, 1, cap);
  }

  lemma RunOfFive(w: World, a: Step, b: Step, c: Step, d: Step, e: Step, cap: Option<nat>)
    ensures Run(w, [a, b, c, d, e], cap) == Next(Next(Next(Next(Next(w, a, cap), b, cap), c, cap), d, cap), e, cap)
  {
    hide Next;
    assert [a, b, c, d, e][1..] == [b, c, d, e] && [b, c, d, e][1..] == [c, d, e];
    assert [c, d, e][1..] == [d, e] && [d, e][1..] == [e] && [e][1..] == [];
    var w1 := Next(w, a, cap);
    var w2 := Next(w1, b, cap);
    var w3 := Next(w2, c, cap);
    assert Run(w, [a, b, c, d, e], cap) == Run(w1, [b, c, d, e], cap) == Run(w2, [c, d, e], cap);
    assert Run(w2, [c, d, e], cap) == Run(w3, [d, e], cap);
    var w4 := Next(w3, d, cap);
    assert Run(w3, [d, e], cap) == Run(w4, [e], cap) == Run(Next(w4, e, cap), [], cap);
  }

  /** A load with no file and nothing in memory finds nothing. */
  lemma FirstLoad(w: World, p: nat, cap: Option<nat>)
    requires p < |w.procs| && w.procs[p].mem.keys == map[] && w.global == File(0, Cache(map[], map[]))
    ensures var w' := LoadStep(w, p, cap);
      && |w'.procs| == |w.procs| && w'.global == w.global && w'.procs[p].mem.keys == map[]
      && w'.procs[p].lastSync == Some(0) && forall q :: 0 <= q < |w.procs| && q != p ==> w'.procs[q] == w.procs[q]
  {
  }

  lemma SavedKeys(w: World, p: nat, cap: Option<nat>)
    requires p < |w.procs| && w.procs[p].lastSync == Some(w.global.version)
    ensures var w' := SaveStep(w, p, cap);
      && |w'.procs| == |w.procs| && w'.global.version == w.global.version + 1
      && w'.global.content.keys == w.procs[p].mem.keys - {VOLATILE}
      && forall q :: 0 <= q < |w.procs| && q != p ==> w'.procs[q] == w.procs[q]
  {
  }
}
