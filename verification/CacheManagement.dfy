/** The CacheManager of src/cache.ts: one shared in-memory cache object, merged with two files in place. */
module CacheManagement {
  import opened Seqs
  import opened InstanceLog
  import opened CacheProtocol

  /** The in-memory cache object, with the versions it was last synced with (lastSync, lastProjectSync). */
  class CacheObject {
    var keys: map<string, Value>
    var logs: Logs
    var lastSync: Option<nat>
    var lastProjectSync: Option<nat>

    constructor ()
      ensures keys == map[] && logs == map[] && lastSync == None && lastProjectSync == None
    {
      keys, logs, lastSync, lastProjectSync := map[], map[], None, None;
    }

    function Data(): Cache
      reads this
    {
      Cache(keys, logs)
    }
  }

  /** The scan cache and the project file; every write raises the version. */
  class Disk {
    var global: File<Cache>
    var project: File<Logs>

    constructor ()
      ensures global == File(0, Cache(map[], map[])) && project == File(0, map[])
    {
      global, project := File(0, Cache(map[], map[])), File(0, map[]);
    }

    method WriteGlobal(c: Cache)
      modifies this`global
      ensures global == File(old(global.version) + 1, c)
    {
      global := File(global.version + 1, c);
    }

    method WriteProject(l: Logs)
      modifies this`project
      ensures project == File(old(project.version) + 1, l)
    {
      project := File(project.version + 1, l);
    }
  }

  function Overlay(mem: Logs, proj: Logs, log: Log, now: int): Logs {
    if log in proj then mem[log := Merged(log, Some(SESSION_ERROR_CAP), now, proj, mem)] else mem
  }

  lemma TwoOverlays(mem: Logs, proj: Logs, now: int)
    ensures Overlay(Overlay(mem, proj, Errors, now), proj, Usage, now) ==
            mem + map log | log in proj :: Merged(log, Some(SESSION_ERROR_CAP), now, proj, mem)
  {
    var cap := Some(SESSION_ERROR_CAP);
    var m1 := Overlay(mem, proj, Errors, now);
    SameMerge(Usage, cap, now, proj, mem, m1);
    var over := map log | log in proj :: Merged(log, cap, now, proj, mem);
    SameLogs(Overlay(m1, proj, Usage, now), mem + over);
  }

  lemma SameMerge(log: Log, cap: Option<nat>, now: int, disk: Logs, mem: Logs, mem': Logs)
    requires Get(mem, log) == Get(mem', log)
    ensures Merged(log, cap, now, disk, mem) == Merged(log, cap, now, disk, mem')
  {
  }

  lemma SameLogs(a: Logs, b: Logs)
    requires Errors in a <==> Errors in b
    requires Usage in a <==> Usage in b
    requires Errors in a ==> a[Errors] == b[Errors]
    requires Usage in a ==> a[Usage] == b[Usage]
    ensures a == b
  {
    forall log: Log ensures log in a <==> log in b { match log case Errors => case Usage => }
    assert a.Keys == b.Keys;
    forall log | log in a ensures a[log] == b[log] { match log case Errors => case Usage => }
  }

  lemma TwoParts(p: Proc, mem: Cache, project: File<Logs>, now: int, errors: seq<Entry>, usage: seq<Entry>)
    requires var disk: Logs := if p.lastProjectSync == Some(project.version) then map[] else project.content;
      && errors == Join(Get(disk, Errors), Get(mem.logs, Errors))
      && usage == Join(Get(disk, Usage), Get(mem.logs, Usage))
    ensures map[Errors := Newest(SESSION_ERROR_CAP, errors), Usage := Cut(usage, now - THIRTY_DAYS_MS)] ==
            ProjectPart(p, mem, project, now, Some(SESSION_ERROR_CAP))
  {
    SameLogs(map[Errors := Newest(SESSION_ERROR_CAP, errors), Usage := Cut(usage, now - THIRTY_DAYS_MS)],
             ProjectPart(p, mem, project, now, Some(SESSION_ERROR_CAP)));
  }

  class CacheManager {
    const cache: CacheObject
    const disk: Disk
    /** Whether a project directory was given. */
    const scoped: bool

    /** The manager as the only process of a world. */
    ghost function AsWorld(now: int): World
      reads cache, disk
    {
      World([AsProc()], disk.global, disk.project, now)
    }

    ghost function AsProc(): Proc
      reads cache
    {
      Proc(cache.Data(), cache.lastSync, cache.lastProjectSync, scoped)
    }

    /** `existing` is the caller's object, which the manager adopts without reading the disk. */
    constructor (disk: Disk, existing: CacheObject?, scoped: bool, now: int)
      modifies {}
      ensures this.disk == disk && this.scoped == scoped
      ensures existing != null ==> cache == existing
      ensures existing == null ==>
        && fresh(cache)
        && [AsProc()]
           == LoadStep(World([Proc(Cache(map[], map[]), None, None, scoped)], disk.global, disk.project, now),
                       0, Some(SESSION_ERROR_CAP)).procs
    {
      this.disk, this.scoped := disk, scoped;
      if existing != null {
        cache := existing;
      } else {
        cache := new CacheObject();
      }
      new;
      if existing == null {
        var _ := LoadCache(now);
      }
    }

    function ReadFromDisk(): Cache
      reads disk
    {
      StripVolatile(disk.global.content)
    }

    /** mergeExternal(this.cache, other): fills the gaps of the memory in place, key by key. */
    method MergeExternalInto(other: Cache)
      modifies cache`keys, cache`logs
      ensures cache.Data() == MergeExternal(old(cache.Data()), other)
    {
      var todo := other.keys.Keys;
      ghost var before := cache.keys;
      while todo != {}
        invariant todo <= other.keys.Keys
        invariant cache.keys.Keys == before.Keys + (other.keys.Keys - todo)
        invariant forall k :: k in cache.keys ==>
          cache.keys[k] ==
            if k !in before then other.keys[k]
            else if k in other.keys && k !in todo then MergeValue(before[k], other.keys[k])
            else before[k]
        invariant cache.logs == old(cache.logs)
        decreases todo
      {
        var k :| k in todo;
        var diskValue := other.keys[k];
        if k !in cache.keys {
          cache.keys := cache.keys[k := diskValue];
        } else if cache.keys[k].Record? && diskValue.Record? {
          var subs := FillSubKeys(cache.keys[k].subs, diskValue.subs);
          cache.keys := cache.keys[k := Value.Record(subs)];
        }
        todo := todo - {k};
      }
      assert cache.keys == MergeKeys(before, other.keys);
      cache.logs := other.logs + cache.logs;
    }

    method FillSubKeys(mem: map<string, string>, disk: map<string, string>) returns (r: map<string, string>)
      ensures r == disk + mem
    {
      r := mem;
      var todo := disk.Keys;
      while todo != {}
        invariant todo <= disk.Keys
        invariant r.Keys == mem.Keys + (disk.Keys - todo)
        invariant forall s :: s in r ==> r[s] == if s in mem then mem[s] else disk[s]
        decreases todo
      {
        var s :| s in todo;
        if s !in r { r := r[s := disk[s]]; }
        todo := todo - {s};
      }
    }

    method LoadCache(now: int) returns (c: CacheObject)
      modifies cache
      ensures c == cache
      ensures AsWorld(now) == LoadStep(old(AsWorld(now)), 0, Some(SESSION_ERROR_CAP))
    {
      c := cache;
      ghost var start := AsProc();
      var known := cache.lastSync;
      var state := disk.global.version;
      if known != Some(state) {
        var d := ReadFromDisk();
        if known == None && cache.Data() == Cache(map[], map[]) {
          cache.keys, cache.logs := d.keys, d.logs;
        } else {
          MergeExternalInto(d);
        }
        cache.lastSync := Some(state);
      }
      assert AsProc() == LoadGlobal(start, disk.global);
      LoadInstanceState(now);
    }

    method LoadInstanceState(now: int)
      modifies cache`logs, cache`lastProjectSync
      ensures AsProc() == LoadInstance(old(AsProc()), disk.project, now, Some(SESSION_ERROR_CAP))
    {
      if !scoped { return; }
      var version := disk.project.version;
      if cache.lastProjectSync == Some(version) { return; }
      var proj := disk.project.content;
      ghost var mem := cache.logs;
      OverlayLog(proj, Errors, now);
      OverlayLog(proj, Usage, now);
      cache.lastProjectSync := Some(version);
      TwoOverlays(mem, proj, now);
    }

    /** One instance key: joined with the file's array if the file has one, and trimmed. */
    method OverlayLog(proj: Logs, log: Log, now: int)
      modifies cache`logs
      ensures cache.logs == Overlay(old(cache.logs), proj, log, now)
    {
      if log in proj {
        var joined := AppendInstanceArray(Some(proj[log]), InMemory(log));
        cache.logs := cache.logs[log := Trim(log, Some(SESSION_ERROR_CAP), now, joined)];
      }
    }

    function InMemory(log: Log): (r: Option<seq<Entry>>)
      reads cache
      ensures OrEmpty(r) == Get(cache.logs, log)
    {
      if log in cache.logs then Some(cache.logs[log]) else None
    }

    method SaveCache(now: int)
      modifies cache, disk
      ensures AsWorld(now) == SaveStep(old(AsWorld(now)), 0, Some(SESSION_ERROR_CAP))
    {
      SaveGlobal();
      if scoped { SaveProject(now); }
    }

    /** Merge-on-save of the global file; the instance keys moved to the project file. */
    method SaveGlobal()
      modifies cache, disk`global
      ensures cache.Data() == SavedMemory(old(AsProc()), old(disk.global))
      ensures cache.lastProjectSync == old(cache.lastProjectSync)
      ensures disk.global == File(old(disk.global.version) + 1, GlobalPart(old(AsProc()), cache.Data()))
      ensures cache.lastSync == Some(disk.global.version)
    {
      if cache.lastSync != Some(disk.global.version) {
        MergeExternalInto(ReadFromDisk());
      }
      var globalPart := StripVolatile(cache.Data());
      if scoped { globalPart := globalPart.(logs := globalPart.logs - {Errors, Usage}); }
      disk.WriteGlobal(globalPart);
      cache.lastSync := Some(disk.global.version);
    }

    /** The file is read back only when it changed since the last sync; memory is not updated. */
    method SaveProject(now: int)
      modifies cache`lastProjectSync, disk`project
      ensures disk.project == File(old(disk.project.version) + 1,
                ProjectPart(old(AsProc()), old(cache.Data()), old(disk.project), now, Some(SESSION_ERROR_CAP)))
      ensures cache.lastProjectSync == Some(disk.project.version)
    {
      var diskProj: Logs :=
        if cache.lastProjectSync == Some(disk.project.version) then map[] else disk.project.content;
      var errors := AppendInstanceArray(OnDisk(diskProj, Errors), InMemory(Errors));
      var usage := AppendInstanceArray(OnDisk(diskProj, Usage), InMemory(Usage));
      var part: Logs := map[
        Errors := Newest(SESSION_ERROR_CAP, errors),
        Usage := Cut(usage, now - THIRTY_DAYS_MS)];
      TwoParts(AsProc(), cache.Data(), disk.project, now, errors, usage);
      disk.WriteProject(part);
      cache.lastProjectSync := Some(disk.project.version);
    }

    static function OnDisk(logs: Logs, log: Log): (r: Option<seq<Entry>>)
      ensures OrEmpty(r) == Get(logs, log)
    {
      if log in logs then Some(logs[log]) else None
    }

    /** addUsageLogEntry: append, trim to 30 days, save. */
    method AddUsageLogEntry(e: Entry, now: int)
      modifies cache, disk
      ensures AsWorld(now) ==
              SaveStep(PushStep(old(AsWorld(now)), 0, Usage, e, Some(SESSION_ERROR_CAP)), 0, Some(SESSION_ERROR_CAP))
    {
      PushEntry(Usage, e, now);
      SaveCache(now);
    }

    /** One push onto an in-memory array, trimmed (pushSessionError keeps the newest 50 errors). */
    method PushEntry(log: Log, e: Entry, now: int)
      modifies cache`logs
      ensures AsWorld(now) == PushStep(old(AsWorld(now)), 0, log, e, Some(SESSION_ERROR_CAP))
    {
      var s := Get(cache.logs, log) + [e];
      match log {
        case Errors => s := Newest(SESSION_ERROR_CAP, s);
        case Usage => s := Cut(s, now - THIRTY_DAYS_MS);
      }
      cache.logs := cache.logs[log := s];
    }
  }
}
