/**
 resyncDynamicFromStatic of src/dynamic-config.ts: a three-way merge. The dynamic config is pruned of what
 the static layers contributed at the last resync and dropped since, then overlaid with what they declare now.
 */
module DynamicConfig {
  import opened JsonValues
  import opened Seqs

  /** A config entry: an object with fields, or a scalar such as a score. Leaf values are texts. */
  datatype Value = Record(fields: map<string, string>) | Scalar(v: string)

  type Section = map<string, Value>

  datatype MergeKey = Providers | ModelMetrics | GdpvalBuiltin

  /** Per entry the names of its fields, or None for a scalar entry. */
  type Contribution = map<string, Option<set<string>>>

  /** STATIC_AUTHORITATIVE_FIELDS. */
  function AuthoritativeField(key: MergeKey): Option<string> {
    if key == Providers then Some("free_models") else None
  }

  /** One section of collectStaticContributions. */
  function Collect(stat: Section): Contribution {
    map e | e in stat :: if stat[e].Record? then Some(stat[e].fields.Keys) else None
  }

  // ---- readRememberedContributions: a file's value may be malformed at every level ----

  function KeyName(key: MergeKey): string {
    match key
    case Providers => "providers"
    case ModelMetrics => "model_metrics"
    case GdpvalBuiltin => "gdpval_builtin"
  }

  /** Optional chaining on plain objects. */
  function Child(j: Option<Json>, name: string): Option<Json> {
    if j.Some? && j.value.Obj? then At(j.value.fields, name) else None
  }

  /** null, or a list of strings only. */
  predicate Readable(j: Json) {
    j.Null? || (j.Arr? && forall i :: 0 <= i < |j.items| ==> j.items[i].Str?)
  }

  function Texts(items: seq<Json>): set<string> {
    set i | 0 <= i < |items| && items[i].Str? :: items[i].text
  }

  /** One section of the remembered set; what is malformed is skipped. */
  function Remembered(raw: Option<Json>): Contribution {
    if raw.Some? && raw.value.Obj? then
      map e | e in raw.value.fields && Readable(raw.value.fields[e]) ::
        if raw.value.fields[e].Null? then None else Some(Texts(raw.value.fields[e].items))
    else map[]
  }

  /** The remembered section of `key` in the file's `_dynamic` value. */
  function RememberedIn(meta: Option<Json>, key: MergeKey): Contribution {
    Remembered(Child(Child(meta, "static_contributions"), KeyName(key)))
  }

  /** A contribution as it is written; `list` is the order in which names are listed. */
  function Encode(c: Contribution, list: set<string> -> seq<string>): Json {
    Obj(map e | e in c :: if c[e].None? then Null else Arr(Strings(list(c[e].value))))
  }

  function Strings(names: seq<string>): (items: seq<Json>)
    ensures |items| == |names| && forall i :: 0 <= i < |names| ==> items[i] == Str(names[i])
  {
    if names == [] then [] else Strings(names[..|names| - 1]) + [Str(names[|names| - 1])]
  }

  ghost predicate Lists(list: set<string> -> seq<string>) {
    forall names :: ToSet(list(names)) == names
  }

  /** Writing a contribution and reading it back is lossless. */
  lemma RememberedRoundTrip(c: Contribution, list: set<string> -> seq<string>)
    requires Lists(list)
    ensures Remembered(Some(Encode(c, list))) == c
  {
    forall e | e in c && c[e].Some? ensures Texts(Strings(list(c[e].value))) == c[e].value {
      var names := list(c[e].value);
      assert ToSet(names) == c[e].value;
      forall n | n in names ensures n in Texts(Strings(names)) {
        var i :| 0 <= i < |names| && names[i] == n;
        assert Strings(names)[i].text == n;
      }
    }
  }

  // ---- one entry ----

  function DropFields(v: Option<Value>, fs: set<string>): Option<Value> {
    if v.None? || v.value.Scalar? then v
    else
      var rest := v.value.fields - fs;
      if rest == map[] then None else Some(Record(rest))
  }

  function PruneRemembered(v: Option<Value>, was: Option<Option<set<string>>>, now: Option<Option<set<string>>>)
    : Option<Value>
  {
    match was
    case None => v
    case Some(None) => if now.None? then None else v
    case Some(Some(fs)) =>
      if now == Some(None) then v
      else DropFields(v, fs - (if now.Some? then now.value.value else {}))
  }

  predicate Declares(now: Option<Option<set<string>>>, f: string) {
    now.Some? && now.value.Some? && f in now.value.value
  }

  function PruneAuthoritative(v: Option<Value>, now: Option<Option<set<string>>>, key: MergeKey): Option<Value> {
    match AuthoritativeField(key)
    case None => v
    case Some(f) => if Declares(now, f) then v else DropFields(v, {f})
  }

  function Prune(v: Option<Value>, was: Option<Option<set<string>>>, now: Option<Option<set<string>>>, key: MergeKey)
    : Option<Value>
  {
    PruneAuthoritative(PruneRemembered(v, was, now), now, key)
  }

  /** The merge of one entry: static wins, field by field when both sides are objects. */
  function Overlay(prev: Option<Value>, s: Option<Value>): Option<Value> {
    match s
    case None => prev
    case Some(x) =>
      if prev.Some? && prev.value.Record? && x.Record? then Some(Record(prev.value.fields + x.fields)) else s
  }

  // ---- one section ----

  function PruneSection(dyn: Section, was: Contribution, now: Contribution, key: MergeKey): Section {
    map e | e in dyn && Prune(Some(dyn[e]), At(was, e), At(now, e), key).Some? ::
      Prune(Some(dyn[e]), At(was, e), At(now, e), key).value
  }

  function OverlaySection(dyn: Section, stat: Section): Section {
    map e | e in dyn.Keys + stat.Keys :: Overlay(At(dyn, e), At(stat, e)).value
  }

  /** None: the section is absent or not an object. */
  function ResyncSection(
    dyn: Option<Section>, stat: Option<Section>, was: Contribution, now: Contribution, key: MergeKey)
    : Option<Section>
  {
    var pruned := match dyn case None => None case Some(d) => Some(PruneSection(d, was, now, key));
    match stat
    case None => pruned
    case Some(s) => Some(OverlaySection(if pruned.Some? then pruned.value else map[], s))
  }

  /** The provider entries that pruning removed, as reported to the caller. */
  function Dropped(dyn: Section, was: Contribution, now: Contribution, key: MergeKey): set<string> {
    (set e | e in was && was[e] == None && e !in now)
    + (set e | e in dyn && Prune(Some(dyn[e]), At(was, e), At(now, e), key).None?)
  }

  /** What is reported as removed is gone, and every entry that is gone is reported. */
  lemma DroppedAreGone(dyn: Section, was: Contribution, now: Contribution, key: MergeKey, e: string)
    ensures var pruned, dropped := PruneSection(dyn, was, now, key), Dropped(dyn, was, now, key);
      && (e in dropped ==> e !in pruned)
      && (e in dyn && e !in pruned ==> e in dropped)
      && (e in dropped && e !in dyn ==> e in was && was[e] == None && e !in now)
      && (e in was && was[e] == None && e !in now ==> e in dropped)
      && (e in pruned ==> e in dyn)
  {
  }

  // ---- the field law ----

  function Field(v: Option<Value>, f: string): Option<string> {
    if v.Some? && v.value.Record? then At(v.value.fields, f) else None
  }

  /** Remembered as an object field, or as a scalar entry that is gone: pruned when static does not declare it. */
  predicate Retired(was: Option<Option<set<string>>>, s: Option<Value>, f: string) {
    match was
    case None => false
    case Some(None) => s == None
    case Some(Some(fs)) => f in fs
  }

  function EntryAfter(v: Option<Value>, s: Option<Value>, was: Option<Option<set<string>>>, key: MergeKey)
    : Option<Value>
  {
    Overlay(Prune(v, was, Contributed(s), key), s)
  }

  function Contributed(s: Option<Value>): Option<Option<set<string>>> {
    match s
    case None => None
    case Some(Scalar(_)) => Some(None)
    case Some(Record(fs)) => Some(Some(fs.Keys))
  }

  lemma ResyncIsPointwise(dyn: Section, stat: Section, was: Contribution, key: MergeKey, e: string)
    ensures At(ResyncSection(Some(dyn), Some(stat), was, Collect(stat), key).value, e) ==
            EntryAfter(At(dyn, e), At(stat, e), At(was, e), key)
  {
  }

  /**
   The field law: a declared field has its static value; a field that static dropped since the last
   resync is gone, as is an undeclared authoritative field; every other field is untouched.
   */
  lemma FieldLaw(v: Option<Value>, s: Option<Value>, was: Option<Option<set<string>>>, key: MergeKey, f: string)
    ensures Field(EntryAfter(v, s, was, key), f) ==
      if s.Some? && s.value.Scalar? then None
      else if Field(s, f).Some? then Field(s, f)
      else if Retired(was, s, f) || (key == Providers && f == "free_models") then None
      else Field(v, f)
  {
    var now := Contributed(s);
    var p := PruneRemembered(v, was, now);
    if was.Some? && was.value.Some? {
      FieldAfterDrop(v, was.value.value - (if now.Some? && now.value.Some? then now.value.value else {}), f);
    }
    if key == Providers { FieldAfterDrop(p, {"free_models"}, f); }
  }

  lemma FieldAfterDrop(v: Option<Value>, fs: set<string>, f: string)
    ensures Field(DropFields(v, fs), f) == if f in fs then None else Field(v, f)
  {
    if v.Some? && v.value.Record? {
      var rest := v.value.fields - fs;
      assert f in rest <==> f in v.value.fields && f !in fs;
    }
  }

  /**
   * An entry survives as a scalar only if static declares that scalar, or the scan's scalar was never remembered as
   * one.
   */
  lemma ScalarLaw(v: Option<Value>, s: Option<Value>, was: Option<Option<set<string>>>, key: MergeKey, x: string)
    ensures EntryAfter(v, s, was, key) == Some(Scalar(x)) <==>
      s == Some(Scalar(x)) || (s == None && v == Some(Scalar(x)) && was != Some(None))
  {
  }

  /** Without provenance (absent or malformed) nothing is pruned beyond the authoritative fields. */
  lemma UnknownProvenancePrunesNothing(v: Option<Value>, s: Option<Value>, key: MergeKey, f: string)
    requires !(s.Some? && s.value.Scalar?) && (key != Providers || f != "free_models")
    ensures Field(EntryAfter(v, s, None, key), f) == if Field(s, f).Some? then Field(s, f) else Field(v, f)
  {
    FieldLaw(v, s, None, key, f);
  }

  /** Whatever is malformed about an entry's provenance, the resync prunes none of its fields but the authoritative. */
  lemma MalformedPrunesNothing(dyn: Section, stat: Section, raw: Option<Json>, key: MergeKey, e: string, f: string)
    requires raw.Some? && raw.value.Obj? && e in raw.value.fields ==>
               var v := raw.value.fields[e];
               !v.Null? && !(v.Arr? && forall x :: x in v.items ==> x.Str?)
    requires !(e in stat && stat[e].Scalar?) && (key != Providers || f != "free_models")
    ensures var after := ResyncSection(Some(dyn), Some(stat), Remembered(raw), Collect(stat), key).value;
            Field(At(after, e), f)
            == if Field(At(stat, e), f).Some? then Field(At(stat, e), f) else Field(At(dyn, e), f)
  {
    ResyncIsPointwise(dyn, stat, Remembered(raw), key, e);
    UnknownProvenancePrunesNothing(At(dyn, e), At(stat, e), key, f);
  }

  /**
   The write site resyncs against layers into which the scan has put provider stubs, with a snapshot taken before. Such
   a stub is therefore not recorded as static, and the next resync leaves it alone; recorded, it would be pruned.
   */
  lemma StubsAreNotStatic(
    dyn: Section, layers: Section, stubs: Section, was: Contribution, key: MergeKey, e: string, f: string)
    requires e in stubs && e !in layers && stubs[e].Record? && f in stubs[e].fields
            && (key != Providers || f != "free_models")
    ensures var once := ResyncSection(Some(dyn), Some(layers + stubs), was, Collect(layers), key);
      var clean := ResyncSection(once, Some(layers), Collect(layers), Collect(layers), key).value;
      var polluted := ResyncSection(once, Some(layers), Collect(layers + stubs), Collect(layers), key).value;
      && Field(At(clean, e), f) == Some(stubs[e].fields[f])
      && Field(At(polluted, e), f) == None
  {
    var once := ResyncSection(Some(dyn), Some(layers + stubs), was, Collect(layers), key).value;
    CollectedAt(layers, e);
    CollectedAt(layers + stubs, e);
    ResyncAt(dyn, layers + stubs, was, Collect(layers), key, e);
    ResyncIsPointwise(once, layers, Collect(layers), key, e);
    ResyncIsPointwise(once, layers, Collect(layers + stubs), key, e);
    FieldLaw(At(once, e), None, None, key, f);
    FieldLaw(At(once, e), None, Some(Some(stubs[e].fields.Keys)), key, f);
  }

  lemma ResyncAt(dyn: Section, stat: Section, was: Contribution, now: Contribution, key: MergeKey, e: string)
    ensures At(ResyncSection(Some(dyn), Some(stat), was, now, key).value, e) ==
            Overlay(Prune(At(dyn, e), At(was, e), At(now, e), key), At(stat, e))
  {
  }

  // ---- idempotence ----

  lemma EntryIdempotent(v: Option<Value>, s: Option<Value>, was: Option<Option<set<string>>>, key: MergeKey)
    ensures var once := EntryAfter(v, s, was, key);
      && EntryAfter(once, s, Contributed(s), key) == once
      && EntryAfter(once, s, None, key) == once
  {
    var once := EntryAfter(v, s, was, key);
    PruneIsStable(v, was, Contributed(s), key);
    EntryStable(once, Prune(v, was, Contributed(s), key), s, key, Contributed(s));
    EntryStable(once, Prune(v, was, Contributed(s), key), s, key, None);
  }

  /** What pruning leaves of an entry has no undeclared authoritative field and, in `providers`, is not empty. */
  lemma PruneIsStable(
    v: Option<Value>, was: Option<Option<set<string>>>, now: Option<Option<set<string>>>, key: MergeKey)
    ensures PruneAuthoritative(Prune(v, was, now, key), now, key) == Prune(v, was, now, key)
  {
    var p := Prune(v, was, now, key);
    if p.Some? && p.value.Record? && key == Providers && !Declares(now, "free_models") {
      assert p.value.fields - {"free_models"} == p.value.fields;
    }
  }

  lemma EntryStable(
    once: Option<Value>, p: Option<Value>, s: Option<Value>, key: MergeKey, was: Option<Option<set<string>>>)
    requires once == Overlay(p, s) && PruneAuthoritative(p, Contributed(s), key) == p
    requires was == None || was == Contributed(s)
    ensures Overlay(Prune(once, was, Contributed(s), key), s) == once
  {
    if s.Some? && s.value.Record? && once.value.Record? {
      var q := PruneRemembered(once, was, Contributed(s));
      if was.Some? {
        assert s.value.fields.Keys - s.value.fields.Keys == {};
        assert once.value.fields - {} == once.value.fields;
        assert once.value.fields == map[] ==> s.value.fields == map[];
      }
      AuthoritativeOnOverlay(once, p, s, key, q);
    }
  }

  lemma AuthoritativeOnOverlay(once: Option<Value>, p: Option<Value>, s: Option<Value>, key: MergeKey, q: Option<Value>)
    requires once == Overlay(p, s) && s.Some? && s.value.Record? && once.value.Record?
    requires PruneAuthoritative(p, Contributed(s), key) == p
    requires q == once || (q == None && once == s && s.value.fields == map[])
    ensures Overlay(PruneAuthoritative(q, Contributed(s), key), s) == once
  {
    assert once.value.fields + s.value.fields == once.value.fields;
    if q == once && key == Providers && "free_models" !in s.value.fields {
      if p.Some? && p.value.Record? {
        assert "free_models" !in p.value.fields;
      }
      assert once.value.fields - {"free_models"} == once.value.fields;
      if once.value.fields == map[] {
        assert s.value.fields.Keys <= once.value.fields.Keys;
        assert s.value.fields == map[];
      }
    }
  }

  /** Resyncing twice against the same static layers, with or without recorded provenance, changes nothing more. */
  lemma ResyncIdempotent(dyn: Option<Section>, stat: Option<Section>, was: Contribution, key: MergeKey, recorded: bool)
    ensures var now := if stat.Some? then Collect(stat.value) else map[];
      var once := ResyncSection(dyn, stat, was, now, key);
      ResyncSection(once, stat, if recorded then now else map[], now, key) == once
  {
    var now := if stat.Some? then Collect(stat.value) else map[];
    var once := ResyncSection(dyn, stat, was, now, key);
    var again := if recorded then now else map[];
    assert now == Collect(if stat.Some? then stat.value else map[]);
    hide ResyncSection, EntryAfter, Collect, Contributed;
    if once.Some? {
      var d, s := if dyn.Some? then dyn.value else map[], if stat.Some? then stat.value else map[];
      SectionAsOverlay(dyn, stat, was, key);
      SectionAsOverlay(once, stat, again, key);
      forall e ensures At(ResyncSection(once, stat, again, now, key).value, e) == At(once.value, e) {
        EntryIdempotent(At(d, e), At(s, e), At(was, e), key);
        CollectedAt(s, e);
      }
      SameMap(ResyncSection(once, stat, again, now, key).value, once.value);
    }
  }

  lemma CollectedAt(s: Section, e: string)
    ensures At(Collect(s), e) == Contributed(At(s, e))
  {
  }

  /** A resync that yields a section yields, entry by entry, EntryAfter; a missing side counts as empty. */
  lemma SectionAsOverlay(dyn: Option<Section>, stat: Option<Section>, was: Contribution, key: MergeKey)
    requires dyn.Some? || stat.Some?
    ensures var d, s := if dyn.Some? then dyn.value else map[], if stat.Some? then stat.value else map[];
      var r := ResyncSection(dyn, stat, was, Collect(s), key);
      r.Some? && forall e :: At(r.value, e) == EntryAfter(At(d, e), At(s, e), At(was, e), key)
  {
    var d, s := if dyn.Some? then dyn.value else map[], if stat.Some? then stat.value else map[];
    var r := ResyncSection(dyn, stat, was, Collect(s), key);
    hide Overlay;
    forall e ensures At(r.value, e) == EntryAfter(At(d, e), At(s, e), At(was, e), key) {
      assert At(Collect(s), e) == Contributed(At(s, e));
      assert Prune(None, At(was, e), Contributed(At(s, e)), key) == None;
    }
  }

  // ---- runs: scan additions and resyncs against a sequence of static configs ----

  /** One merge key over time. `scan` accumulates what the scan added; `stat` is the latest static section. */
  datatype History = History(dyn: Section, was: Contribution, scan: Section, stat: Section)

  datatype Step = ScanAdds(entry: string, value: Value) | Resync(layers: Section)

  function Next(h: History, step: Step, key: MergeKey): History {
    match step
    case ScanAdds(e, v) =>
      h.(dyn := h.dyn[e := Overlay(At(h.dyn, e), Some(v)).value],
         scan := h.scan[e := Overlay(At(h.scan, e), Some(v)).value])
    case Resync(s) =>
      h.(dyn := ResyncSection(Some(h.dyn), Some(s), h.was, Collect(s), key).value, was := Collect(s), stat := s)
  }

  /** The fields of a scan's entry that a static entry took over: all of them if it replaced the entry by a scalar. */
  function Covered(sc: Option<Value>, gone: Option<Value>): set<string> {
    if sc.None? || gone.None? || sc.value.Scalar? then {}
    else if gone.value.Scalar? then sc.value.fields.Keys
    else sc.value.fields.Keys * gone.value.fields.Keys
  }

  /** Whatever the old static entry took over from the scan's, the new one still declares. */
  predicate StillDeclared(sc: Option<Value>, gone: Option<Value>, s: Option<Value>) {
    if sc.None? || gone.None? || (s.Some? && s.value.Scalar?) then true
    else if sc.value.Scalar? then s.Some?
    else Covered(sc, gone) <= if s.Some? then s.value.fields.Keys else {}
  }

  /** The scan writes nothing that differs from what the static entry declares. */
  predicate Consistent(v: Value, s: Option<Value>) {
    match s
    case None => true
    case Some(Scalar(_)) => v == s.value
    case Some(Record(fs)) => v.Record? && forall f :: f in v.fields && f in fs ==> v.fields[f] == fs[f]
  }

  /** What a scan adds: a scalar, or an object that is not empty and holds no authoritative field. */
  ghost predicate ProperScan(v: Value, key: MergeKey) {
    v.Record? ==> v.fields != map[] && forall f :: AuthoritativeField(key) == Some(f) ==> f !in v.fields
  }

  /**
   A scan addition is consistent with the latest static section; a resync still declares what the section it replaces
   took over from the scan.
   */
  ghost predicate Allowed(h: History, step: Step) {
    match step
    case ScanAdds(e, v) => Consistent(v, At(h.stat, e))
    case Resync(layers) => forall e :: StillDeclared(At(h.scan, e), At(h.stat, e), At(layers, e))
  }

  ghost predicate Proper(step: Step, key: MergeKey) {
    step.ScanAdds? ==> ProperScan(step.value, key)
  }

  ghost predicate AllowedRun(h: History, steps: seq<Step>, key: MergeKey)
    decreases |steps|
  {
    steps != [] ==> Allowed(h, steps[0]) && AllowedRun(Next(h, steps[0], key), steps[1..], key)
  }

  /** The dynamic section is the scan's additions overlaid with the latest static section, which is remembered. */
  ghost predicate ScanPlusStatic(h: History, key: MergeKey) {
    && h.was == Collect(h.stat)
    && (forall e :: e in h.scan ==> ProperScan(h.scan[e], key))
    && (forall e :: At(h.dyn, e) == Overlay(At(h.scan, e), At(h.stat, e)))
  }

  /** The form holds before and after every step of the run. */
  ghost predicate FormThroughout(h: History, steps: seq<Step>, key: MergeKey)
    decreases |steps|
  {
    ScanPlusStatic(h, key) && (steps != [] ==> FormThroughout(Next(h, steps[0], key), steps[1..], key))
  }

  /**
   One entry at a resync: what the old static section gave is replaced by what the new one gives, and nothing of the
   scan's is lost, exactly when the new section still declares what the old one took over.
   */
  lemma EntryResyncIff(sc: Option<Value>, gone: Option<Value>, s: Option<Value>, key: MergeKey)
    requires sc.Some? ==> ProperScan(sc.value, key)
    ensures EntryAfter(Overlay(sc, gone), s, Contributed(gone), key) == Overlay(sc, s) <==> StillDeclared(sc, gone, s)
  {
    if s.Some? && s.value.Scalar? {
    } else if gone.None? {
      NothingGone(sc, s, key);
    } else if s.None? {
      EntryRetired(sc, gone, key);
    } else if gone.value.Scalar? {
      ScalarGone(sc, gone, s, key);
    } else {
      RecordGone(sc, gone, s, key);
    }
  }

  lemma NothingGone(sc: Option<Value>, s: Option<Value>, key: MergeKey)
    requires sc.Some? ==> ProperScan(sc.value, key)
    ensures EntryAfter(sc, s, None, key) == Overlay(sc, s)
  {
    if sc.Some? && sc.value.Record? && key == Providers {
      assert sc.value.fields - {"free_models"} == sc.value.fields;
    }
  }

  lemma EntryRetired(sc: Option<Value>, gone: Option<Value>, key: MergeKey)
    requires sc.Some? ==> ProperScan(sc.value, key)
    requires gone.Some?
    ensures EntryAfter(Overlay(sc, gone), None, Contributed(gone), key) == sc <==> StillDeclared(sc, gone, None)
  {
    if gone.value.Record? {
      var d := Overlay(sc, gone);
      var names := gone.value.fields.Keys;
      assert names - {} == names;
      if sc.Some? && sc.value.Record? {
        var rest := d.value.fields - names;
        assert rest == sc.value.fields - names;
        assert sc.value.fields - names == sc.value.fields <==> sc.value.fields.Keys * names == {} by {
          SameUnless(sc.value.fields, names);
        }
        if key == Providers { assert rest - {"free_models"} == rest; }
      } else {
        assert d.value.fields - names == map[];
      }
    }
  }

  lemma SameUnless(m: map<string, string>, names: set<string>)
    ensures m - names == m <==> m.Keys * names == {}
  {
    if m - names == m {
      forall k | k in m ensures k !in names { assert k in m - names; }
    }
    if m.Keys * names == {} {
      forall k | k in m ensures k in m - names { assert k !in m.Keys * names; }
    }
  }

  lemma ScalarGone(sc: Option<Value>, gone: Option<Value>, s: Option<Value>, key: MergeKey)
    requires gone.Some? && gone.value.Scalar? && s.Some? && s.value.Record?
    ensures EntryAfter(Overlay(sc, gone), s, Contributed(gone), key) == Overlay(sc, s) <==> StillDeclared(sc, gone, s)
  {
    assert EntryAfter(Overlay(sc, gone), s, Contributed(gone), key) == s;
    if sc.Some? && sc.value.Record? {
      var f, h := sc.value.fields, s.value.fields;
      assert (f + h).Keys == f.Keys + h.Keys;
      if f.Keys <= h.Keys { assert f + h == h; }
    }
  }

  lemma RecordGone(sc: Option<Value>, gone: Option<Value>, s: Option<Value>, key: MergeKey)
    requires sc.Some? ==> ProperScan(sc.value, key)
    requires gone.Some? && gone.value.Record? && s.Some? && s.value.Record?
    ensures EntryAfter(Overlay(sc, gone), s, Contributed(gone), key) == Overlay(sc, s) <==> StillDeclared(sc, gone, s)
  {
    var r, o := EntryAfter(Overlay(sc, gone), s, Contributed(gone), key), Overlay(sc, s);
    assert r.Some? && r.value.Record?;
    forall f
      ensures Field(r, f) == if f in s.value.fields then Field(s, f)
                             else if f in gone.value.fields then None else Field(sc, f)
    {
      FieldLaw(Overlay(sc, gone), s, Contributed(gone), key, f);
    }
    if StillDeclared(sc, gone, s) {
      forall f ensures Field(r, f) == Field(o, f) {
      }
      SameFields(r.value.fields, o.value.fields, r, o);
    } else {
      var f :| f in Covered(sc, gone) && f !in s.value.fields;
      assert Field(r, f) == None && Field(o, f).Some?;
    }
  }

  lemma SameFields(a: map<string, string>, b: map<string, string>, x: Option<Value>, y: Option<Value>)
    requires x == Some(Record(a)) && y == Some(Record(b))
    requires forall f :: Field(x, f) == Field(y, f)
    ensures a == b
  {
    forall f ensures f in a <==> f in b { assert Field(x, f) == Field(y, f); }
    forall f | f in a ensures a[f] == b[f] { assert Field(x, f) == Field(y, f); }
    assert a.Keys == b.Keys;
  }

  /** A scan addition over a static entry keeps the overlay exactly when it is consistent with that entry. */
  lemma OverlayCommutesIff(sc: Option<Value>, s: Option<Value>, v: Value)
    ensures Overlay(Overlay(sc, s), Some(v)) == Overlay(Overlay(sc, Some(v)), s) <==> Consistent(v, s)
  {
    if s.Some? && s.value.Record? && v.Record? {
      var below := if sc.Some? && sc.value.Record? then sc.value.fields else map[];
      SumsCommuteIff(below, s.value.fields, v.fields);
      assert map[] + s.value.fields == s.value.fields && map[] + v.fields == v.fields;
    }
  }

  lemma SumsCommuteIff(a: map<string, string>, b: map<string, string>, c: map<string, string>)
    ensures a + b + c == a + c + b <==> forall f :: f in b && f in c ==> c[f] == b[f]
  {
    if a + b + c == a + c + b {
      forall f | f in b && f in c ensures c[f] == b[f] {
        assert (a + b + c)[f] == (a + c + b)[f];
      }
    }
  }

  lemma ScanStaysProper(sc: Option<Value>, v: Value, key: MergeKey)
    requires ProperScan(v, key) && (sc.Some? ==> ProperScan(sc.value, key))
    ensures Overlay(sc, Some(v)).Some? && ProperScan(Overlay(sc, Some(v)).value, key)
  {
    if v.Record? && sc.Some? && sc.value.Record? {
      var k :| k in v.fields;
      assert k in sc.value.fields + v.fields;
    }
  }

  lemma ScanKeepsFormIff(h: History, e: string, v: Value, key: MergeKey)
    requires ScanPlusStatic(h, key) && ProperScan(v, key)
    ensures ScanPlusStatic(Next(h, ScanAdds(e, v), key), key) <==> Allowed(h, ScanAdds(e, v))
  {
    var h' := Next(h, ScanAdds(e, v), key);
    var sc, s := At(h.scan, e), At(h.stat, e);
    assert At(h.dyn, e) == Overlay(sc, s);
    assert sc.Some? ==> ProperScan(h.scan[e], key);
    hide Overlay, ProperScan, Consistent;
    ScanStaysProper(sc, v, key);
    OverlayCommutesIff(sc, s, v);
    OverlayIsSome(At(h.dyn, e), v);
    assert At(h'.dyn, e) == Overlay(Overlay(sc, s), Some(v)) && At(h'.scan, e) == Overlay(sc, Some(v));
    forall k | k != e ensures At(h'.dyn, k) == Overlay(At(h'.scan, k), At(h'.stat, k)) {
      assert At(h.dyn, k) == Overlay(At(h.scan, k), At(h.stat, k));
    }
  }

  lemma OverlayIsSome(prev: Option<Value>, v: Value)
    ensures Overlay(prev, Some(v)).Some?
  {
  }

  lemma ResyncKeepsFormIff(h: History, s: Section, key: MergeKey)
    requires ScanPlusStatic(h, key)
    ensures ScanPlusStatic(Next(h, Resync(s), key), key) <==> Allowed(h, Resync(s))
  {
    hide ProperScan, Overlay, EntryAfter, StillDeclared, Contributed;
    var h' := Next(h, Resync(s), key);
    forall e
      ensures At(h'.dyn, e) == Overlay(At(h'.scan, e), At(h'.stat, e))
              <==> StillDeclared(At(h.scan, e), At(h.stat, e), At(s, e))
    {
      ResyncIsPointwise(h.dyn, s, h.was, key, e);
      CollectedAt(h.stat, e);
      assert At(h.dyn, e) == Overlay(At(h.scan, e), At(h.stat, e));
      assert At(h.scan, e).Some? ==> ProperScan(h.scan[e], key);
      EntryResyncIff(At(h.scan, e), At(h.stat, e), At(s, e), key);
    }
  }

  lemma StepKeepsFormIff(h: History, step: Step, key: MergeKey)
    requires ScanPlusStatic(h, key) && Proper(step, key)
    ensures ScanPlusStatic(Next(h, step, key), key) <==> Allowed(h, step)
  {
    match step
    case ScanAdds(e, v) => ScanKeepsFormIff(h, e, v, key);
    case Resync(s) => ResyncKeepsFormIff(h, s, key);
  }

  /**
   Over a run the section equals the scan's additions overlaid with the latest static section at every point, so that
   no value of an earlier static section survives and no scan-added field is lost, exactly when every step is allowed.
   */
  lemma {:induction false} RunsKeepScanPlusStaticIff(h: History, steps: seq<Step>, key: MergeKey)
    requires ScanPlusStatic(h, key) && forall i :: 0 <= i < |steps| ==> Proper(steps[i], key)
    ensures FormThroughout(h, steps, key) <==> AllowedRun(h, steps, key)
    decreases |steps|
  {
    hide ScanPlusStatic, Next, Allowed, Proper;
    if steps != [] {
      StepKeepsFormIff(h, steps[0], key);
      if Allowed(h, steps[0]) {
        RunsKeepScanPlusStaticIff(Next(h, steps[0], key), steps[1..], key);
      } else {
        assert !ScanPlusStatic(Next(h, steps[0], key), key);
      }
    }
  }

  /** A file the scan just wrote, with no provenance yet, is a valid start. */
  lemma ScanOnlyStart(scan: Section, key: MergeKey)
    requires forall e :: e in scan ==> ProperScan(scan[e], key)
    ensures ScanPlusStatic(History(scan, map[], scan, map[]), key)
  {
  }

  /** A scan-added field that a static layer declares for a while goes with that layer. */
  lemma OverlapLosesAScanField(key: MergeKey)
    ensures var h := History(map["p" := Record(map["billing" := "scan", "x" := "1"])], map[],
                             map["p" := Record(map["billing" := "scan", "x" := "1"])], map[]);
      var after := Next(Next(h, Resync(map["p" := Record(map["billing" := "user"])]), key), Resync(map[]), key);
      Field(At(after.dyn, "p"), "billing") == None && Field(At(after.scan, "p"), "billing") == Some("scan")
  {
    var h := History(map["p" := Record(map["billing" := "scan", "x" := "1"])], map[],
                     map["p" := Record(map["billing" := "scan", "x" := "1"])], map[]);
    var s: Section := map["p" := Record(map["billing" := "user"])];
    var one := Next(h, Resync(s), key);
    ResyncIsPointwise(one.dyn, map[], one.was, key, "p");
    FieldLaw(At(one.dyn, "p"), None, At(one.was, "p"), key, "billing");
    assert "billing" in s["p"].fields;
    assert At(one.was, "p") == Some(Some(s["p"].fields.Keys));
  }
}
