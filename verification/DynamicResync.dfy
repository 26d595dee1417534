/** resyncDynamicFromStatic in place: the loops of src/dynamic-config.ts against the entry-wise specification. */
module DynamicResync {
  import opened DynamicConfig
  import opened JsonValues
  import opened Seqs

  /** DYNAMIC_CONFIG_RESYNC_KEYS: copied wholesale from the static config. */
  const RESYNC_KEYS: set<string> := {
    "exclude", "non_agent_model_prefixes", "empty_response_timeout_ms", "reasoning_empty_response_timeout_ms",
    "stall_timeout_ms", "rate_limit_wait_max_ms", "backoff_minutes", "soft_backoff_ms", "delegation",
    "ollama_max_concurrent_streams", "best_quality_window", "log_level", "category_groups", "context_budget",
    "classifier_log", "classifier_laya"}

  /** A section missing from `sections` is absent or not an object. */
  datatype StaticConfig = StaticConfig(settings: map<string, string>, sections: map<MergeKey, Section>)

  function SectionOf(sections: map<MergeKey, Section>, key: MergeKey): Option<Section> {
    if key in sections then Some(sections[key]) else None
  }

  function ContributionOf(stat: StaticConfig, key: MergeKey): Contribution {
    if key in stat.sections then Collect(stat.sections[key]) else map[]
  }

  /** StaticContributions: one for each merge key. */
  datatype Contributions =
    Contributions(providers: Contribution, modelMetrics: Contribution, gdpvalBuiltin: Contribution)
  {
    function For(key: MergeKey): Contribution {
      match key
      case Providers => providers
      case ModelMetrics => modelMetrics
      case GdpvalBuiltin => gdpvalBuiltin
    }
  }

  /** collectStaticContributions, the default of the third argument. */
  function Snapshot(stat: StaticConfig): Contributions {
    Contributions(
      ContributionOf(stat, Providers), ContributionOf(stat, ModelMetrics), ContributionOf(stat, GdpvalBuiltin))
  }

  /** All three merge keys as they are written to `_dynamic.static_contributions`. */
  function EncodeAll(now: Contributions, list: set<string> -> seq<string>): Json {
    Obj(map[
      KeyName(Providers) := Encode(now.For(Providers), list),
      KeyName(ModelMetrics) := Encode(now.For(ModelMetrics), list),
      KeyName(GdpvalBuiltin) := Encode(now.For(GdpvalBuiltin), list)])
  }

  class DynamicFile {
    var settings: map<string, string>
    var sections: map<MergeKey, Section>
    /** `_dynamic`, which may be any value or absent. */
    var meta: Option<Json>

    /** pruneRemovedStaticEntries for one section. */
    method PruneRemovedStaticEntries(key: MergeKey, was: Contribution, now: Contribution) returns (dropped: set<string>)
      modifies this`sections
      ensures sections == if key in old(sections)
        then old(sections)[key := PruneSection(old(sections)[key], was, now, key)] else old(sections)
      ensures dropped == if key in old(sections) then Dropped(old(sections)[key], was, now, key) else {}
    {
      dropped := {};
      if key !in sections { return; }
      var entries := sections[key];
      var pruned;
      pruned, dropped := PruneByMemory(entries, was, now);
      if AuthoritativeField(key).Some? {
        pruned, dropped := PruneByAuthority(entries, pruned, dropped, was, now, key);
      }
      forall e ensures At(pruned, e) == At(PruneSection(entries, was, now, key), e) {
      }
      SameMap(pruned, PruneSection(entries, was, now, key));
      sections := sections[key := pruned];
    }

    static method PruneByMemory(entries: Section, was: Contribution, now: Contribution)
      returns (pruned: Section, dropped: set<string>)
      ensures forall e :: At(pruned, e) == PruneRemembered(At(entries, e), At(was, e), At(now, e))
      ensures dropped == (set e | e in was && was[e] == None && e !in now)
        + (set e | e in entries && PruneRemembered(Some(entries[e]), At(was, e), At(now, e)).None?)
    {
      pruned, dropped := entries, {};
      var todo := was.Keys;
      while todo != {}
        invariant todo <= was.Keys
        invariant forall e :: At(pruned, e) ==
                              if e in todo then At(entries, e)
                              else PruneRemembered(At(entries, e), At(was, e), At(now, e))
        invariant forall e :: e in dropped <==>
          e in was && e !in todo &&
          ((was[e] == None && e !in now)
              || (e in entries && PruneRemembered(Some(entries[e]), At(was, e), At(now, e)).None?))
        decreases todo
      {
        var e :| e in todo;
        var next := PruneRemembered(At(pruned, e), Some(was[e]), At(now, e));
        if (was[e] == None && e !in now) || (e in pruned && next.None?) { dropped := dropped + {e}; }
        pruned := if next.Some? then pruned[e := next.value] else pruned - {e};
        todo := todo - {e};
      }
    }

    static method PruneByAuthority(
      entries: Section, byMemory: Section, gone: set<string>, was: Contribution, now: Contribution, key: MergeKey)
      returns (pruned: Section, dropped: set<string>)
      requires forall e :: At(byMemory, e) == PruneRemembered(At(entries, e), At(was, e), At(now, e))
      requires gone == (set e | e in was && was[e] == None && e !in now)
        + (set e | e in entries && PruneRemembered(Some(entries[e]), At(was, e), At(now, e)).None?)
      ensures forall e :: At(pruned, e) == Prune(At(entries, e), At(was, e), At(now, e), key)
      ensures dropped == Dropped(entries, was, now, key)
    {
      pruned, dropped := byMemory, gone;
      var todo := byMemory.Keys;
      while todo != {}
        invariant todo <= byMemory.Keys
        invariant forall e :: e in todo ==> At(pruned, e) == At(byMemory, e)
        invariant forall e :: e !in todo ==> At(pruned, e) == PruneAuthoritative(At(byMemory, e), At(now, e), key)
        invariant forall e :: e in dropped <==> e in gone || (e in byMemory && e !in todo && e !in pruned)
        decreases todo
      {
        var e :| e in todo;
        var next := PruneAuthoritative(Some(byMemory[e]), At(now, e), key);
        if next.None? { dropped := dropped + {e}; }
        pruned := if next.Some? then pruned[e := next.value] else pruned - {e};
        todo := todo - {e};
      }
      forall e ensures e in dropped <==>
        e in gone || (e in byMemory && PruneAuthoritative(At(byMemory, e), At(now, e), key).None?)
      {
        assert At(pruned, e) == PruneAuthoritative(At(byMemory, e), At(now, e), key);
      }
      DroppedInBoth(entries, byMemory, gone, dropped, was, now, key);
    }

    static lemma DroppedInBoth(
      entries: Section, byMemory: Section, gone: set<string>, dropped: set<string>,
      was: Contribution, now: Contribution, key: MergeKey)
      requires forall e :: At(byMemory, e) == PruneRemembered(At(entries, e), At(was, e), At(now, e))
      requires gone == (set e | e in was && was[e] == None && e !in now)
        + (set e | e in entries && PruneRemembered(Some(entries[e]), At(was, e), At(now, e)).None?)
      requires forall e :: e in dropped <==>
        e in gone || (e in byMemory && PruneAuthoritative(At(byMemory, e), At(now, e), key).None?)
      ensures dropped == Dropped(entries, was, now, key)
    {
      forall e ensures e in dropped <==> e in Dropped(entries, was, now, key) {
        assert At(byMemory, e) == PruneRemembered(At(entries, e), At(was, e), At(now, e));
      }
    }

    /** Per-entry merge of one static section into the dynamic one. */
    static method MergeEntries(dyn: Section, stat: Section) returns (merged: Section)
      ensures merged == OverlaySection(dyn, stat)
    {
      merged := dyn;
      var todo := stat.Keys;
      while todo != {}
        invariant todo <= stat.Keys
        invariant forall e :: At(merged, e) == if e in todo then At(dyn, e) else Overlay(At(dyn, e), At(stat, e))
        decreases todo
      {
        var e :| e in todo;
        assert At(merged, e) == At(dyn, e);
        merged := merged[e :=
          if e in merged && merged[e].Record? && stat[e].Record? then Record(merged[e].fields + stat[e].fields)
          else stat[e]];
        todo := todo - {e};
      }
      forall e ensures At(merged, e) == At(OverlaySection(dyn, stat), e) {
      }
      SameMap(merged, OverlaySection(dyn, stat));
    }

    /** One merge key: prune, then overlay what the static layers declare. */
    method ResyncKey(key: MergeKey, was: Contribution, stat: StaticConfig, now: Contribution)
      returns (dropped: set<string>)
      modifies this`sections
      ensures SectionOf(sections, key) ==
              ResyncSection(SectionOf(old(sections), key), SectionOf(stat.sections, key), was, now, key)
      ensures forall k :: k != key ==> SectionOf(sections, k) == SectionOf(old(sections), k)
      ensures dropped == if key in old(sections) then Dropped(old(sections)[key], was, now, key) else {}
    {
      dropped := PruneRemovedStaticEntries(key, was, now);
      if key in stat.sections {
        var merged := MergeEntries(if key in sections then sections[key] else map[], stat.sections[key]);
        sections := sections[key := merged];
      }
    }

    /** resyncDynamicFromStatic; `now` is a snapshot of the static layers, taken now or before the scan. */
    method ResyncFromStatic(stat: StaticConfig, now: Contributions, list: set<string> -> seq<string>)
      returns (droppedProviders: set<string>)
      requires Lists(list)
      modifies this
      ensures forall key ::
                SectionOf(sections, key) == Resynced(old(sections), stat, now, key, RememberedIn(old(meta), key))
      ensures forall k :: At(settings, k) == if k in RESYNC_KEYS then At(stat.settings, k) else At(old(settings), k)
      ensures if old(meta).Some? && old(meta).value.Obj? then Stamped(old(meta).value, meta, now) else meta == old(meta)
      ensures droppedProviders == if Providers in old(sections)
        then Dropped(old(sections)[Providers], RememberedIn(old(meta), Providers), now.For(Providers), Providers)
        else {}
    {
      CopySettings(stat);
      droppedProviders := ResyncSections(stat, now);
      RecordContributions(now, list);
    }

    /** The call with the default argument, as the load site makes it. */
    method ResyncOnLoad(stat: StaticConfig, list: set<string> -> seq<string>) returns (droppedProviders: set<string>)
      requires Lists(list)
      modifies this
      ensures forall key :: SectionOf(sections, key) ==
                ResyncSection(SectionOf(old(sections), key), SectionOf(stat.sections, key),
                              RememberedIn(old(meta), key), ContributionOf(stat, key), key)
      ensures meta.Some? && meta.value.Obj? ==> forall key :: RememberedIn(meta, key) == ContributionOf(stat, key)
    {
      hide ResyncSection, RememberedIn, Dropped, ContributionOf;
      var now := Snapshot(stat);
      forall key ensures now.For(key) == ContributionOf(stat, key) {
        match key { case Providers => case ModelMetrics => case GdpvalBuiltin => }
      }
      droppedProviders := ResyncFromStatic(stat, now, list);
    }

    method CopySettings(stat: StaticConfig)
      modifies this`settings
      ensures forall k :: At(settings, k) == if k in RESYNC_KEYS then At(stat.settings, k) else At(old(settings), k)
    {
      settings := (settings - RESYNC_KEYS) + (map k | k in stat.settings && k in RESYNC_KEYS :: stat.settings[k]);
    }

    method ResyncSections(stat: StaticConfig, now: Contributions) returns (droppedProviders: set<string>)
      modifies this`sections
      ensures forall key ::
                SectionOf(sections, key) == Resynced(old(sections), stat, now, key, RememberedIn(old(meta), key))
      ensures droppedProviders == if Providers in old(sections)
        then Dropped(old(sections)[Providers], RememberedIn(old(meta), Providers), now.For(Providers), Providers)
        else {}
    {
      droppedProviders := ResyncKey(Providers, RememberedIn(meta, Providers), stat, now.For(Providers));
      var _ := ResyncKey(ModelMetrics, RememberedIn(meta, ModelMetrics), stat, now.For(ModelMetrics));
      var _ := ResyncKey(GdpvalBuiltin, RememberedIn(meta, GdpvalBuiltin), stat, now.For(GdpvalBuiltin));
      forall key
        ensures SectionOf(sections, key) == Resynced(old(sections), stat, now, key, RememberedIn(old(meta), key))
      {
        match key { case Providers => case ModelMetrics => case GdpvalBuiltin => }
      }
    }

    method RecordContributions(now: Contributions, list: set<string> -> seq<string>)
      requires Lists(list)
      modifies this`meta
      ensures if old(meta).Some? && old(meta).value.Obj? then Stamped(old(meta).value, meta, now) else meta == old(meta)
    {
      if meta.Some? && meta.value.Obj? {
        meta := Some(Obj(meta.value.fields["static_contributions" := EncodeAll(now, list)]));
        forall key ensures RememberedIn(meta, key) == now.For(key) {
          RememberedRoundTrip(now.For(key), list);
          match key { case Providers => case ModelMetrics => case GdpvalBuiltin => }
        }
      }
    }
  }

  /** The rest of `_dynamic` is untouched, and reading it back gives the recorded contribution. */
  ghost predicate Stamped(was: Json, meta: Option<Json>, now: Contributions)
    requires was.Obj?
  {
    && meta.Some? && meta.value.Obj?
    && (forall k :: k != "static_contributions" ==> At(meta.value.fields, k) == At(was.fields, k))
    && (forall key :: RememberedIn(meta, key) == now.For(key))
  }

  ghost function Resynced(
    sections: map<MergeKey, Section>, stat: StaticConfig, now: Contributions, key: MergeKey, was: Contribution)
    : Option<Section>
  {
    ResyncSection(SectionOf(sections, key), SectionOf(stat.sections, key), was, now.For(key), key)
  }
}
