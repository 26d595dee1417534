/**
 * src/dynamic-config.ts: the two deduplications of a generated group. Slug matching, normalisation, token signatures
 * and the group's gates are functions passed in. A JavaScript Set or Map is a sequence in insertion order.
 */
module GroupModels {
  import opened Refs
  import opened Seqs

  /** What the code looks up about a ref. */
  datatype Rules = Rules(
    slug: string -> Option<string>,
    normalize: string -> string,
    signature: string -> string,
    admitted: string -> bool)

  /** `rest` stands for the other fields of a discovered model, in which two models of one ref may differ. */
  datatype Model = Model(ref: string, rest: string)

  predicate Canonical(r: Rules, ref: string) {
    var slug := r.slug(ref);
    slug.None? || slug.value == "" || r.normalize(ModelId(ref)) == r.normalize(slug.value)
  }

  /** Key of collapseSameSlugClusters. */
  function ClusterKey(r: Rules, ref: string): string {
    var slug := r.slug(ref);
    if slug.Some? && slug.value != "" then Provider(ref) + ":" + slug.value else ref
  }

  /** identityKey of collectGroupModels. */
  function Identity(r: Rules, ref: string): string {
    var slug := r.slug(ref);
    if slug.Some? then slug.value else r.signature(ref)
  }

  // ---- collapseSameSlugClusters ----

  /** Index of the model a cluster keeps: its first canonical one, else its first. */
  ghost predicate Keeps(r: Rules, models: seq<Model>, key: string, i: nat) {
    && i < |models|
    && ClusterKey(r, models[i].ref) == key
    && (forall j :: 0 <= j < i && ClusterKey(r, models[j].ref) == key ==>
          !Canonical(r, models[j].ref) && Canonical(r, models[i].ref))
    && (!Canonical(r, models[i].ref) ==>
          forall j :: i < j < |models| && ClusterKey(r, models[j].ref) == key ==> !Canonical(r, models[j].ref))
  }

  /** Cluster keys in order of first appearance. */
  function ClusterKeys(r: Rules, models: seq<Model>): seq<string> {
    if models == [] then []
    else Add(ClusterKeys(r, models[..|models| - 1]), ClusterKey(r, models[|models| - 1].ref))
  }

  function Add(s: seq<string>, x: string): seq<string> {
    if x in s then s else s + [x]
  }

  lemma {:induction false} KeysAreTheClusters(r: Rules, models: seq<Model>)
    ensures Distinct(ClusterKeys(r, models))
    ensures forall i :: 0 <= i < |models| ==> ClusterKey(r, models[i].ref) in ClusterKeys(r, models)
    ensures forall k :: k in ClusterKeys(r, models) ==>
              exists i :: 0 <= i < |models| && ClusterKey(r, models[i].ref) == k
  {
    hide ClusterKey;
    if models != [] {
      var before := models[..|models| - 1];
      KeysAreTheClusters(r, before);
      forall k | k in ClusterKeys(r, models)
        ensures exists i :: 0 <= i < |models| && ClusterKey(r, models[i].ref) == k
      {
        if k in ClusterKeys(r, before) {
          var i :| 0 <= i < |before| && ClusterKey(r, before[i].ref) == k;
          assert ClusterKey(r, models[i].ref) == k;
        } else {
          assert ClusterKey(r, models[|models| - 1].ref) == k;
        }
      }
    }
  }

  /** How a further model of the cluster changes what it keeps. */
  lemma KeepsNext(r: Rules, models: seq<Model>, m: Model, key: string, i: nat)
    requires Keeps(r, models, key, i)
    ensures ClusterKey(r, m.ref) == key && Canonical(r, m.ref) && !Canonical(r, models[i].ref)
            ==> Keeps(r, models + [m], key, |models|)
    ensures !(ClusterKey(r, m.ref) == key && Canonical(r, m.ref) && !Canonical(r, models[i].ref))
            ==> Keeps(r, models + [m], key, i)
  {
  }

  lemma KeepsFirst(r: Rules, models: seq<Model>, m: Model)
    requires forall i :: 0 <= i < |models| ==> ClusterKey(r, models[i].ref) != ClusterKey(r, m.ref)
    ensures Keeps(r, models + [m], ClusterKey(r, m.ref), |models|)
  {
  }

  /** The table of best models after some of them, with the index each came from. */
  ghost predicate BestSoFar(r: Rules, models: seq<Model>, keys: seq<string>, kept: seq<Model>, at: seq<nat>) {
    && keys == ClusterKeys(r, models)
    && |kept| == |keys| == |at|
    && forall k :: 0 <= k < |keys| ==> Keeps(r, models, keys[k], at[k]) && kept[k] == models[at[k]]
  }

  lemma BestNew(r: Rules, models: seq<Model>, m: Model, keys: seq<string>, kept: seq<Model>, at: seq<nat>)
    requires BestSoFar(r, models, keys, kept, at) && ClusterKey(r, m.ref) !in keys
    ensures BestSoFar(r, models + [m], keys + [ClusterKey(r, m.ref)], kept + [m], at + [|models|])
  {
    var key := ClusterKey(r, m.ref);
    hide Canonical, ClusterKey, ClusterKeys;
    KeysNext(r, models, m);
    KeysAreTheClusters(r, models);
    KeepsFirst(r, models, m);
    forall k | 0 <= k < |keys| ensures Keeps(r, models + [m], keys[k], at[k]) {
      KeepsNext(r, models, m, keys[k], at[k]);
    }
    hide Keeps;
    forall k | 0 <= k < |keys| ensures kept[k] == (models + [m])[at[k]] {
      KeptIndex(r, models, keys[k], at[k]);
    }
  }

  lemma KeysNext(r: Rules, models: seq<Model>, m: Model)
    ensures ClusterKeys(r, models + [m]) == Add(ClusterKeys(r, models), ClusterKey(r, m.ref))
  {
  }

  lemma KeptIndex(r: Rules, models: seq<Model>, key: string, i: nat)
    requires Keeps(r, models, key, i)
    ensures i < |models| && ClusterKey(r, models[i].ref) == key
  {
  }

  lemma BestKnown(r: Rules, models: seq<Model>, m: Model, keys: seq<string>, kept: seq<Model>, at: seq<nat>, k: nat)
    requires BestSoFar(r, models, keys, kept, at) && k < |keys| && ClusterKey(r, m.ref) == keys[k]
    ensures Canonical(r, m.ref) && !Canonical(r, kept[k].ref)
            ==> BestSoFar(r, models + [m], keys, kept[k := m], at[k := |models|])
    ensures !(Canonical(r, m.ref) && !Canonical(r, kept[k].ref)) ==> BestSoFar(r, models + [m], keys, kept, at)
  {
    hide Canonical, ClusterKey;
    KeysAreTheClusters(r, models);
    forall i | 0 <= i < |keys|
      ensures at[i] < |models| && (ClusterKey(r, m.ref) == keys[i] <==> i == k)
      ensures var swap := i == k && Canonical(r, m.ref) && !Canonical(r, models[at[i]].ref);
              Keeps(r, models + [m], keys[i], if swap then |models| else at[i])
    {
      KeepsNext(r, models, m, keys[i], at[i]);
    }
    hide Keeps;
    assert (models + [m])[..|models|] == models;
  }

  /**
   * One model per cluster, in the order the clusters first appear, and for each its first canonical model or, when
   * none of its models is canonical, its first.
   */
  method CollapseSameSlugClusters(r: Rules, models: seq<Model>) returns (kept: seq<Model>)
    ensures |kept| == |ClusterKeys(r, models)|
    ensures forall k :: 0 <= k < |kept| ==>
              exists i: nat :: Keeps(r, models, ClusterKeys(r, models)[k], i) && kept[k] == models[i]
  {
    hide BestSoFar, Keeps, Canonical, ClusterKey, ClusterKeys;
    var keys: seq<string> := [];
    kept := [];
    ghost var at: seq<nat> := [];
    BestOfNone(r);
    for n := 0 to |models|
      invariant BestSoFar(r, models[..n], keys, kept, at)
    {
      var m := models[n];
      var key := ClusterKey(r, m.ref);
      assert models[..n + 1] == models[..n] + [m];
      SameLengths(r, models[..n], keys, kept, at);
      if key !in keys {
        BestNew(r, models[..n], m, keys, kept, at);
        keys, kept, at := keys + [key], kept + [m], at + [n];
      } else {
        var k :| 0 <= k < |keys| && keys[k] == key;
        BestKnown(r, models[..n], m, keys, kept, at, k);
        if Canonical(r, m.ref) && !Canonical(r, kept[k].ref) {
          kept, at := kept[k := m], at[k := n];
        }
      }
    }
    assert models[..|models|] == models;
    BestOfAll(r, models, keys, kept, at);
  }

  lemma BestOfNone(r: Rules)
    ensures BestSoFar(r, [], [], [], [])
  {
  }

  lemma BestOfAll(r: Rules, models: seq<Model>, keys: seq<string>, kept: seq<Model>, at: seq<nat>)
    requires BestSoFar(r, models, keys, kept, at)
    ensures |kept| == |ClusterKeys(r, models)|
    ensures forall k :: 0 <= k < |kept| ==>
              exists i: nat :: Keeps(r, models, ClusterKeys(r, models)[k], i) && kept[k] == models[i]
  {
  }

  lemma SameLengths(r: Rules, models: seq<Model>, keys: seq<string>, kept: seq<Model>, at: seq<nat>)
    requires BestSoFar(r, models, keys, kept, at)
    ensures |kept| == |keys| == |at|
  {
  }

  // ---- collectGroupModels ----

  /** The hand-listed refs that pass the gates, without repeats. */
  function HandListed(r: Rules, listed: seq<string>): seq<string> {
    if listed == [] then []
    else
      var ref := listed[|listed| - 1];
      var before := HandListed(r, listed[..|listed| - 1]);
      if r.admitted(ref) then Add(before, ref) else before
  }

  ghost function Identities(r: Rules, refs: seq<string>): set<string> {
    set i | 0 <= i < |refs| :: Identity(r, refs[i])
  }

  /** A candidate is chosen if its identity is free and it is that identity's first canonical ref, or its first. */
  ghost predicate Chosen(r: Rules, taken: set<string>, s: seq<string>, j: nat)
    requires j < |s|
  {
    var key := Identity(r, s[j]);
    && key !in taken
    && (forall i :: 0 <= i < j && Identity(r, s[i]) == key ==> !Canonical(r, s[i]) && Canonical(r, s[j]))
    && (!Canonical(r, s[j]) ==> forall i :: j < i < |s| && Identity(r, s[i]) == key ==> !Canonical(r, s[i]))
  }

  /** The chosen candidates among the first `n`, in candidate order. */
  ghost function Select(r: Rules, taken: set<string>, s: seq<string>, n: nat): seq<string>
    requires n <= |s|
  {
    if n == 0 then []
    else Select(r, taken, s, n - 1) + if Chosen(r, taken, s, n - 1) then [s[n - 1]] else []
  }

  lemma {:induction false} Selected(r: Rules, taken: set<string>, s: seq<string>, n: nat, ref: string)
    requires n <= |s|
    ensures ref in Select(r, taken, s, n) <==> exists j :: 0 <= j < n && s[j] == ref && Chosen(r, taken, s, j)
  {
    if n > 0 { Selected(r, taken, s, n - 1, ref); }
  }

  lemma ChosenOnce(r: Rules, taken: set<string>, s: seq<string>, i: nat, j: nat)
    requires i < |s| && j < |s| && Chosen(r, taken, s, i) && Chosen(r, taken, s, j)
    requires Identity(r, s[i]) == Identity(r, s[j])
    ensures i == j
  {
  }

  /** The first index of an identity, or of its canonical refs. */
  lemma FirstIndex(r: Rules, s: seq<string>, canonical: bool, k: nat) returns (j: nat)
    requires k < |s| && (canonical ==> Canonical(r, s[k]))
    ensures j <= k && Identity(r, s[j]) == Identity(r, s[k]) && (canonical ==> Canonical(r, s[j]))
    ensures forall i :: 0 <= i < j && Identity(r, s[i]) == Identity(r, s[k]) ==> canonical && !Canonical(r, s[i])
    decreases k
  {
    j := k;
    if i :| 0 <= i < k && Identity(r, s[i]) == Identity(r, s[k]) && (canonical ==> Canonical(r, s[i])) {
      j := FirstIndex(r, s, canonical, i);
    }
  }

  /** Every free identity among the candidates has a chosen ref, canonical if any of its candidates is. */
  lemma SomeoneIsChosen(r: Rules, taken: set<string>, s: seq<string>, k: nat) returns (j: nat)
    requires k < |s| && Identity(r, s[k]) !in taken
    ensures j < |s| && Chosen(r, taken, s, j) && Identity(r, s[j]) == Identity(r, s[k])
    ensures Canonical(r, s[k]) ==> Canonical(r, s[j])
  {
    if c :| 0 <= c < |s| && Identity(r, s[c]) == Identity(r, s[k]) && Canonical(r, s[c]) {
      j := FirstIndex(r, s, true, c);
    } else {
      j := FirstIndex(r, s, false, k);
    }
  }

  /** `x` is canonical and the ref chosen so far for its identity is not. */
  ghost predicate TakesOver(r: Rules, held: string, x: string) {
    Identity(r, held) == Identity(r, x) && !Canonical(r, held) && Canonical(r, x)
  }

  lemma ChosenNext(r: Rules, taken: set<string>, s: seq<string>, x: string, j: nat)
    requires j < |s|
    ensures Chosen(r, taken, s + [x], j) <==> Chosen(r, taken, s, j) && !TakesOver(r, s[j], x)
  {
    var more := s + [x];
    assert forall i :: 0 <= i < |s| ==> more[i] == s[i];
    assert more[|s|] == x;
  }

  lemma ChosenLast(r: Rules, taken: set<string>, s: seq<string>, x: string)
    ensures Chosen(r, taken, s + [x], |s|) <==>
            Identity(r, x) !in taken &&
            forall i :: 0 <= i < |s| && Identity(r, s[i]) == Identity(r, x) ==> TakesOver(r, s[i], x)
  {
    var more := s + [x];
    assert forall i :: 0 <= i < |s| ==> more[i] == s[i];
    if Chosen(r, taken, more, |s|) {
      forall i | 0 <= i < |s| && Identity(r, s[i]) == Identity(r, x) ensures TakesOver(r, s[i], x) {
        assert Identity(r, more[i]) == Identity(r, x);
      }
    }
  }

  lemma {:induction false} SelectSame(r: Rules, taken: set<string>, s: seq<string>, x: string, n: nat)
    requires n <= |s|
    requires forall j :: 0 <= j < |s| && Chosen(r, taken, s, j) ==> !TakesOver(r, s[j], x)
    ensures Select(r, taken, s + [x], n) == Select(r, taken, s, n)
  {
    hide Chosen, TakesOver;
    if n > 0 {
      SelectSame(r, taken, s, x, n - 1);
      ChosenNext(r, taken, s, x, n - 1);
      assert (s + [x])[n - 1] == s[n - 1];
    }
  }

  lemma {:induction false} SelectReplaced(r: Rules, taken: set<string>, s: seq<string>, x: string, e: nat, n: nat)
    requires n <= |s| && e < |s| && Chosen(r, taken, s, e) && TakesOver(r, s[e], x)
    ensures Select(r, taken, s + [x], n) == Without(Select(r, taken, s, n), {s[e]})
  {
    if n > 0 {
      SelectReplaced(r, taken, s, x, e, n - 1);
      ChosenNext(r, taken, s, x, n - 1);
      if Chosen(r, taken, s, n - 1) {
        if Identity(r, s[n - 1]) == Identity(r, s[e]) { ChosenOnce(r, taken, s, n - 1, e); }
        WithoutSum(Select(r, taken, s, n - 1), [s[n - 1]], {s[e]});
        WithoutOne(s[n - 1], {s[e]});
        assert Chosen(r, taken, s + [x], n - 1) <==> s[n - 1] != s[e];
      }
      assert (s + [x])[n - 1] == s[n - 1];
      SelectStep(r, taken, s, n);
      SelectStep(r, taken, s + [x], n);
    }
  }

  lemma SelectStep(r: Rules, taken: set<string>, s: seq<string>, n: nat)
    requires 0 < n <= |s|
    ensures Chosen(r, taken, s, n - 1) ==> Select(r, taken, s, n) == Select(r, taken, s, n - 1) + [s[n - 1]]
    ensures !Chosen(r, taken, s, n - 1) ==> Select(r, taken, s, n) == Select(r, taken, s, n - 1)
  {
  }

  /** The set and the two tables of collectGroupModels after some candidates. */
  ghost predicate Collected(
    r: Rules, statics: seq<string>, taken: set<string>, s: seq<string>, picked: seq<string>, held: map<string, string>)
  {
    && picked == statics + Select(r, taken, s, |s|)
    && (forall k :: k in held <==> k in taken || k in Identities(r, s))
    && (forall k :: k in held && k in taken ==> held[k] in statics)
    && (forall k :: k in held && k !in taken ==> held[k] in Select(r, taken, s, |s|) && Identity(r, held[k]) == k)
  }

  /** Nothing changes: the identity is hand-listed, or its chosen ref stays. */
  lemma CollectedSame(
    r: Rules, statics: seq<string>, s: seq<string>, x: string, picked: seq<string>, held: map<string, string>)
    requires Collected(r, statics, Identities(r, statics), s, picked, held)
    requires Identity(r, x) in held
    requires Identity(r, x) !in Identities(r, statics) ==> !TakesOver(r, held[Identity(r, x)], x)
    ensures Collected(r, statics, Identities(r, statics), s + [x], picked, held)
  {
    var taken := Identities(r, statics);
    var key := Identity(r, x);
    ChosenLast(r, taken, s, x);
    if key !in taken { HeldIsChosen(r, taken, s, held[key]); }
    forall j | 0 <= j < |s| && Chosen(r, taken, s, j) ensures !TakesOver(r, s[j], x) {
      if Identity(r, s[j]) == key { ChosenIs(r, taken, s, j, held[key]); }
    }
    SelectSame(r, taken, s, x, |s|);
    StillIdentities(r, s, x);
    assert Select(r, taken, s + [x], |s + [x]|) == Select(r, taken, s, |s|);
  }

  lemma HeldIsChosen(r: Rules, taken: set<string>, s: seq<string>, ref: string)
    requires ref in Select(r, taken, s, |s|)
    ensures exists j :: 0 <= j < |s| && s[j] == ref && Chosen(r, taken, s, j)
  {
    Selected(r, taken, s, |s|, ref);
  }

  lemma ChosenIs(r: Rules, taken: set<string>, s: seq<string>, j: nat, ref: string)
    requires j < |s| && Chosen(r, taken, s, j) && ref in Select(r, taken, s, |s|)
    requires Identity(r, s[j]) == Identity(r, ref)
    ensures s[j] == ref
  {
    HeldIsChosen(r, taken, s, ref);
    var i :| 0 <= i < |s| && s[i] == ref && Chosen(r, taken, s, i);
    ChosenOnce(r, taken, s, i, j);
  }

  lemma StillIdentities(r: Rules, s: seq<string>, x: string)
    ensures Identities(r, s + [x]) == Identities(r, s) + {Identity(r, x)}
  {
    var more := s + [x];
    assert more[|s|] == x;
    forall k ensures k in Identities(r, more) <==> k in Identities(r, s) + {Identity(r, x)} {
      if k in Identities(r, s) {
        var i :| 0 <= i < |s| && Identity(r, s[i]) == k;
        assert more[i] == s[i];
      }
    }
  }

  lemma KnownIdentity(r: Rules, s: seq<string>, i: nat)
    requires i < |s|
    ensures Identity(r, s[i]) in Identities(r, s)
  {
  }

  /** A new identity is appended. */
  lemma CollectedNew(
    r: Rules, statics: seq<string>, s: seq<string>, x: string, picked: seq<string>, held: map<string, string>)
    requires Collected(r, statics, Identities(r, statics), s, picked, held)
    requires Identity(r, x) !in held
    ensures Collected(r, statics, Identities(r, statics), s + [x], picked + [x], held[Identity(r, x) := x])
  {
    hide Identity, Canonical;
    var taken := Identities(r, statics);
    ChosenLast(r, taken, s, x);
    forall i | 0 <= i < |s| ensures Identity(r, s[i]) != Identity(r, x) { KnownIdentity(r, s, i); }
    SelectSame(r, taken, s, x, |s|);
    StillIdentities(r, s, x);
    assert Select(r, taken, s + [x], |s + [x]|) == Select(r, taken, s, |s|) + [x];
    hide Select, Identities;
    assert (statics + Select(r, taken, s, |s|)) + [x] == statics + (Select(r, taken, s, |s|) + [x]);
  }

  /** A canonical ref replaces the alias its identity held. */
  lemma CollectedReplaced(
    r: Rules, statics: seq<string>, s: seq<string>, x: string, picked: seq<string>, held: map<string, string>)
    requires Collected(r, statics, Identities(r, statics), s, picked, held)
    requires Identity(r, x) in held && Identity(r, x) !in Identities(r, statics)
    requires TakesOver(r, held[Identity(r, x)], x)
    ensures Collected(r, statics, Identities(r, statics), s + [x],
                      Without(picked, {held[Identity(r, x)]}) + [x], held[Identity(r, x) := x])
  {
    hide Identity, Canonical, Identities, Select, Without;
    var taken, e := Identities(r, statics), held[Identity(r, x)];
    var was := Select(r, taken, s, |s|);
    SelectSwapped(r, taken, s, x, e);
    NotStatic(r, statics, e);
    WithoutSum(statics, was, {e});
    WithoutNothing(statics, {e});
    StillIdentities(r, s, x);
    assert (statics + Without(was, {e})) + [x] == statics + (Without(was, {e}) + [x]);
    forall k | k in held && k !in taken && k != Identity(r, x) ensures held[k] in Without(was, {e}) {
      WithoutIs(was, {e}, held[k]);
    }
  }

  lemma NotStatic(r: Rules, statics: seq<string>, ref: string)
    requires Identity(r, ref) !in Identities(r, statics)
    ensures ref !in statics
  {
  }

  lemma SelectSwapped(r: Rules, taken: set<string>, s: seq<string>, x: string, e: string)
    requires e in Select(r, taken, s, |s|) && TakesOver(r, e, x)
    ensures Select(r, taken, s + [x], |s + [x]|) == Without(Select(r, taken, s, |s|), {e}) + [x]
  {
    hide Identity, Canonical;
    HeldIsChosen(r, taken, s, e);
    var j :| 0 <= j < |s| && s[j] == e && Chosen(r, taken, s, j);
    ChosenLast(r, taken, s, x);
    forall i | 0 <= i < |s| && Identity(r, s[i]) == Identity(r, x) ensures TakesOver(r, s[i], x) {
      assert i != j ==> !Canonical(r, s[i]);
    }
    SelectReplaced(r, taken, s, x, j, |s|);
  }

  method CollectGroupModels(r: Rules, listed: seq<string>, sorted: seq<string>) returns (picked: seq<string>)
    ensures picked == HandListed(r, listed) +
                       Select(r, Identities(r, HandListed(r, listed)), sorted, |sorted|)
  {
    hide Select, Identities, Identity, Canonical, Without, Collected, HandListed;
    var held;
    picked, held := CollectListed(r, listed);
    var staticIncluded := picked;
    ghost var taken := Identities(r, staticIncluded);
    CollectedStart(r, staticIncluded, held);
    for i := 0 to |sorted|
      invariant Collected(r, staticIncluded, taken, sorted[..i], picked, held)
    {
      var ref := sorted[i];
      ghost var seen := sorted[..i];
      assert sorted[..i + 1] == seen + [ref];
      if ref in picked {
        AlreadyIncluded(r, staticIncluded, seen, ref, picked, held);
        CollectedSame(r, staticIncluded, seen, ref, picked, held);
        continue;
      }
      var key := Identity(r, ref);
      if key in held {
        var existing := held[key];
        HeldStatic(r, staticIncluded, seen, key, picked, held);
        if existing !in staticIncluded && !Canonical(r, existing) && Canonical(r, ref) {
          CollectedReplaced(r, staticIncluded, seen, ref, picked, held);
          picked := Without(picked, {existing}) + [ref];
          held := held[key := ref];
        } else {
          CollectedSame(r, staticIncluded, seen, ref, picked, held);
        }
        continue;
      }
      CollectedNew(r, staticIncluded, seen, ref, picked, held);
      picked := picked + [ref];
      held := held[key := ref];
    }
    assert sorted[..|sorted|] == sorted;
    CollectedIs(r, staticIncluded, taken, sorted, picked, held);
  }

  /** The hand-curated models that pass the gates, and which of them each identity holds. */
  method CollectListed(r: Rules, listed: seq<string>) returns (picked: seq<string>, held: map<string, string>)
    ensures picked == HandListed(r, listed)
    ensures held.Keys == Identities(r, picked) && forall k :: k in held ==> held[k] in picked
  {
    picked, held := [], map[];
    for i := 0 to |listed|
      invariant picked == HandListed(r, listed[..i])
      invariant held.Keys == Identities(r, picked)
      invariant forall k :: k in held ==> held[k] in picked
    {
      assert listed[..i + 1][..i] == listed[..i];
      var ref := listed[i];
      if !r.admitted(ref) { continue; }
      AddIdentity(r, picked, ref);
      picked := Add(picked, ref);
      held := held[Identity(r, ref) := ref];
    }
    assert listed[..|listed|] == listed;
  }

  lemma CollectedStart(r: Rules, statics: seq<string>, held: map<string, string>)
    requires held.Keys == Identities(r, statics) && forall k :: k in held ==> held[k] in statics
    ensures Collected(r, statics, Identities(r, statics), [], statics, held)
  {
  }

  lemma CollectedIs(
    r: Rules, statics: seq<string>, taken: set<string>, s: seq<string>, picked: seq<string>, held: map<string, string>)
    requires Collected(r, statics, taken, s, picked, held)
    ensures picked == statics + Select(r, taken, s, |s|)
  {
  }

  lemma AddIdentity(r: Rules, refs: seq<string>, ref: string)
    ensures Identities(r, Add(refs, ref)) == Identities(r, refs) + {Identity(r, ref)}
  {
    if ref in refs {
      var i :| 0 <= i < |refs| && refs[i] == ref;
      assert Identity(r, refs[i]) in Identities(r, refs);
    } else {
      var more := refs + [ref];
      assert more[|refs|] == ref;
      forall k ensures k in Identities(r, more) <==> k in Identities(r, refs) + {Identity(r, ref)} {
        if k in Identities(r, refs) {
          var i :| 0 <= i < |refs| && Identity(r, refs[i]) == k;
          assert more[i] == refs[i];
        }
      }
    }
  }

  lemma AlreadyIncluded(
    r: Rules, statics: seq<string>, s: seq<string>, x: string, picked: seq<string>, held: map<string, string>)
    requires Collected(r, statics, Identities(r, statics), s, picked, held) && x in picked
    ensures Identity(r, x) in held
    ensures Identity(r, x) !in Identities(r, statics) ==> !TakesOver(r, held[Identity(r, x)], x)
  {
    var taken := Identities(r, statics);
    if x in statics {
      var i :| 0 <= i < |statics| && statics[i] == x;
      assert Identity(r, statics[i]) in taken;
    } else {
      HeldIsChosen(r, taken, s, x);
      var j :| 0 <= j < |s| && s[j] == x && Chosen(r, taken, s, j);
      if Identity(r, x) !in taken { ChosenIs(r, taken, s, j, held[Identity(r, x)]); }
    }
  }

  /** What an identity holds is hand-listed exactly when the identity is. */
  lemma HeldStatic(
    r: Rules, statics: seq<string>, s: seq<string>, key: string, picked: seq<string>, held: map<string, string>)
    requires Collected(r, statics, Identities(r, statics), s, picked, held) && key in held
    ensures held[key] in statics <==> key in Identities(r, statics)
    ensures key !in Identities(r, statics) ==> Identity(r, held[key]) == key
  {
  }

  // ---- What the group promises ----

  lemma {:induction false} HandListedKept(r: Rules, listed: seq<string>)
    ensures forall ref :: ref in HandListed(r, listed) <==> ref in listed && r.admitted(ref)
    ensures Distinct(HandListed(r, listed))
  {
    if listed != [] { HandListedKept(r, listed[..|listed| - 1]); }
  }

  ghost predicate Subsequence(a: seq<string>, b: seq<string>) {
    || a == []
    || (b != [] && Subsequence(a, b[..|b| - 1]))
    || (b != [] && a[|a| - 1] == b[|b| - 1] && Subsequence(a[..|a| - 1], b[..|b| - 1]))
  }

  lemma {:induction false} SelectIsSubsequence(r: Rules, taken: set<string>, s: seq<string>, n: nat)
    requires n <= |s|
    ensures Subsequence(Select(r, taken, s, n), s[..n])
  {
    if n > 0 {
      SelectIsSubsequence(r, taken, s, n - 1);
      SelectStep(r, taken, s, n);
      assert s[..n][..n - 1] == s[..n - 1];
    }
  }

  lemma ChosenApart(r: Rules, taken: set<string>, s: seq<string>, i: nat, j: nat)
    requires i < j < |s| && Chosen(r, taken, s, i) && Chosen(r, taken, s, j)
    ensures Identity(r, s[i]) != Identity(r, s[j])
  {
  }

  lemma {:induction false} SelectOncePerIdentity(r: Rules, taken: set<string>, s: seq<string>, n: nat)
    requires n <= |s|
    ensures var d := Select(r, taken, s, n);
            forall i, j :: 0 <= i < j < |d| ==> Identity(r, d[i]) != Identity(r, d[j])
  {
    hide Identity;
    if n > 0 {
      SelectOncePerIdentity(r, taken, s, n - 1);
      SelectStep(r, taken, s, n);
      var before := Select(r, taken, s, n - 1);
      if Chosen(r, taken, s, n - 1) {
        forall i | 0 <= i < |before| ensures Identity(r, before[i]) != Identity(r, s[n - 1]) {
          assert before[i] in before;
          Selected(r, taken, s, n - 1, before[i]);
          var k :| 0 <= k < n - 1 && s[k] == before[i] && Chosen(r, taken, s, k);
          ChosenApart(r, taken, s, k, n - 1);
        }
      }
    }
  }

  /** A candidate with a free identity is represented, and by a canonical ref if it is canonical itself. */
  lemma Represented(r: Rules, taken: set<string>, s: seq<string>, k: nat, ref: string)
    requires k < |s|
    ensures Identity(r, s[k]) !in taken ==>
              exists d :: d in Select(r, taken, s, |s|) && Identity(r, d) == Identity(r, s[k])
    ensures ref in Select(r, taken, s, |s|) ==> Identity(r, ref) !in taken
    ensures ref in Select(r, taken, s, |s|) && Identity(r, ref) == Identity(r, s[k]) && Canonical(r, s[k])
            ==> Canonical(r, ref)
  {
    hide Identity, Canonical;
    if Identity(r, s[k]) !in taken {
      var j := SomeoneIsChosen(r, taken, s, k);
      Selected(r, taken, s, |s|, s[j]);
      if ref in Select(r, taken, s, |s|) && Identity(r, ref) == Identity(r, s[k]) { ChosenIs(r, taken, s, j, ref); }
    }
    if ref in Select(r, taken, s, |s|) { HeldIsChosen(r, taken, s, ref); }
  }

  ghost predicate HasCanonical(r: Rules, s: seq<string>, key: string) {
    exists k :: 0 <= k < |s| && Identity(r, s[k]) == key && Canonical(r, s[k])
  }

  /**
   * The group collectGroupModels builds: every admitted hand-listed ref first, then candidates in their own order,
   * at most one per identity and none for a hand-listed identity; every candidate's identity is represented, and a
   * dynamic ref is canonical whenever some candidate of its identity is.
   */
  lemma GroupIsDeduplicated(r: Rules, listed: seq<string>, s: seq<string>)
    ensures var statics := HandListed(r, listed);
            var taken := Identities(r, statics);
            var dynamic := Select(r, taken, s, |s|);
            && (forall ref :: ref in statics <==> ref in listed && r.admitted(ref))
            && Distinct(statics)
            && Subsequence(dynamic, s)
            && (forall i, j :: 0 <= i < j < |dynamic| ==> Identity(r, dynamic[i]) != Identity(r, dynamic[j]))
            && (forall k :: 0 <= k < |s| ==>
                  Identity(r, s[k]) in taken || exists d :: d in dynamic && Identity(r, d) == Identity(r, s[k]))
            && (forall d :: d in dynamic ==>
                  Identity(r, d) !in taken && (HasCanonical(r, s, Identity(r, d)) ==> Canonical(r, d)))
  {
    hide Identity, Canonical, Identities, Select;
    var taken := Identities(r, HandListed(r, listed));
    HandListedKept(r, listed);
    SelectIsSubsequence(r, taken, s, |s|);
    assert s[..|s|] == s;
    SelectOncePerIdentity(r, taken, s, |s|);
    forall d | d in Select(r, taken, s, |s|)
      ensures Identity(r, d) !in taken && (HasCanonical(r, s, Identity(r, d)) ==> Canonical(r, d))
    {
      HeldIsChosen(r, taken, s, d);
      if HasCanonical(r, s, Identity(r, d)) {
        var k :| 0 <= k < |s| && Identity(r, s[k]) == Identity(r, d) && Canonical(r, s[k]);
        Represented(r, taken, s, k, d);
      }
    }
    forall k | 0 <= k < |s|
      ensures Identity(r, s[k]) in taken
           || exists d :: d in Select(r, taken, s, |s|) && Identity(r, d) == Identity(r, s[k])
    {
      Represented(r, taken, s, k, "");
    }
  }

  // ---- in terms of slugs and ids ----

  /** The ref is matched to the slug. */
  predicate Matched(r: Rules, ref: string, slug: string) {
    r.slug(ref) == Some(slug)
  }

  /** A ref matched to a slug that is not its own name, once both are normalised. */
  predicate Alias(r: Rules, ref: string, slug: string) {
    Matched(r, ref, slug) && r.normalize(ModelId(ref)) != r.normalize(slug)
  }

  /** A ref matched to the slug that is its own name. */
  predicate NamesSlug(r: Rules, ref: string, slug: string) {
    Matched(r, ref, slug) && r.normalize(ModelId(ref)) == r.normalize(slug)
  }

  ghost function DynamicPart(r: Rules, listed: seq<string>, s: seq<string>): seq<string> {
    var statics := HandListed(r, listed);
    Select(r, Identities(r, statics), s, |s|)
  }

  /** No alias of a slug is generated beside or instead of a candidate that bears the slug's own name. */
  lemma AliasesGiveWay(r: Rules, listed: seq<string>, s: seq<string>, alias: string, named: string, slug: string)
    requires slug != "" && named in s && Alias(r, alias, slug) && NamesSlug(r, named, slug)
    ensures alias !in DynamicPart(r, listed, s)
  {
    hide DynamicPart, Identities, Select, HandListed;
    GroupIsDeduplicated(r, listed, s);
    var k :| 0 <= k < |s| && s[k] == named;
    assert HasCanonical(r, s, slug);
    PartIs(r, listed, s);
  }

  lemma PartIs(r: Rules, listed: seq<string>, s: seq<string>)
    ensures var taken := Identities(r, HandListed(r, listed));
            DynamicPart(r, listed, s) == Select(r, taken, s, |s|)
  {
  }

  lemma {:induction false} NoneListed(r: Rules, listed: seq<string>)
    requires forall h :: h in listed ==> !r.admitted(h)
    ensures HandListed(r, listed) == []
  {
    if listed != [] {
      assert listed[|listed| - 1] in listed;
      NoneListed(r, listed[..|listed| - 1]);
    }
  }

  /**
   * Two generated refs are matched to different slugs, or unmatched with different token signatures; a slug or
   * signature of a hand-listed ref is not generated again; every other slug or signature among the candidates is.
   */
  lemma OnePerSlug(r: Rules, listed: seq<string>, s: seq<string>, a: nat, b: nat, slug: string)
    ensures var d := DynamicPart(r, listed, s);
            && (a < b < |d| && r.slug(d[a]).Some? ==> r.slug(d[b]) != r.slug(d[a]))
            && (a < b < |d| && r.slug(d[a]).None? && r.slug(d[b]).None? ==> r.signature(d[a]) != r.signature(d[b]))
            && (a < |d| && r.slug(d[a]).Some? ==>
                  forall h :: h in listed && r.admitted(h) ==> r.slug(h) != r.slug(d[a]))
            && (a < |s| && Matched(r, s[a], slug) && (forall h :: h in listed ==> !r.admitted(h)) ==>
                  exists ref :: ref in d && Identity(r, ref) == slug)
            && (a < |s| && r.slug(s[a]).None? && (forall h :: h in listed ==> !r.admitted(h)) ==>
                  exists ref :: ref in d && Identity(r, ref) == r.signature(s[a]))
  {
    hide DynamicPart, Select, HandListed;
    GroupIsDeduplicated(r, listed, s);
    PartIs(r, listed, s);
    var statics := HandListed(r, listed);
    var d := DynamicPart(r, listed, s);
    if a < |d| {
      forall h | h in listed && r.admitted(h) && r.slug(d[a]).Some? ensures r.slug(h) != r.slug(d[a]) {
        assert h in statics && d[a] in d;
        var i :| 0 <= i < |statics| && statics[i] == h;
        assert Identity(r, h) in Identities(r, statics);
      }
    }
    if forall h :: h in listed ==> !r.admitted(h) {
      NoneListed(r, listed);
    }
  }

  /**
   * When two models fall into one cluster: same provider and slug always do; unmatched models of different refs
   * never do, nor do models of different slugs or, with no colon in their providers, of different providers.
   */
  lemma ClustersAre(r: Rules, p: string, q: string, a: string, b: string)
    requires '/' !in p && '/' !in q
    ensures var x, y := p + "/" + a, q + "/" + b;
            && (r.slug(x).Some? && r.slug(x).value != "" && r.slug(y) == r.slug(x) && p == q ==>
                  ClusterKey(r, x) == ClusterKey(r, y))
            && (r.slug(x).None? && r.slug(y).None? ==> (ClusterKey(r, x) == ClusterKey(r, y) <==> x == y))
            && (r.slug(x).Some? && r.slug(y).Some? && r.slug(x).value != "" && r.slug(y).value != ""
                && ':' !in p && ':' !in q && ClusterKey(r, x) == ClusterKey(r, y)
                ==> p == q && r.slug(x) == r.slug(y))
  {
    ProviderIs(p, a);
    ProviderIs(q, b);
    var x, y := p + "/" + a, q + "/" + b;
    if r.slug(x).Some? && r.slug(y).Some? && r.slug(x).value != "" && r.slug(y).value != "" && ':' !in p && ':' !in q
       && ClusterKey(r, x) == ClusterKey(r, y)
    {
      ColonSplits(p, r.slug(x).value, q, r.slug(y).value);
    }
  }

  lemma {:induction false} ColonSplits(p: string, a: string, q: string, b: string)
    requires ':' !in p && ':' !in q && p + ":" + a == q + ":" + b
    ensures p == q && a == b
  {
    var u, v := p + ":" + a, q + ":" + b;
    assert u[|p|] == ':' && v[|q|] == ':';
    assert |p| == |q|;
    assert u[..|p|] == p && v[..|q|] == q && u[|p| + 1..] == a && v[|q| + 1..] == b;
  }

  /** The model kept for a cluster bears its slug's own name if any model of the cluster does, else it is the first. */
  lemma KeptForCluster(r: Rules, models: seq<Model>, key: string, i: nat, j: nat, slug: string)
    requires Keeps(r, models, key, i) && j < |models| && ClusterKey(r, models[j].ref) == key && slug != ""
    requires Matched(r, models[j].ref, slug) && Matched(r, models[i].ref, slug)
    ensures NamesSlug(r, models[j].ref, slug) ==> NamesSlug(r, models[i].ref, slug) && i <= j
    ensures Alias(r, models[i].ref, slug) ==> i <= j
  {
  }
}
