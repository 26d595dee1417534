/** src/config-loader.ts: layered configuration, merged key by key, with unions under the top-level exclude block. */
module ConfigLoader {
  import opened JsonValues
  import opened Seqs

  type Path = seq<string>

  // ---- deepMergeConfig ----

  /** Set.prototype.add: primitives are compared by value, objects by identity. */
  function AddItem(s: seq<Json>, x: Json): seq<Json> {
    if !x.Obj? && !x.Arr? && x in s then s else s + [x]
  }

  /** [...new Set([...a, ...b])] */
  function AddItems(s: seq<Json>, items: seq<Json>): seq<Json> {
    if items == [] then s else AddItem(AddItems(s, items[..|items| - 1]), items[|items| - 1])
  }

  function Union(a: seq<Json>, b: seq<Json>): seq<Json> {
    AddItems(AddItems([], a), b)
  }

  predicate InExclude(path: Path) {
    path == ["exclude"]
  }

  /** What a key ends up holding: `b` is the base's value, if it has one. */
  function MergeValue(b: Option<Json>, v: Json, path: Path, key: string): Json
    decreases v, 1
  {
    if InExclude(path) && v.Arr? && b.Some? && b.value.Arr? then Arr(Union(b.value.items, v.items))
    else if v.Obj? && b.Some? && (b.value.Obj? || b.value.Null?) then
      Obj(Merge(if b.value.Obj? then b.value.fields else map[], v, path + [key]))
    else v
  }

  function Merge(base: map<string, Json>, over: Json, path: Path): map<string, Json>
    requires over.Obj?
    decreases over, 0
  {
    map k | k in base.Keys + over.fields.Keys ::
      if k in over.fields then MergeValue(At(base, k), over.fields[k], path, k) else base[k]
  }

  method DeepMergeConfig(base: map<string, Json>, over: Json, path: Path) returns (result: map<string, Json>)
    requires over.Obj?
    ensures result == Merge(base, over, path)
    decreases over
  {
    result := base;
    var inExclude := |path| == 1 && path[0] == "exclude";
    assert inExclude == InExclude(path);
    var todo := over.fields.Keys;
    while todo != {}
      invariant todo <= over.fields.Keys
      invariant forall k :: At(result, k) ==
                            if k in over.fields && k !in todo
                            then Some(MergeValue(At(base, k), over.fields[k], path, k))
                            else At(base, k)
      decreases todo
    {
      var key :| key in todo;
      var val := over.fields[key];
      var was := At(result, key);
      assert was == At(base, key);
      var merged;
      if inExclude && val.Arr? && was.Some? && was.value.Arr? {
        merged := Arr(Union(was.value.items, val.items));
      } else if val.Obj? && was.Some? && (was.value.Obj? || was.value.Null?) {
        var inner := DeepMergeConfig(if was.value.Obj? then was.value.fields else map[], val, path + [key]);
        merged := Obj(inner);
      } else {
        merged := val;
      }
      result := result[key := merged];
      todo := todo - {key};
    }
    assert forall k :: At(result, k) == At(Merge(base, over, path), k);
    SameMap(result, Merge(base, over, path));
  }

  // ---- Reading a path ----

  function Get(j: Json, p: Path): Option<Json> {
    if p == [] then Some(j)
    else if j.Obj? && p[0] in j.fields then Get(j.fields[p[0]], p[1..])
    else None
  }

  /** The layer puts a primitive or an array at the path or above it. */
  predicate Decides(j: Json, p: Path) {
    if !j.Obj? then true
    else p != [] && p[0] in j.fields && Decides(j.fields[p[0]], p[1..])
  }

  lemma MergedAt(base: map<string, Json>, over: Json, path: Path, k: string)
    requires over.Obj?
    ensures At(Merge(base, over, path), k) ==
            if k in over.fields then Some(MergeValue(At(base, k), over.fields[k], path, k)) else At(base, k)
  {
  }

  lemma GetStep(j: Json, p: Path)
    requires p != []
    ensures Get(j, p) == if j.Obj? && At(j.fields, p[0]).Some? then Get(At(j.fields, p[0]).value, p[1..]) else None
  {
  }

  /** The path does not lead into the top-level exclude block from above it. */
  ghost predicate Plain(path: Path, p: Path) {
    !(|path + p| >= 2 && (path + p)[0] == "exclude" && |path| <= 1)
  }

  /**
   * The law of a path outside the exclude lists: the overriding layer's value if it decides the path, else the base's
   * value where the layer says nothing, else an object.
   */
  lemma {:induction false} PathLaw(base: Json, over: Json, path: Path, p: Path)
    requires base.Obj? && over.Obj? && Plain(path, p)
    ensures var merged := Obj(Merge(base.fields, over, path));
            && (Decides(over, p) ==> Get(merged, p) == Get(over, p))
            && (!Decides(over, p) && Get(over, p).None? ==> Get(merged, p) == Get(base, p))
            && (!Decides(over, p) && Get(over, p).Some? ==> Get(merged, p).Some? && Get(merged, p).value.Obj?)
    decreases over
  {
    if p != [] && p[0] in over.fields {
      var k, v, b := p[0], over.fields[p[0]], At(base.fields, p[0]);
      MergedAt(base.fields, over, path, k);
      GetStep(Obj(Merge(base.fields, over, path)), p);
      GetStep(base, p);
      if v.Obj? && b.Some? && (b.value.Obj? || b.value.Null?) {
        var inner := if b.value.Obj? then b.value else Obj(map[]);
        assert (path + [k]) + p[1..] == path + p;
        PathLaw(inner, v, path + [k], p[1..]);
        NothingThere(b.value, p[1..]);
      } else {
        assert MergeValue(b, v, path, k) == v by { PlainStep(path, p); }
        NotDecided(v, p[1..]);
        assert Get(over, p) == Get(v, p[1..]) && Decides(over, p) == Decides(v, p[1..]);
        assert At(Merge(base.fields, over, path), k) == Some(v);
        assert Get(Obj(Merge(base.fields, over, path)), p) == Get(v, p[1..]);
        if b.Some? { NothingThere(b.value, p[1..]); }
      }
    } else if p != [] {
      MergedAt(base.fields, over, path, p[0]);
      GetStep(Obj(Merge(base.fields, over, path)), p);
    }
  }

  /** Below something that is not an object there is nothing. */
  lemma NothingThere(j: Json, p: Path)
    ensures !j.Obj? && p != [] ==> Get(j, p).None?
  {
  }

  lemma {:induction false} NotDecided(j: Json, p: Path)
    ensures !Decides(j, p) && Get(j, p).Some? ==> Get(j, p).value.Obj?
  {
    if j.Obj? && p != [] && p[0] in j.fields { NotDecided(j.fields[p[0]], p[1..]); }
  }

  lemma PlainStep(path: Path, p: Path)
    requires Plain(path, p) && p != []
    ensures !InExclude(path)
  {
  }

  // ---- Layers ----

  /** The base with each layer merged over it in turn. */
  function Stack(base: Json, layers: seq<Json>): Json
    requires base.Obj? && forall i :: 0 <= i < |layers| ==> layers[i].Obj?
    ensures Stack(base, layers).Obj?
  {
    if layers == [] then base
    else Obj(Merge(Stack(base, layers[..|layers| - 1]).fields, layers[|layers| - 1], []))
  }

  /** The layer says nothing about the path or anything above it that is not an object. */
  predicate Silent(j: Json, p: Path) {
    !Decides(j, p) && Get(j, p).None?
  }

  /** Outside the exclude block the last layer that decides a path gives its value; silent layers change nothing. */
  lemma {:induction false} LastLayerWins(base: Json, layers: seq<Json>, i: nat, p: Path)
    requires base.Obj? && forall k :: 0 <= k < |layers| ==> layers[k].Obj?
    requires Plain([], p) && i <= |layers| && forall k :: i <= k < |layers| ==> Silent(layers[k], p)
    ensures i > 0 && Decides(layers[i - 1], p) ==> Get(Stack(base, layers), p) == Get(layers[i - 1], p)
    ensures i == 0 ==> Get(Stack(base, layers), p) == Get(base, p)
    decreases |layers|
  {
    if layers != [] {
      var n := |layers| - 1;
      PathLaw(Stack(base, layers[..n]), layers[n], [], p);
      if i <= n { LastLayerWins(base, layers[..n], i, p); }
    }
  }

  // ---- Unions ----

  predicate Primitive(j: Json) {
    !j.Obj? && !j.Arr?
  }

  predicate AllPrimitive(items: seq<Json>) {
    forall i :: 0 <= i < |items| ==> Primitive(items[i])
  }

  /** No primitive appears twice. */
  ghost predicate Tidy(s: seq<Json>) {
    forall i, j :: 0 <= i < j < |s| && Primitive(s[i]) ==> s[i] != s[j]
  }

  lemma {:induction false} Added(s: seq<Json>, items: seq<Json>)
    ensures s <= AddItems(s, items)
    ensures forall x :: x in AddItems(s, items) <==> x in s || x in items
    ensures Tidy(s) ==> Tidy(AddItems(s, items))
  {
    if items != [] { Added(s, items[..|items| - 1]); }
  }

  lemma {:induction false} AddKnown(s: seq<Json>, items: seq<Json>)
    requires AllPrimitive(items) && forall x :: x in items ==> x in s
    ensures AddItems(s, items) == s
  {
    if items != [] { AddKnown(s, items[..|items| - 1]); }
  }

  lemma {:induction false} AddFresh(items: seq<Json>)
    requires Tidy(items)
    ensures AddItems([], items) == items
  {
    if items != [] {
      AddFresh(items[..|items| - 1]);
    }
  }

  /** The union holds what either list holds, the base's items first, no primitive twice. */
  lemma UnionIs(a: seq<Json>, b: seq<Json>)
    ensures forall x :: x in Union(a, b) <==> x in a || x in b
    ensures Tidy(Union(a, b))
    ensures Tidy(a) ==> a <= Union(a, b)
  {
    Added([], a);
    Added(AddItems([], a), b);
    if Tidy(a) { AddFresh(a); }
  }

  /**
   * The union item by item: it starts empty, and an item of the base, then one of the override, is appended unless
   * it is a primitive already there.
   */
  lemma UnionGrows(a: seq<Json>, b: seq<Json>, x: Json)
    ensures Union([], []) == []
    ensures Union(a + [x], []) == if Primitive(x) && x in Union(a, []) then Union(a, []) else Union(a, []) + [x]
    ensures Union(a, b + [x]) == if Primitive(x) && x in Union(a, b) then Union(a, b) else Union(a, b) + [x]
  {
    assert (a + [x])[..|a|] == a && (b + [x])[..|b|] == b;
  }

  /** In a well-typed layer an exclude block is an object of lists of primitives. */
  ghost predicate WellTyped(j: Json) {
    && j.Obj?
    && ("exclude" in j.fields ==>
          && j.fields["exclude"].Obj?
          && forall k :: k in j.fields["exclude"].fields ==>
               j.fields["exclude"].fields[k].Arr? && AllPrimitive(j.fields["exclude"].fields[k].items))
  }

  function ListAt(j: Json, k: string): Option<seq<Json>> {
    if j.Obj? && "exclude" in j.fields && j.fields["exclude"].Obj? && k in j.fields["exclude"].fields
       && j.fields["exclude"].fields[k].Arr?
    then Some(j.fields["exclude"].fields[k].items) else None
  }

  lemma MergedExclude(base: Json, over: Json, k: string)
    requires WellTyped(base) && WellTyped(over)
    ensures var merged := Obj(Merge(base.fields, over, []));
            && ListAt(merged, k) ==
               (if ListAt(over, k).None? then ListAt(base, k)
                else if ListAt(base, k).None? then ListAt(over, k)
                else Some(Union(ListAt(base, k).value, ListAt(over, k).value)))
  {
    var e := "exclude";
    MergedAt(base.fields, over, [], e);
    if e in over.fields && e in base.fields {
      MergedAt(base.fields[e].fields, over.fields[e], [e], k);
      assert [] + [e] == [e];
      assert MergeValue(At(base.fields, e), over.fields[e], [], e)
          == Obj(Merge(base.fields[e].fields, over.fields[e], [e]));
    }
  }

  lemma MergedIsWellTyped(base: Json, over: Json)
    requires WellTyped(base) && WellTyped(over)
    ensures WellTyped(Obj(Merge(base.fields, over, [])))
  {
    var e := "exclude";
    MergedAt(base.fields, over, [], e);
    if e in over.fields && e in base.fields {
      assert [] + [e] == [e];
      var inner := Merge(base.fields[e].fields, over.fields[e], [e]);
      assert MergeValue(At(base.fields, e), over.fields[e], [], e) == Obj(inner);
      forall k | k in inner ensures inner[k].Arr? && AllPrimitive(inner[k].items) {
        MergedAt(base.fields[e].fields, over.fields[e], [e], k);
        if k in over.fields[e].fields && k in base.fields[e].fields {
          var a, b := base.fields[e].fields[k].items, over.fields[e].fields[k].items;
          UnionIs(a, b);
          forall i | 0 <= i < |Union(a, b)| ensures Primitive(Union(a, b)[i]) {
            assert Union(a, b)[i] in Union(a, b);
          }
        }
      }
    }
  }

  ghost predicate InLayers(base: Json, layers: seq<Json>, k: string, x: Json) {
    || (ListAt(base, k).Some? && x in ListAt(base, k).value)
    || exists i :: 0 <= i < |layers| && ListAt(layers[i], k).Some? && x in ListAt(layers[i], k).value
  }

  ghost predicate SomeLayer(base: Json, layers: seq<Json>, k: string) {
    ListAt(base, k).Some? || exists i :: 0 <= i < |layers| && ListAt(layers[i], k).Some?
  }

  /** Every exclude list of the merged config is the union of that list over all layers, absent only if all lack it. */
  lemma {:induction false} ExcludeIsUnion(base: Json, layers: seq<Json>, k: string)
    requires WellTyped(base) && forall i :: 0 <= i < |layers| ==> layers[i].Obj? && WellTyped(layers[i])
    ensures WellTyped(Stack(base, layers))
    ensures ListAt(Stack(base, layers), k).Some? <==> SomeLayer(base, layers, k)
    ensures forall x :: (ListAt(Stack(base, layers), k).Some? && x in ListAt(Stack(base, layers), k).value)
                        <==> InLayers(base, layers, k, x)
  {
    if layers != [] {
      var n := |layers| - 1;
      var before := layers[..n];
      ExcludeIsUnion(base, before, k);
      var was := Stack(base, before);
      MergedExclude(was, layers[n], k);
      MergedIsWellTyped(was, layers[n]);
      if ListAt(was, k).Some? && ListAt(layers[n], k).Some? {
        UnionIs(ListAt(was, k).value, ListAt(layers[n], k).value);
      }
      hide WellTyped, ListAt, Union;
      forall x ensures InLayers(base, layers, k, x) <==>
        InLayers(base, before, k, x) || (ListAt(layers[n], k).Some? && x in ListAt(layers[n], k).value)
      {
        LayersNext(base, layers, k, x);
      }
      LayersNext(base, layers, k, Null);
    }
  }

  lemma LayersNext(base: Json, layers: seq<Json>, k: string, x: Json)
    requires layers != []
    ensures var n := |layers| - 1;
            && (InLayers(base, layers, k, x) <==>
                InLayers(base, layers[..n], k, x) || (ListAt(layers[n], k).Some? && x in ListAt(layers[n], k).value))
            && (SomeLayer(base, layers, k) <==> SomeLayer(base, layers[..n], k) || ListAt(layers[n], k).Some?)
  {
  }

  // ---- Merging a layer twice ----

  /** Merging the value once more changes nothing. */
  ghost predicate Settles(b: Option<Json>, v: Json, path: Path, key: string) {
    MergeValue(Some(MergeValue(b, v, path, key)), v, path, key) == MergeValue(b, v, path, key)
  }

  lemma MergeTwiceIsKeywise(base: map<string, Json>, over: Json, path: Path)
    requires over.Obj?
    ensures Merge(Merge(base, over, path), over, path) == Merge(base, over, path)
            <==> forall k :: k in over.fields ==> Settles(At(base, k), over.fields[k], path, k)
  {
  }

  function Inner(b: Option<Json>, k: string): Option<Json> {
    if b.Some? && b.value.Obj? then At(b.value.fields, k) else None
  }

  /** Merging over nothing leaves an object as it is. */
  lemma MergeOverNothing(v: Json, path: Path)
    requires v.Obj?
    ensures Merge(map[], v, path) == v.fields
  {
  }

  lemma SettlesInside(b: Option<Json>, v: Json, path: Path, key: string)
    requires v.Obj?
    ensures Settles(b, v, path, key) <==>
            forall k :: k in v.fields ==> Settles(Inner(b, k), v.fields[k], path + [key], k)
  {
    var bf := if b.Some? && b.value.Obj? then b.value.fields else map[];
    var deeper := path + [key];
    MergeOverNothing(v, deeper);
    assert MergeValue(b, v, path, key) == Obj(Merge(bf, v, deeper));
    MergeTwiceIsKeywise(bf, v, deeper);
    assert forall k :: k in v.fields ==> At(bf, k) == Inner(b, k);
    hide Merge;
    assert Settles(b, v, path, key) <==> Merge(Merge(bf, v, deeper), v, deeper) == Merge(bf, v, deeper);
  }

  /** Away from the exclude lists merging settles at once. */
  lemma {:induction false} PlainSettles(b: Option<Json>, v: Json, path: Path, key: string)
    requires !InExclude(path) && !InExclude(path + [key])
    ensures Settles(b, v, path, key)
    decreases v
  {
    if v.Obj? {
      forall k | k in v.fields ensures Settles(Inner(b, k), v.fields[k], path + [key], k) {
        assert |path + [key] + [k]| > 1;
        PlainSettles(Inner(b, k), v.fields[k], path + [key], k);
      }
      SettlesInside(b, v, path, key);
    }
  }

  /** A list merged into a list settles; a list put where there was none settles if it repeats no item. */
  lemma ListSettles(b: Option<Json>, v: Json, path: Path, key: string)
    requires InExclude(path) && v.Arr? && AllPrimitive(v.items)
    ensures Settles(b, v, path, key) <==> (b.Some? && b.value.Arr?) || Distinct(v.items)
  {
    if b.Some? && b.value.Arr? {
      var u := Union(b.value.items, v.items);
      UnionIs(b.value.items, v.items);
      AddFresh(u);
      AddKnown(u, v.items);
    } else {
      UnionIs(v.items, v.items);
      Added([], v.items);
      AddKnown(AddItems([], v.items), v.items);
      if Distinct(v.items) { AddFresh(v.items); }
      assert Settles(b, v, path, key) <==> Union(v.items, v.items) == v.items;
      assert Tidy(v.items) <==> Distinct(v.items);
    }
  }

  /**
   * Merging a well-typed layer twice is merging it once exactly when every exclude list the base did not have comes
   * without repeated items.
   */
  lemma MergeTwiceIff(base: Json, over: Json)
    requires base.Obj? && WellTyped(over)
    ensures Merge(Merge(base.fields, over, []), over, []) == Merge(base.fields, over, []) <==>
            forall k :: ListAt(over, k).Some? && ListAt(base, k).None? ==> Distinct(ListAt(over, k).value)
  {
    var e := "exclude";
    MergeTwiceIsKeywise(base.fields, over, []);
    forall k | k in over.fields && k != e ensures Settles(At(base.fields, k), over.fields[k], [], k) {
      assert [] + [k] == [k];
      PlainSettles(At(base.fields, k), over.fields[k], [], k);
    }
    if e in over.fields {
      ExcludeSettles(At(base.fields, e), over.fields[e], base, over);
    }
  }

  lemma ExcludeSettles(b: Option<Json>, v: Json, base: Json, over: Json)
    requires base.Obj? && WellTyped(over) && "exclude" in over.fields
    requires b == At(base.fields, "exclude") && v == over.fields["exclude"]
    ensures Settles(b, v, [], "exclude") <==>
            forall k :: ListAt(over, k).Some? && ListAt(base, k).None? ==> Distinct(ListAt(over, k).value)
  {
    var e := "exclude";
    SettlesInside(b, v, [], e);
    assert [] + [e] == [e];
    forall k | k in v.fields
      ensures Settles(Inner(b, k), v.fields[k], [e], k) <==>
              (ListAt(base, k).None? ==> Distinct(ListAt(over, k).value))
      ensures ListAt(over, k) == Some(v.fields[k].items)
    {
      ListSettles(Inner(b, k), v.fields[k], [e], k);
    }
    hide Settles, Distinct, Inner;
    assert forall k :: ListAt(over, k).Some? ==> k in v.fields;
  }

  // ---- Removed groups ----

  const REMOVED_GROUPS: set<string> := {
    "trivial", "scout", "fallback", "operational", "tactical", "strategic", "complex"}

  predicate NamesRemoved(j: Json) {
    j.Str? && j.text in REMOVED_GROUPS
  }

  function Kept(items: seq<Json>): seq<Json> {
    if items == [] then []
    else
      var x := items[|items| - 1];
      if NamesRemoved(x) then Kept(items[..|items| - 1]) else Kept(items[..|items| - 1]) + [x]
  }

  /** One list field: filtered, or deleted when nothing is left of it. */
  function CleanList(owner: Json, field: string): Json {
    if !owner.Obj? || field !in owner.fields || !owner.fields[field].Arr? then owner
    else
      var items := owner.fields[field].items;
      var kept := Kept(items);
      if |kept| == |items| then owner
      else if |kept| > 0 then Obj(owner.fields[field := Arr(kept)])
      else Obj(owner.fields - {field})
  }

  function CleanGroups(groups: map<string, Json>): map<string, Json> {
    map name | name in groups && name !in REMOVED_GROUPS :: CleanList(groups[name], "fallback_groups")
  }

  function CleanField(key: string, v: Json): Json {
    if key == "model_groups" && v.Obj? then Obj(CleanGroups(v.fields))
    else if key == "delegation" then CleanList(v, "expensive_groups")
    else v
  }

  /** validateRemovedGroups as a function of the layer. */
  function Clean(layer: Json): Json
    requires layer.Obj?
  {
    Obj(map k | k in layer.fields :: CleanField(k, layer.fields[k]))
  }

  class ConfigLayer {
    var fields: map<string, Json>

    constructor (fields: map<string, Json>)
      ensures this.fields == fields
    {
      this.fields := fields;
    }

    method ValidateRemovedGroups()
      modifies this
      ensures Obj(fields) == Clean(Obj(old(fields)))
    {
      hide CleanGroups, CleanList;
      if "model_groups" in fields && fields["model_groups"].Obj? {
        var groups := FilterGroups(fields["model_groups"].fields);
        fields := fields["model_groups" := Obj(groups)];
      }
      if "delegation" in fields {
        var d := FilterList(fields["delegation"], "expensive_groups");
        fields := fields["delegation" := d];
      }
      forall k ensures At(fields, k) == At(Clean(Obj(old(fields))).fields, k) {
      }
      SameMap(fields, Clean(Obj(old(fields))).fields);
    }

    /** Deletes the removed groups, then cleans the fallback list of each remaining one. */
    static method FilterGroups(all: map<string, Json>) returns (groups: map<string, Json>)
      ensures groups == CleanGroups(all)
    {
      hide CleanList;
      groups := all;
      var todo := groups.Keys;
      while todo != {}
        invariant todo <= all.Keys
        invariant forall n :: At(groups, n) == if n in REMOVED_GROUPS && n !in todo then None else At(all, n)
        decreases todo
      {
        var name :| name in todo;
        if name in REMOVED_GROUPS { groups := groups - {name}; }
        todo := todo - {name};
      }
      ghost var left := groups;
      todo := groups.Keys;
      while todo != {}
        invariant todo <= left.Keys
        invariant forall n :: At(groups, n) ==
                              if n in left && n !in todo
                              then Some(CleanList(left[n], "fallback_groups")) else At(left, n)
        decreases todo
      {
        var name :| name in todo;
        assert At(groups, name) == At(left, name);
        var g := FilterList(groups[name], "fallback_groups");
        groups := groups[name := g];
        todo := todo - {name};
      }
      forall n ensures At(groups, n) == At(CleanGroups(all), n) {
        assert At(left, n) == if n in REMOVED_GROUPS then None else At(all, n);
      }
      SameMap(groups, CleanGroups(all));
    }

    /** Drops the removed names of one list field, and the field with its last name. */
    static method FilterList(owner: Json, field: string) returns (r: Json)
      ensures r == CleanList(owner, field)
    {
      if !owner.Obj? || field !in owner.fields || !owner.fields[field].Arr? { return owner; }
      var items := owner.fields[field].items;
      var kept: seq<Json> := [];
      for i := 0 to |items|
        invariant kept == Kept(items[..i])
      {
        assert items[..i + 1][..i] == items[..i];
        if !NamesRemoved(items[i]) { kept := kept + [items[i]]; }
      }
      assert items[..|items|] == items;
      if |kept| == |items| { return owner; }
      r := if |kept| > 0 then Obj(owner.fields[field := Arr(kept)]) else Obj(owner.fields - {field});
    }
  }

  lemma {:induction false} KeptIs(items: seq<Json>)
    ensures forall x :: x in Kept(items) <==> x in items && !NamesRemoved(x)
    ensures |Kept(items)| <= |items|
    ensures |Kept(items)| == |items| ==> Kept(items) == items
  {
    if items != [] {
      var n := |items| - 1;
      KeptIs(items[..n]);
      assert items == items[..n] + [items[n]];
    }
  }

  /** A cleaned list holds exactly the names still known, and is there exactly when it has one or was empty anyway. */
  lemma CleanListIs(owner: Json, field: string)
    requires owner.Obj? && field in owner.fields && owner.fields[field].Arr?
    ensures var items := owner.fields[field].items;
            var cleaned := CleanList(owner, field);
            && cleaned.Obj?
            && (field in cleaned.fields <==> items == [] || exists x :: x in items && !NamesRemoved(x))
            && (field in cleaned.fields ==> cleaned.fields[field].Arr?)
            && (field in cleaned.fields ==>
                  forall x :: x in cleaned.fields[field].items <==> x in items && !NamesRemoved(x))
            && (forall other :: other != field ==> At(cleaned.fields, other) == At(owner.fields, other))
  {
    var items := owner.fields[field].items;
    KeptIs(items);
    if Kept(items) != [] { assert Kept(items)[0] in Kept(items); }
  }

  // ---- The validators of the merged config ----

  /** The keys of CATEGORY_TO_GROUP. */
  const CATEGORIES: set<string> := {
    "simple", "code_simple", "standard", "code_complex", "design", "planning", "continue"}

  const DEFAULT_ENDPOINT: string := "http://127.0.0.1:8089"

  /** What is decided about texts and number tokens elsewhere: URL parsing and number comparison. */
  datatype Checks = Checks(loopback: string -> bool, threshold: string -> bool, timeout: string -> bool)

  predicate Truthy(j: Option<Json>) {
    match j
    case None => false
    case Some(Null) => false
    case Some(Str(text)) => text != ""
    case Some(Other(token)) => token !in {"false", "0", "-0"}
    case Some(_) => true
  }

  /** Neither undefined nor null. */
  predicate Given(j: Option<Json>) {
    j.Some? && !j.value.Null?
  }

  predicate KnownGroup(config: map<string, Json>, group: Json) {
    group.Str? && "model_groups" in config && config["model_groups"].Obj? &&
    Truthy(At(config["model_groups"].fields, group.text))
  }

  /** validateCategoryGroups as a function of the config. */
  function CleanCategories(config: map<string, Json>): map<string, Json> {
    if "category_groups" in config && config["category_groups"].Obj? then
      var mapping := config["category_groups"].fields;
      config["category_groups" :=
        Obj(map k | k in mapping && k in CATEGORIES && KnownGroup(config, mapping[k]) :: mapping[k])]
    else config
  }

  function OrElse(c: map<string, Json>, key: string, value: Json, keep: bool): map<string, Json> {
    if keep then c else c[key := value]
  }

  predicate IsMode(j: Json) {
    j == Str("active") || j == Str("shadow")
  }

  function LayaEndpoint(c: map<string, Json>): Json {
    if Given(At(c, "endpoint")) then c["endpoint"] else Str(DEFAULT_ENDPOINT)
  }

  /** validateClassifierLaya as a function of its block. */
  function CleanLaya(c: map<string, Json>, ch: Checks): map<string, Json> {
    if !Truthy(At(c, "enabled")) then c
    else if !Truthy(At(c, "checkpoint")) || !(LayaEndpoint(c).Str? && ch.loopback(LayaEndpoint(c).text)) then
      c["enabled" := Other("false")]
    else
      var c1 := c["endpoint" := LayaEndpoint(c)];
      var c2 := OrElse(c1, "mode", Str("shadow"), "mode" in c && IsMode(c["mode"]));
      var c3 := OrElse(c2, "confidence_threshold", Other("0.8"), HasToken(c, "confidence_threshold", ch.threshold));
      OrElse(c3, "timeout_ms", Other("1500"), HasToken(c, "timeout_ms", ch.timeout))
  }

  predicate HasToken(c: map<string, Json>, key: string, ok: string -> bool) {
    key in c && c[key].Other? && ok(c[key].token)
  }

  function Validated(config: Json, ch: Checks): Json
    requires config.Obj?
  {
    var fields := CleanCategories(config.fields);
    Obj(if "classifier_laya" in fields && fields["classifier_laya"].Obj?
        then fields["classifier_laya" := Obj(CleanLaya(fields["classifier_laya"].fields, ch))] else fields)
  }

  class LoadedConfig {
    var fields: map<string, Json>

    constructor (fields: map<string, Json>)
      ensures this.fields == fields
    {
      this.fields := fields;
    }

    method ValidateCategoryGroups()
      modifies this
      ensures fields == CleanCategories(old(fields))
    {
      if "category_groups" !in fields || !fields["category_groups"].Obj? { return; }
      ghost var mapping := fields["category_groups"].fields;
      var kept := fields["category_groups"].fields;
      var todo := kept.Keys;
      while todo != {}
        modifies {}
        invariant todo <= mapping.Keys
        invariant forall k :: At(kept, k) ==
                              if k in mapping && k !in todo && !(k in CATEGORIES && KnownGroup(fields, mapping[k]))
                              then None else At(mapping, k)
        decreases todo
      {
        var k :| k in todo;
        assert At(kept, k) == At(mapping, k);
        if k !in CATEGORIES {
          kept := kept - {k};
        } else if !KnownGroup(fields, kept[k]) {
          kept := kept - {k};
        }
        todo := todo - {k};
      }
      fields := fields["category_groups" := Obj(kept)];
      SameMap(kept, CleanCategories(old(fields))["category_groups"].fields);
    }

    method ValidateClassifierLaya(ch: Checks)
      modifies this
      ensures Obj(fields) == Obj(if "classifier_laya" in old(fields) && old(fields)["classifier_laya"].Obj?
        then old(fields)["classifier_laya" := Obj(CleanLaya(old(fields)["classifier_laya"].fields, ch))]
        else old(fields))
    {
      if "classifier_laya" !in fields || !fields["classifier_laya"].Obj? { return; }
      var c := CheckLaya(fields["classifier_laya"].fields, ch);
      fields := fields["classifier_laya" := Obj(c)];
    }

    static method CheckLaya(block: map<string, Json>, ch: Checks) returns (c: map<string, Json>)
      ensures c == CleanLaya(block, ch)
    {
      c := block;
      if !Truthy(At(c, "enabled")) { return; }
      if !Truthy(At(c, "checkpoint")) {
        c := c["enabled" := Other("false")];
        return;
      }
      var endpoint := LayaEndpoint(c);
      if !endpoint.Str? || !ch.loopback(endpoint.text) {
        c := c["enabled" := Other("false")];
        return;
      }
      c := ReplaceInvalid(c, ch);
      c := FillMissing(c);
      forall k ensures At(c, k) == At(CleanLaya(block, ch), k) {
        SettledAt(block, ch, k);
        hide CleanLaya;
        assert At(c, k) == Settled(block, ch, k);
      }
      hide CleanLaya;
      SameMap(c, CleanLaya(block, ch));
    }

    /** Settings of a wrong type or value fall back to their defaults. */
    static method ReplaceInvalid(block: map<string, Json>, ch: Checks) returns (c: map<string, Json>)
      ensures At(c, "mode")
              == if Given(At(block, "mode")) && !IsMode(block["mode"]) then Some(Str("shadow")) else At(block, "mode")
      ensures At(c, "confidence_threshold") == ValidToken(block, "confidence_threshold", ch.threshold, "0.8")
      ensures At(c, "timeout_ms") == ValidToken(block, "timeout_ms", ch.timeout, "1500")
      ensures forall k :: k !in {"mode", "confidence_threshold", "timeout_ms"} ==> At(c, k) == At(block, k)
    {
      c := block;
      if Given(At(c, "mode")) && !IsMode(c["mode"]) { c := c["mode" := Str("shadow")]; }
      if Given(At(c, "confidence_threshold")) && !HasToken(c, "confidence_threshold", ch.threshold) {
        c := c["confidence_threshold" := Other("0.8")];
      }
      if Given(At(c, "timeout_ms")) && !HasToken(c, "timeout_ms", ch.timeout) {
        c := c["timeout_ms" := Other("1500")];
      }
    }

    static method FillMissing(block: map<string, Json>) returns (c: map<string, Json>)
      ensures At(c, "endpoint") == Some(LayaEndpoint(block))
      ensures At(c, "timeout_ms") == OrDefault(block, "timeout_ms", Other("1500"))
      ensures At(c, "confidence_threshold") == OrDefault(block, "confidence_threshold", Other("0.8"))
      ensures At(c, "mode") == if Truthy(At(block, "mode")) then At(block, "mode") else Some(Str("shadow"))
      ensures forall k :: k !in {"endpoint", "mode", "confidence_threshold", "timeout_ms"} ==> At(c, k) == At(block, k)
    {
      c := block;
      if !Given(At(c, "endpoint")) { c := c["endpoint" := Str(DEFAULT_ENDPOINT)]; }
      if !Given(At(c, "timeout_ms")) { c := c["timeout_ms" := Other("1500")]; }
      if !Given(At(c, "confidence_threshold")) { c := c["confidence_threshold" := Other("0.8")]; }
      if !Truthy(At(c, "mode")) { c := c["mode" := Str("shadow")]; }
    }
  }

  /** What each setting of an enabled stage ends up as. */
  function Settled(c: map<string, Json>, ch: Checks, key: string): Option<Json> {
    if key == "endpoint" then Some(LayaEndpoint(c))
    else if key == "mode" then if "mode" in c && IsMode(c["mode"]) then At(c, key) else Some(Str("shadow"))
    else if key == "confidence_threshold" then if HasToken(c, key, ch.threshold) then At(c, key) else Some(Other("0.8"))
    else if key == "timeout_ms" then if HasToken(c, key, ch.timeout) then At(c, key) else Some(Other("1500"))
    else At(c, key)
  }

  lemma SettledAt(c: map<string, Json>, ch: Checks, key: string)
    requires Truthy(At(c, "enabled")) && Truthy(At(c, "checkpoint"))
    requires LayaEndpoint(c).Str? && ch.loopback(LayaEndpoint(c).text)
    ensures At(CleanLaya(c, ch), key) == Settled(c, ch, key)
  {
  }

  function ValidToken(c: map<string, Json>, key: string, ok: string -> bool, token: string): Option<Json> {
    if Given(At(c, key)) && !HasToken(c, key, ok) then Some(Other(token)) else At(c, key)
  }

  function OrDefault(c: map<string, Json>, key: string, value: Json): Option<Json> {
    if Given(At(c, key)) then At(c, key) else Some(value)
  }

  /** The defaults pass the checks they stand in for. */
  ghost predicate SaneChecks(ch: Checks) {
    ch.loopback(DEFAULT_ENDPOINT) && ch.threshold("0.8") && ch.timeout("1500")
  }

  /** The Laya stage is on with every setting usable. */
  ghost predicate LayaReady(c: map<string, Json>, ch: Checks) {
    && Truthy(At(c, "checkpoint"))
    && "endpoint" in c && c["endpoint"].Str? && ch.loopback(c["endpoint"].text)
    && "mode" in c && IsMode(c["mode"])
    && HasToken(c, "confidence_threshold", ch.threshold) && HasToken(c, "timeout_ms", ch.timeout)
  }

  /**
   * After validation the stage is enabled exactly if it was, has a checkpoint and a loopback endpoint, and then every
   * setting is usable; validating again changes nothing.
   */
  lemma LayaIsReadyOrOff(c: map<string, Json>, ch: Checks)
    requires SaneChecks(ch)
    ensures var v := CleanLaya(c, ch);
            && (Truthy(At(v, "enabled")) <==>
                Truthy(At(c, "enabled")) && Truthy(At(c, "checkpoint")) &&
                LayaEndpoint(c).Str? && ch.loopback(LayaEndpoint(c).text))
            && (Truthy(At(v, "enabled")) ==> LayaReady(v, ch))
            && (LayaReady(c, ch) ==> v == c)
            && CleanLaya(v, ch) == v
  {
    var v := CleanLaya(c, ch);
    ReadyIsFixed(c, ch);
    ReadyIsFixed(v, ch);
  }

  lemma ReadyIsFixed(c: map<string, Json>, ch: Checks)
    ensures LayaReady(c, ch) ==> CleanLaya(c, ch) == c
  {
    if LayaReady(c, ch) && Truthy(At(c, "enabled")) { assert c["endpoint" := c["endpoint"]] == c; }
  }

  /** A loaded category mapping names known categories and groups of that very config, and keeps all such entries. */
  lemma CategoriesAreKnown(config: Json, ch: Checks, k: string)
    requires config.Obj? && "category_groups" in config.fields && config.fields["category_groups"].Obj?
    ensures var was, now := config.fields["category_groups"].fields, Validated(config, ch).fields;
            && "category_groups" in now && now["category_groups"].Obj?
            && (k in now["category_groups"].fields <==> k in was && k in CATEGORIES && KnownGroup(now, was[k]))
            && (k in now["category_groups"].fields ==> now["category_groups"].fields[k] == was[k])
  {
  }

  // ---- loadLayeredConfig ----

  /** tryReadPartial and validateRemovedGroups: only an object counts as a layer. */
  function LayersOf(files: seq<Option<Json>>): (layers: seq<Json>)
    ensures forall i :: 0 <= i < |layers| ==> layers[i].Obj?
  {
    if files == [] then []
    else
      var f := files[|files| - 1];
      LayersOf(files[..|files| - 1]) + if f.Some? && f.value.Obj? then [Clean(f.value)] else []
  }

  method LoadLayeredConfig(defaults: Json, globalFile: Option<Json>, projectFile: Option<Json>, ch: Checks)
    returns (config: Json)
    requires defaults.Obj?
    ensures config == Loaded(defaults, globalFile, projectFile, ch)
    ensures forall p :: Plain([], p) && Unedited(p) ==>
                          FromLayers(config, defaults, Patch(globalFile), Patch(projectFile), p)
  {
    hide Stack, Merge, Clean, CleanCategories, CleanLaya, FromLayers, Plain, Unedited;
    forall p | Plain([], p) && Unedited(p)
      ensures var config := Loaded(defaults, globalFile, projectFile, ch);
            FromLayers(config, defaults, Patch(globalFile), Patch(projectFile), p)
    {
      ProjectOverGlobalOverDefaults(defaults, globalFile, projectFile, ch, p);
    }
    var merged := MergeLayers(defaults, [globalFile, projectFile]);
    var loaded := new LoadedConfig(merged.fields);
    loaded.ValidateCategoryGroups();
    loaded.ValidateClassifierLaya(ch);
    config := Obj(loaded.fields);
  }

  function Loaded(defaults: Json, globalFile: Option<Json>, projectFile: Option<Json>, ch: Checks): Json
    requires defaults.Obj?
  {
    Validated(Stack(defaults, LayersOf([globalFile, projectFile])), ch)
  }

  /** What an override file contributes: nothing unless it is an object, and no removed group name. */
  function Patch(file: Option<Json>): (j: Json)
    ensures j.Obj?
  {
    if file.Some? && file.value.Obj? then Clean(file.value) else Obj(map[])
  }

  /** The path is not in a block that the validators of the merged config edit. */
  predicate Unedited(p: Path) {
    p != [] && p[0] != "category_groups" && p[0] != "classifier_laya"
  }

  /** The value of the project patch if it decides the path, else of the global one, else of the defaults. */
  ghost predicate FromLayers(config: Json, defaults: Json, globalPatch: Json, projectPatch: Json, p: Path) {
    if Decides(projectPatch, p) then Get(config, p) == Get(projectPatch, p)
    else if Get(projectPatch, p).Some? then Get(config, p).Some? && Get(config, p).value.Obj?
    else if Decides(globalPatch, p) then Get(config, p) == Get(globalPatch, p)
    else if Get(globalPatch, p).Some? then Get(config, p).Some? && Get(config, p).value.Obj?
    else Get(config, p) == Get(defaults, p)
  }

  lemma MergeNothing(base: map<string, Json>)
    ensures Merge(base, Obj(map[]), []) == base
  {
  }

  lemma TwoMerges(defaults: Json, globalFile: Option<Json>, projectFile: Option<Json>)
    requires defaults.Obj?
    ensures Stack(defaults, LayersOf([globalFile, projectFile])) ==
            Obj(Merge(Merge(defaults.fields, Patch(globalFile), []), Patch(projectFile), []))
  {
    hide Merge, Clean, Stack;
    assert [globalFile, projectFile][..1] == [globalFile] && [globalFile][..0] == [];
    var first := LayersOf([globalFile]);
    NoLayers(defaults);
    MergeNothing(defaults.fields);
    MergeNothing(Merge(defaults.fields, Patch(globalFile), []));
    if globalFile.Some? && globalFile.value.Obj? {
      assert first == LayersOf([]) + [Clean(globalFile.value)];
      StackNext(defaults, LayersOf([]), Clean(globalFile.value));
    } else {
      assert first == LayersOf([]);
    }
    if projectFile.Some? && projectFile.value.Obj? {
      assert Patch(projectFile) == Clean(projectFile.value);
      assert LayersOf([globalFile, projectFile]) == first + [Clean(projectFile.value)];
      StackNext(defaults, first, Clean(projectFile.value));
    } else {
      assert LayersOf([globalFile, projectFile]) == first;
    }
  }

  lemma ValidatedElsewhere(config: Json, ch: Checks, p: Path)
    requires config.Obj? && Unedited(p)
    ensures Get(Validated(config, ch), p) == Get(config, p)
  {
    hide CleanLaya;
    GetStep(Validated(config, ch), p);
    GetStep(config, p);
    assert At(Validated(config, ch).fields, p[0]) == At(config.fields, p[0]);
  }

  /**
   * The order of the layers: what the project file decides counts, else what the global file decides, else the
   * defaults.
   */
  lemma ProjectOverGlobalOverDefaults(
    defaults: Json, globalFile: Option<Json>, projectFile: Option<Json>, ch: Checks, p: Path)
    requires defaults.Obj? && Plain([], p) && Unedited(p)
    ensures var config := Loaded(defaults, globalFile, projectFile, ch);
            FromLayers(config, defaults, Patch(globalFile), Patch(projectFile), p)
  {
    hide Merge, Clean, Stack, Validated, Get, Decides;
    TwoMerges(defaults, globalFile, projectFile);
    ValidatedElsewhere(Stack(defaults, LayersOf([globalFile, projectFile])), ch, p);
    PathLaw(defaults, Patch(globalFile), [], p);
    PathLaw(Obj(Merge(defaults.fields, Patch(globalFile), [])), Patch(projectFile), [], p);
  }

  /** The exclude list of a file, if it is a layer at all. */
  function ListIn(file: Option<Json>, k: string): Option<seq<Json>> {
    if file.Some? then ListAt(file.value, k) else None
  }

  ghost predicate ExcludesLists(file: Option<Json>) {
    file.Some? && file.value.Obj? ==> WellTyped(file.value)
  }

  lemma PatchExcludes(file: Option<Json>, k: string)
    requires ExcludesLists(file)
    ensures WellTyped(Patch(file)) && ListAt(Patch(file), k) == ListIn(file, k)
  {
  }

  lemma ValidatedExclude(config: Json, ch: Checks, k: string)
    requires config.Obj?
    ensures ListAt(Validated(config, ch), k) == ListAt(config, k)
  {
    hide CleanLaya;
    assert At(Validated(config, ch).fields, "exclude") == At(config.fields, "exclude");
  }

  /** An exclusion in any of the three layers is in force: each list is the union of the three. */
  lemma ExclusionsAddUp(
    defaults: Json, globalFile: Option<Json>, projectFile: Option<Json>, ch: Checks, k: string, x: Json)
    requires WellTyped(defaults) && ExcludesLists(globalFile) && ExcludesLists(projectFile)
    ensures var list := ListAt(Loaded(defaults, globalFile, projectFile, ch), k);
            var a, b, c := ListAt(defaults, k), ListIn(globalFile, k), ListIn(projectFile, k);
            && (list.Some? <==> a.Some? || b.Some? || c.Some?)
            && (list.Some? && x in list.value <==>
                (a.Some? && x in a.value) || (b.Some? && x in b.value) || (c.Some? && x in c.value))
  {
    hide Merge, Clean, Stack, Validated, WellTyped, ListAt, Union;
    TypedIsObject(defaults);
    TwoMerges(defaults, globalFile, projectFile);
    ValidatedExclude(Stack(defaults, LayersOf([globalFile, projectFile])), ch, k);
    PatchExcludes(globalFile, k);
    PatchExcludes(projectFile, k);
    var first := Obj(Merge(defaults.fields, Patch(globalFile), []));
    MergedExclude(defaults, Patch(globalFile), k);
    MergedIsWellTyped(defaults, Patch(globalFile));
    MergedExclude(first, Patch(projectFile), k);
    if ListAt(defaults, k).Some? && ListIn(globalFile, k).Some? {
      UnionIs(ListAt(defaults, k).value, ListIn(globalFile, k).value);
    }
    if ListAt(first, k).Some? && ListIn(projectFile, k).Some? {
      UnionIs(ListAt(first, k).value, ListIn(projectFile, k).value);
    }
  }

  lemma TypedIsObject(j: Json)
    requires WellTyped(j)
    ensures j.Obj?
  {
  }

  method MergeLayers(defaults: Json, files: seq<Option<Json>>) returns (config: Json)
    requires defaults.Obj?
    ensures config == Stack(defaults, LayersOf(files))
  {
    hide Stack, Merge, Clean;
    config := defaults;
    NoLayers(defaults);
    for i := 0 to |files|
      invariant config.Obj? && config == Stack(defaults, LayersOf(files[..i]))
    {
      assert files[..i + 1][..i] == files[..i];
      if files[i].Some? && files[i].value.Obj? {
        var layer := new ConfigLayer(files[i].value.fields);
        layer.ValidateRemovedGroups();
        var merged := DeepMergeConfig(config.fields, Obj(layer.fields), []);
        config := Obj(merged);
        assert Obj(files[i].value.fields) == files[i].value;
        assert LayersOf(files[..i + 1]) == LayersOf(files[..i]) + [Obj(layer.fields)];
        StackNext(defaults, LayersOf(files[..i]), Obj(layer.fields));
      } else {
        assert LayersOf(files[..i + 1]) == LayersOf(files[..i]);
      }
    }
    assert files[..|files|] == files;
  }

  lemma NoLayers(base: Json)
    requires base.Obj?
    ensures Stack(base, LayersOf([])) == base
  {
  }

  lemma StackNext(base: Json, layers: seq<Json>, layer: Json)
    requires base.Obj? && layer.Obj? && forall i :: 0 <= i < |layers| ==> layers[i].Obj?
    ensures Stack(base, layers + [layer]) == Obj(Merge(Stack(base, layers).fields, layer, []))
  {
  }

  /** An override whose expensive groups are all removed names leaves the list of the layers below standing. */
  lemma RemovedNamesLeaveTheDefault(base: Json, layer: Json)
    requires base.Obj? && layer.Obj? && "delegation" in layer.fields && layer.fields["delegation"].Obj?
    requires var d := layer.fields["delegation"].fields;
             "expensive_groups" in d && d["expensive_groups"].Arr? && d["expensive_groups"].items != [] &&
             forall x :: x in d["expensive_groups"].items ==> NamesRemoved(x)
    ensures var p := ["delegation", "expensive_groups"];
            Get(Obj(Merge(base.fields, Clean(layer), [])), p) == Get(base, p)
  {
    var p := ["delegation", "expensive_groups"];
    CleanListIs(layer.fields["delegation"], "expensive_groups");
    var c := Clean(layer);
    assert c.fields["delegation"] == CleanList(layer.fields["delegation"], "expensive_groups");
    hide CleanField, CleanList, Get, Decides;
    TwoKeys(c, "delegation", "expensive_groups");
    assert [] + p == p;
    PathLaw(base, c, [], p);
  }

  lemma TwoKeys(j: Json, a: string, b: string)
    requires j.Obj? && a in j.fields && j.fields[a].Obj?
    ensures Get(j, [a, b]) == At(j.fields[a].fields, b)
    ensures Decides(j, [a, b]) <==> b in j.fields[a].fields && !j.fields[a].fields[b].Obj?
  {
    var x := j.fields[a];
    assert [a, b][1..] == [b] && [b][1..] == [];
    assert Get(j, [a, b]) == Get(x, [b]) && Decides(j, [a, b]) == Decides(x, [b]);
    if b in x.fields { assert Get(x, [b]) == Get(x.fields[b], []) && Decides(x, [b]) == Decides(x.fields[b], []); }
  }

  /** After loading, a removed group name is a model group only if the shipped defaults say so. */
  lemma {:induction false} RemovedGroupsComeFromDefaults(defaults: Json, files: seq<Option<Json>>, name: string)
    requires defaults.Obj? && name in REMOVED_GROUPS
    ensures Get(Stack(defaults, LayersOf(files)), ["model_groups", name]).Some?
            ==> Get(defaults, ["model_groups", name]).Some?
  {
    hide Get;
    if files != [] {
      var n := |files| - 1;
      var before := LayersOf(files[..n]);
      RemovedGroupsComeFromDefaults(defaults, files[..n], name);
      if files[n].Some? && files[n].value.Obj? {
        CleanLayerAddsNone(Stack(defaults, before), files[n].value, name);
        StackNext(defaults, before, Clean(files[n].value));
        assert LayersOf(files) == before + [Clean(files[n].value)];
      } else {
        assert LayersOf(files) == before;
      }
    }
  }

  lemma CleanLayerAddsNone(base: Json, layer: Json, name: string)
    requires base.Obj? && layer.Obj? && name in REMOVED_GROUPS
    ensures Get(Obj(Merge(base.fields, Clean(layer), [])), ["model_groups", name]).Some?
            ==> Get(base, ["model_groups", name]).Some?
  {
    hide Get, Decides;
    var p := ["model_groups", name];
    assert [] + p == p;
    PathLaw(base, Clean(layer), [], p);
    CleanNamesNone(layer, name);
  }

  lemma CleanNamesNone(layer: Json, name: string)
    requires layer.Obj? && name in REMOVED_GROUPS
    ensures Get(Clean(layer), ["model_groups", name]).None?
  {
  }
}
