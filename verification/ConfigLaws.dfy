/** What the validators around the layered merge of src/config-loader.ts leave, setting by setting. */
module ConfigLaws {
  import opened JsonValues
  import opened Seqs
  import opened ConfigLoader

  // ---- the Laya stage ----

  /** The setting is there and true in the sense of JavaScript. */
  predicate On(c: map<string, Json>, key: string) {
    key in c && c[key] !in {Null, Str(""), Other("false"), Other("0"), Other("-0")}
  }

  function Or(c: map<string, Json>, key: string, default: Json): Json {
    if key in c && c[key] != Null then c[key] else default
  }

  predicate Loopback(c: map<string, Json>, ch: Checks) {
    var endpoint := Or(c, "endpoint", Str("http://127.0.0.1:8089"));
    endpoint.Str? && ch.loopback(endpoint.text)
  }

  /** The number of a setting if it passes its check, else the default. */
  function Checked(c: map<string, Json>, key: string, ok: string -> bool, default: string): Json {
    if key in c && c[key].Other? && ok(c[key].token) then c[key] else Other(default)
  }

  lemma TruthyIsOn(c: map<string, Json>, key: string)
    ensures Truthy(At(c, key)) <==> On(c, key)
  {
  }

  /**
   * A stage that is not on is left alone; one without a checkpoint or a loopback endpoint is switched off;
   * otherwise each setting keeps a usable value and gets its default in place of any other.
   */
  lemma LayaSettings(c: map<string, Json>, ch: Checks, key: string)
    ensures var v := CleanLaya(c, ch);
            if !On(c, "enabled") then v == c
            else if !On(c, "checkpoint") || !Loopback(c, ch) then
              At(v, key) == if key == "enabled" then Some(Other("false")) else At(c, key)
            else if key == "endpoint" then At(v, key) == Some(Or(c, key, Str("http://127.0.0.1:8089")))
            else if key == "mode" then
              At(v, key) == Some(if At(c, key) == Some(Str("active")) then Str("active") else Str("shadow"))
            else if key == "confidence_threshold" then At(v, key) == Some(Checked(c, key, ch.threshold, "0.8"))
            else if key == "timeout_ms" then At(v, key) == Some(Checked(c, key, ch.timeout, "1500"))
            else At(v, key) == At(c, key)
  {
    TruthyIsOn(c, "enabled");
    TruthyIsOn(c, "checkpoint");
  }

  /** A category mapping keeps an entry exactly if it names one of the seven categories and a group of the config. */
  lemma MappingIs(config: map<string, Json>, k: string)
    requires "category_groups" in config && config["category_groups"].Obj?
    ensures var was, now := config["category_groups"].fields, CleanCategories(config);
            && "category_groups" in now && now["category_groups"].Obj?
            && At(now["category_groups"].fields, k) ==
               (if k in {"simple", "code_simple", "standard", "code_complex", "design", "planning", "continue"}
                   && k in was && was[k].Str?
                   && "model_groups" in config && config["model_groups"].Obj?
                   && On(config["model_groups"].fields, was[k].text)
                then Some(was[k]) else None)
            && forall other :: other != "category_groups" ==> At(now, other) == At(config, other)
  {
    if k in config["category_groups"].fields {
      var g := config["category_groups"].fields[k];
      if g.Str? && "model_groups" in config && config["model_groups"].Obj? {
        TruthyIsOn(config["model_groups"].fields, g.text);
      }
    }
  }

  // ---- removed groups ----

  predicate Removed(name: string) {
    name in {"trivial", "scout", "fallback", "operational", "tactical", "strategic", "complex"}
  }

  function RemovedNames(): set<Json> {
    {Str("trivial"), Str("scout"), Str("fallback"), Str("operational"), Str("tactical"), Str("strategic"),
     Str("complex")}
  }

  lemma {:induction false} KeptIsWithout(items: seq<Json>)
    ensures Kept(items) == Without(items, RemovedNames())
  {
    if items != [] {
      KeptIsWithout(items[..|items| - 1]);
      RemovedIff(items[|items| - 1]);
    }
  }

  lemma RemovedIff(j: Json)
    ensures NamesRemoved(j) <==> j in RemovedNames()
  {
  }

  /** A list setting of a layer after cleaning: the removed names are gone, and with the last one the list. */
  function Filtered(v: Option<Json>): Option<Json> {
    if v.Some? && v.value.Arr? then
      var left := Without(v.value.items, RemovedNames());
      if left == [] && v.value.items != [] then None else Some(Arr(left))
    else v
  }

  lemma ListFiltered(owner: Json, field: string, p: Path)
    ensures Get(CleanList(owner, field), [field]) == Filtered(Get(owner, [field]))
    ensures p != [] && p[0] != field ==> Get(CleanList(owner, field), p) == Get(owner, p)
    ensures CleanList(owner, field).Obj? <==> owner.Obj?
    ensures p == [] && !owner.Obj? ==> Get(CleanList(owner, field), p) == Get(owner, p)
  {
    if owner.Obj? && field in owner.fields && owner.fields[field].Arr? {
      var items := owner.fields[field].items;
      KeptIs(items);
      KeptIsWithout(items);
      assert Kept(items) == items ==> owner.fields[field] == Arr(Kept(items));
      assert [field][1..] == [];
    }
  }

  /** What cleaning does to a layer: removed groups go; fallback and expensive lists are filtered; all else stays. */
  lemma CleanedAt(layer: Json, name: string, p: Path)
    requires layer.Obj?
    ensures p != [] && p[0] != "model_groups" && p[0] != "delegation" ==> Get(Clean(layer), p) == Get(layer, p)
    ensures Removed(name) && Get(layer, ["model_groups"]).Some? && Get(layer, ["model_groups"]).value.Obj? ==>
              Get(Clean(layer), ["model_groups", name] + p).None?
    ensures !Removed(name) ==>
              && Get(Clean(layer), ["model_groups", name, "fallback_groups"])
                 == Filtered(Get(layer, ["model_groups", name, "fallback_groups"]))
              && (p != [] && p[0] != "fallback_groups" ==>
                    Get(Clean(layer), ["model_groups", name] + p) == Get(layer, ["model_groups", name] + p))
    ensures Get(Clean(layer), ["delegation", "expensive_groups"])
            == Filtered(Get(layer, ["delegation", "expensive_groups"]))
    ensures p != [] && p[0] != "expensive_groups" ==>
              Get(Clean(layer), ["delegation"] + p) == Get(layer, ["delegation"] + p)
  {
    hide CleanList, Filtered;
    if p != [] && p[0] != "model_groups" && p[0] != "delegation" { CleanedElsewhere(layer, p); }
    CleanedGroup(layer, name, p);
    CleanedDelegation(layer, p);
  }

  lemma CleanedElsewhere(layer: Json, p: Path)
    requires layer.Obj? && p != [] && p[0] != "model_groups" && p[0] != "delegation"
    ensures Get(Clean(layer), p) == Get(layer, p)
  {
    GetStep(Clean(layer), p);
    GetStep(layer, p);
  }

  lemma Below(j: Json, k: string, p: Path)
    ensures Get(j, [k] + p) == if j.Obj? && k in j.fields then Get(j.fields[k], p) else None
  {
    assert ([k] + p)[0] == k && ([k] + p)[1..] == p;
  }

  lemma CleanedDelegation(layer: Json, p: Path)
    requires layer.Obj?
    ensures Get(Clean(layer), ["delegation", "expensive_groups"])
            == Filtered(Get(layer, ["delegation", "expensive_groups"]))
    ensures p != [] && p[0] != "expensive_groups" ==>
              Get(Clean(layer), ["delegation"] + p) == Get(layer, ["delegation"] + p)
  {
    hide CleanList, Filtered, Get;
    var d := "delegation";
    Below(layer, d, p);
    Below(Clean(layer), d, p);
    Below(layer, d, ["expensive_groups"]);
    Below(Clean(layer), d, ["expensive_groups"]);
    assert [d] + ["expensive_groups"] == [d, "expensive_groups"];
    NothingFiltered();
    if d in layer.fields { ListFiltered(layer.fields[d], "expensive_groups", p); }
  }

  lemma NothingFiltered()
    ensures Filtered(None) == None
  {
  }

  lemma CleanedGroup(layer: Json, name: string, p: Path)
    requires layer.Obj?
    ensures Removed(name) && Get(layer, ["model_groups"]).Some? && Get(layer, ["model_groups"]).value.Obj? ==>
              Get(Clean(layer), ["model_groups", name] + p).None?
    ensures !Removed(name) ==>
              && Get(Clean(layer), ["model_groups", name, "fallback_groups"])
                 == Filtered(Get(layer, ["model_groups", name, "fallback_groups"]))
              && (p != [] && p[0] != "fallback_groups" ==>
                    Get(Clean(layer), ["model_groups", name] + p) == Get(layer, ["model_groups", name] + p))
  {
    hide CleanList, Filtered, Get;
    var g, f := "model_groups", ["fallback_groups"];
    assert [g, name] + p == [g] + ([name] + p) && [g, name, "fallback_groups"] == [g] + ([name] + f);
    assert [g] == [g] + [];
    Below(layer, g, []);
    Below(layer, g, [name] + p);
    Below(Clean(layer), g, [name] + p);
    Below(layer, g, [name] + f);
    Below(Clean(layer), g, [name] + f);
    NothingFiltered();
    GetHere(layer, g);
    if g in layer.fields {
      var groups, cleaned := layer.fields[g], Clean(layer).fields[g];
      Below(groups, name, p);
      Below(cleaned, name, p);
      Below(groups, name, f);
      Below(cleaned, name, f);
      if groups.Obj? && name in groups.fields { ListFiltered(groups.fields[name], "fallback_groups", p); }
    }
  }

  lemma GetHere(j: Json, k: string)
    ensures j.Obj? && k in j.fields ==> Get(j.fields[k], []) == Some(j.fields[k])
  {
  }
}
