/** src/classifier-local-probe.ts: no-schema marks, candidate selection and the fingerprint-guarded probe. */
module LocalProbe {
  import opened Seqs

  const DAY_MS: int := 86_400_000
  const MAX_LOCAL_PROBE_CANDIDATES: nat := 6
  const MAX_LOCAL_WORKING_MODELS: nat := 3

  /** `eligible`: an Ollama model that can complete, is not excluded and not blocklisted. */
  datatype Model = Model(id: string, size: Option<real>, eligible: bool)

  /** What the scan found, with localeCompare on ids. */
  datatype Catalogue = Catalogue(models: seq<Model>, nameLeq: (string, string) -> bool)

  datatype Reply = Right | Wrong | Rejected

  datatype Fingerprint = Fingerprint(at: int, candidates: seq<string>)

  /** classifier_no_schema, classifier_local_models and classifier_local_probe. */
  datatype State = State(marks: map<string, int>, working: Option<seq<string>>, probe: Option<Fingerprint>)

  /** One call: when it starts, when it judges candidate `k`, and what the model says to each probe case. */
  datatype Scan = Scan(
    start: int, clock: nat -> int, force: bool, wedged: bool, available: bool, cases: nat,
    reply: (string, nat) -> Reply)

  predicate IsMarkedNoSchema(marks: map<string, int>, id: string, now: int) {
    id in marks && now - marks[id] < DAY_MS
  }

  predicate SmallerFirst(a: Model, b: Model, nameLeq: (string, string) -> bool) {
    if a.size.Some? && b.size.Some? && a.size != b.size then a.size.value < b.size.value
    else if a.size.None? != b.size.None? then b.size.None?
    else nameLeq(a.id, b.id)
  }

  function Keep(models: seq<Model>, marks: map<string, int>, now: int): seq<Model> {
    if models == [] then []
    else
      var m := models[|models| - 1];
      Keep(models[..|models| - 1], marks, now) +
      if m.eligible && !IsMarkedNoSchema(marks, m.id, now) then [m] else []
  }

  function Ids(models: seq<Model>): seq<string> {
    if models == [] then [] else Ids(models[..|models| - 1]) + [models[|models| - 1].id]
  }

  /** selectLocalClassifierCandidates */
  function Candidates(c: Catalogue, marks: map<string, int>, now: int): seq<string> {
    Ids(StableSort(Keep(c.models, marks, now), (a, b) => SmallerFirst(a, b, c.nameLeq)))
  }

  function Shortlist(c: Catalogue, marks: map<string, int>, now: int): seq<string> {
    var all := Candidates(c, marks, now);
    if |all| <= MAX_LOCAL_PROBE_CANDIDATES then all else all[..MAX_LOCAL_PROBE_CANDIDATES]
  }

  /** The first case the model does not get right decides. */
  function Verdict(s: Scan, id: string, k: nat): Reply
    decreases s.cases - k
  {
    if k >= s.cases then Right
    else if s.reply(id, k) == Right then Verdict(s, id, k + 1)
    else s.reply(id, k)
  }

  /** Marks and working list after the first `k` candidates. */
  function Probed(s: Scan, candidates: seq<string>, marks: map<string, int>, k: nat): (map<string, int>, seq<string>)
    requires k <= |candidates|
  {
    if k == 0 then (marks, [])
    else
      var (m, w) := Probed(s, candidates, marks, k - 1);
      var id := candidates[k - 1];
      if |w| >= MAX_LOCAL_WORKING_MODELS then (m, w)
      else
        match Verdict(s, id, 0)
        case Right => (m - {id}, w + [id])
        case Wrong => (m, w)
        case Rejected => (m[id := s.clock(k - 1)], w)
  }

  function Unmarked(ids: seq<string>, marks: map<string, int>, now: int): seq<string> {
    if ids == [] then []
    else Unmarked(ids[..|ids| - 1], marks, now) +
         if IsMarkedNoSchema(marks, ids[|ids| - 1], now) then [] else [ids[|ids| - 1]]
  }

  predicate Reuses(c: Catalogue, st: State, s: Scan) {
    && !s.force && st.working.Some? && st.probe.Some?
    && s.start - st.probe.value.at < DAY_MS
    && st.probe.value.candidates == Shortlist(c, st.marks, s.start)
  }

  /** The scan asks models. */
  predicate Probes(c: Catalogue, st: State, s: Scan) {
    !Reuses(c, st, s) && Shortlist(c, st.marks, s.start) != [] && !s.wedged && s.available
  }

  function AfterProbe(c: Catalogue, st: State, s: Scan): State {
    var candidates := Shortlist(c, st.marks, s.start);
    var (marks, working) := Probed(s, candidates, st.marks, |candidates|);
    var end := s.clock(|candidates|);
    State(marks, Some(working), Some(Fingerprint(end, Unmarked(candidates, marks, end))))
  }

  function After(c: Catalogue, st: State, s: Scan): State {
    if Reuses(c, st, s) then st
    else if Shortlist(c, st.marks, s.start) == [] then st.(working := Some([]))
    else if s.wedged || !s.available then st
    else AfterProbe(c, st, s)
  }

  // ---- The method ----

  class LocalProbeCache {
    var marks: map<string, int>
    var working: Option<seq<string>>
    var probe: Option<Fingerprint>

    function Snapshot(): State
      reads this
    {
      State(marks, working, probe)
    }

    method MarkNoSchema(id: string, now: int)
      modifies this`marks
      ensures marks == old(marks)[id := now]
    {
      marks := marks[id := now];
    }

    method ProbeLocalClassifierCandidates(c: Catalogue, s: Scan) returns (list: seq<string>)
      modifies this
      ensures Snapshot() == After(c, old(Snapshot()), s)
      ensures list == if working.Some? then working.value else []
    {
      var candidates := Shortlist(c, marks, s.start);
      if !s.force && working.Some? && probe.Some?
         && s.start - probe.value.at < DAY_MS && probe.value.candidates == candidates {
        return working.value;
      }
      if |candidates| == 0 {
        working := Some([]);
        return [];
      }
      if s.wedged || !s.available {
        return if working.Some? then working.value else [];
      }
      list := [];
      var k := 0;
      while k < |candidates|
        modifies this`marks
        invariant k <= |candidates|
        invariant (marks, list) == Probed(s, candidates, old(marks), k)
      {
        if |list| >= MAX_LOCAL_WORKING_MODELS {
          Stops(s, candidates, old(marks), k);
          break;
        }
        var id := candidates[k];
        var n, failed := 0, false;
        while n < s.cases && !failed
          modifies this`marks
          invariant n <= s.cases
          invariant !failed ==>
                      Verdict(s, id, 0) == Verdict(s, id, n) && marks == Probed(s, candidates, old(marks), k).0
          invariant failed ==> Verdict(s, id, 0) != Right
          invariant failed ==> marks == (if Verdict(s, id, 0) == Rejected
                                         then Probed(s, candidates, old(marks), k).0[id := s.clock(k)]
                                         else Probed(s, candidates, old(marks), k).0)
          decreases s.cases - n, !failed
        {
          var reply := s.reply(id, n);
          if reply != Right {
            if reply == Rejected { MarkNoSchema(id, s.clock(k)); }
            failed := true;
          } else {
            n := n + 1;
          }
        }
        k := k + 1;
        if failed { continue; }
        marks := marks - {id};
        list := list + [id];
      }
      var end := s.clock(|candidates|);
      working := Some(list);
      probe := Some(Fingerprint(end, Unmarked(candidates, marks, end)));
    }

    static lemma {:induction false} StopsFrom(s: Scan, candidates: seq<string>, m: map<string, int>, k: nat, n: nat)
      requires k <= n <= |candidates| && |Probed(s, candidates, m, k).1| >= MAX_LOCAL_WORKING_MODELS
      ensures Probed(s, candidates, m, n) == Probed(s, candidates, m, k)
    {
      if k < n { StopsFrom(s, candidates, m, k, n - 1); }
    }

    /** Once enough models work the rest are not asked. */
    static lemma Stops(s: Scan, candidates: seq<string>, m: map<string, int>, k: nat)
      requires k <= |candidates| && |Probed(s, candidates, m, k).1| >= MAX_LOCAL_WORKING_MODELS
      ensures Probed(s, candidates, m, |candidates|) == Probed(s, candidates, m, k)
    {
      StopsFrom(s, candidates, m, k, |candidates|);
    }
  }
}
