/** What a local probe of src/classifier-local-probe.ts establishes, read off the models and their replies. */
module LocalProbeLaws {
  import opened Seqs
  import opened LocalProbe
  import opened LocalProbeRuns

  const ONE_DAY_MS: int := 24 * 60 * 60_000

  // ---- who works ----

  /** The model gets every probe case right. */
  ghost predicate Passes(s: Scan, id: string) {
    forall k :: 0 <= k < s.cases ==> s.reply(id, k) == Right
  }

  /** The first reply that is not right is a refusal of structured output. */
  ghost predicate Refuses(s: Scan, id: string) {
    exists n :: 0 <= n < s.cases && s.reply(id, n) == Rejected && forall k :: 0 <= k < n ==> s.reply(id, k) == Right
  }

  ghost function Failing(s: Scan, ids: seq<string>): set<string> {
    set id | id in ids && !Passes(s, id)
  }

  function FirstThree(ids: seq<string>): seq<string> {
    if |ids| <= 3 then ids else ids[..3]
  }

  /** Fewer than three of the candidates before the k-th pass, so that it is asked. */
  ghost predicate Reached(s: Scan, ids: seq<string>, k: nat)
    requires k <= |ids|
  {
    |Without(ids[..k], Failing(s, ids))| < 3
  }

  lemma {:induction false} VerdictFrom(s: Scan, id: string, k: nat)
    requires forall j :: 0 <= j < k && j < s.cases ==> s.reply(id, j) == Right
    ensures Verdict(s, id, k) == Right <==> Passes(s, id)
    ensures Verdict(s, id, k) == Rejected <==> Refuses(s, id)
    decreases s.cases - k
  {
    if k < s.cases {
      if s.reply(id, k) == Right {
        VerdictFrom(s, id, k + 1);
      } else if Refuses(s, id) {
        var n :| 0 <= n < s.cases && s.reply(id, n) == Rejected && forall j :: 0 <= j < n ==> s.reply(id, j) == Right;
        assert n == k;
      }
    }
  }

  lemma PassingNext(s: Scan, ids: seq<string>, k: nat)
    requires k < |ids|
    ensures Without(ids[..k + 1], Failing(s, ids)) ==
            Without(ids[..k], Failing(s, ids)) + if Passes(s, ids[k]) then [ids[k]] else []
  {
    assert ids[..k + 1][..k] == ids[..k];
  }

  lemma {:induction false} ProbedWorking(s: Scan, ids: seq<string>, marks: map<string, int>, k: nat)
    requires k <= |ids|
    ensures Probed(s, ids, marks, k).1 == FirstThree(Without(ids[..k], Failing(s, ids)))
  {
    hide Verdict, Failing, Without, Passes;
    if k > 0 {
      ProbedWorking(s, ids, marks, k - 1);
      PassingNext(s, ids, k - 1);
      VerdictFrom(s, ids[k - 1], 0);
    } else {
      NoneWithout(ids[..0], Failing(s, ids));
    }
  }

  lemma NoneWithout(ids: seq<string>, gone: set<string>)
    requires ids == []
    ensures Without(ids, gone) == []
  {
  }

  /** After a probe the working list is the first three candidates of the shortlist that pass every case. */
  lemma WorkingListIs(c: Catalogue, st: State, s: Scan)
    requires Probes(c, st, s)
    ensures var ids := Shortlist(c, st.marks, s.start);
            After(c, st, s).working == Some(FirstThree(Without(ids, Failing(s, ids))))
  {
    hide Shortlist, Failing;
    var ids := Shortlist(c, st.marks, s.start);
    assert ids[..|ids|] == ids;
    ProbedWorking(s, ids, st.marks, |ids|);
  }

  // ---- who is marked ----

  lemma ProbedStep(s: Scan, ids: seq<string>, marks: map<string, int>, k: nat)
    requires k < |ids|
    ensures var m, id := Probed(s, ids, marks, k).0, ids[k];
            Probed(s, ids, marks, k + 1).0 ==
              if !Reached(s, ids, k) then m
              else if Passes(s, id) then m - {id}
              else if Refuses(s, id) then m[id := s.clock(k)]
              else m
  {
    hide Verdict, Failing, Without, Passes, Refuses;
    ProbedWorking(s, ids, marks, k);
    VerdictFrom(s, ids[k], 0);
  }

  lemma {:induction false} NotAsked(s: Scan, ids: seq<string>, marks: map<string, int>, k: nat, id: string)
    requires k <= |ids| && forall j :: 0 <= j < k && ids[j] == id ==> !Reached(s, ids, j)
    ensures Same(marks, Probed(s, ids, marks, k).0, id)
  {
    hide Reached, Passes, Refuses, Probed;
    NothingProbed(s, ids, marks);
    if k > 0 {
      NotAsked(s, ids, marks, k - 1, id);
      ProbedStep(s, ids, marks, k - 1);
    }
  }

  lemma {:induction false} LastAsked(s: Scan, ids: seq<string>, marks: map<string, int>, j: nat, k: nat)
    requires j < k <= |ids| && LastReached(s, ids, j, k)
    ensures var id, after := ids[j], Probed(s, ids, marks, k).0;
            if Passes(s, id) then id !in after
            else if Refuses(s, id) then id in after && after[id] == s.clock(j)
            else Same(marks, after, id)
  {
    hide Reached, Passes, Refuses, Probed;
    EarlierMarks(s, ids, marks, k - 1, ids[j]);
    ProbedStep(s, ids, marks, k - 1);
    if j < k - 1 { LastAsked(s, ids, marks, j, k - 1); }
  }

  lemma NothingProbed(s: Scan, ids: seq<string>, marks: map<string, int>)
    ensures Probed(s, ids, marks, 0).0 == marks
  {
  }

  ghost predicate Same(a: map<string, int>, b: map<string, int>, id: string) {
    (id in a <==> id in b) && (id in a ==> a[id] == b[id])
  }

  /** Place `j` is asked, and no place after it, before `k`, that holds the same model. */
  ghost predicate LastReached(s: Scan, ids: seq<string>, j: nat, k: nat)
    requires j < k <= |ids|
  {
    Reached(s, ids, j) && forall i :: j < i < k && ids[i] == ids[j] ==> !Reached(s, ids, i)
  }

  /** A model that neither passes nor refuses keeps its mark however often it is asked. */
  lemma {:induction false} EarlierMarks(s: Scan, ids: seq<string>, marks: map<string, int>, k: nat, id: string)
    requires k <= |ids|
    ensures !Passes(s, id) && !Refuses(s, id) ==> Same(marks, Probed(s, ids, marks, k).0, id)
  {
    hide Reached, Passes, Refuses, Probed;
    NothingProbed(s, ids, marks);
    if k > 0 {
      EarlierMarks(s, ids, marks, k - 1, id);
      ProbedStep(s, ids, marks, k - 1);
    }
  }

  /**
   * The marks after a probe: a candidate that is asked loses its mark if it passes, is marked if it refuses structured
   * output before any wrong answer, and keeps its mark otherwise, as does every model that is not asked.
   */
  lemma MarksAre(c: Catalogue, st: State, s: Scan, id: string)
    requires Probes(c, st, s)
    ensures var ids, after := Shortlist(c, st.marks, s.start), After(c, st, s).marks;
            && ((forall j :: 0 <= j < |ids| && ids[j] == id ==> !Reached(s, ids, j)) ==> Same(st.marks, after, id))
            && forall j :: 0 <= j < |ids| && ids[j] == id && LastReached(s, ids, j, |ids|) ==>
                 if Passes(s, id) then id !in after
                 else if Refuses(s, id) then id in after && after[id] == s.clock(j)
                 else Same(st.marks, after, id)
  {
    hide Shortlist, Reached, LastReached, Passes, Refuses, Same;
    var ids := Shortlist(c, st.marks, s.start);
    if forall j :: 0 <= j < |ids| && ids[j] == id ==> !Reached(s, ids, j) { NotAsked(s, ids, st.marks, |ids|, id); }
    forall j | 0 <= j < |ids| && ids[j] == id && LastReached(s, ids, j, |ids|)
      ensures var after := After(c, st, s).marks;
              if Passes(s, id) then id !in after
              else if Refuses(s, id) then id in after && after[id] == s.clock(j)
              else Same(st.marks, after, id)
    {
      LastAsked(s, ids, st.marks, j, |ids|);
    }
  }

  // ---- the fingerprint ----

  /** Marked less than a day before `now`. */
  ghost predicate FreshMark(marks: map<string, int>, id: string, now: int) {
    id in marks && now - marks[id] < ONE_DAY_MS
  }

  lemma {:induction false} UnmarkedIs(ids: seq<string>, marks: map<string, int>, now: int, gone: set<string>)
    requires forall id :: id in ids ==> (id in gone <==> FreshMark(marks, id, now))
    ensures Unmarked(ids, marks, now) == Without(ids, gone)
  {
    if ids != [] { UnmarkedIs(ids[..|ids| - 1], marks, now, gone); }
  }

  /** The fingerprint names when the probe ended and the candidates that are still unmarked then. */
  lemma FingerprintIs(c: Catalogue, st: State, s: Scan)
    requires Probes(c, st, s)
    ensures var ids, after := Shortlist(c, st.marks, s.start), After(c, st, s);
            var end := s.clock(|ids|);
            && after.probe.Some? && after.probe.value.at == end
            && after.probe.value.candidates == Without(ids, set id | id in ids && FreshMark(after.marks, id, end))
  {
    hide Shortlist, Probed;
    var ids, after := Shortlist(c, st.marks, s.start), After(c, st, s);
    UnmarkedIs(ids, after.marks, s.clock(|ids|), set id | id in ids && FreshMark(after.marks, id, s.clock(|ids|)));
  }

  // ---- the shortlist ----

  /** Sized models first, smaller ones before larger, the rest by name. */
  ghost predicate BestFirst(ms: seq<Model>, nameLeq: (string, string) -> bool) {
    forall i, j :: 0 <= i < j < |ms| ==>
      && (ms[j].size.Some? ==> ms[i].size.Some? && ms[i].size.value <= ms[j].size.value)
      && (ms[i].size == ms[j].size ==> nameLeq(ms[i].id, ms[j].id))
  }

  ghost predicate Selectable(m: Model, marks: map<string, int>, now: int) {
    m.eligible && !FreshMark(marks, m.id, now)
  }

  lemma {:induction false} KeptCounts(models: seq<Model>, marks: map<string, int>, now: int, m: Model)
    ensures multiset(Keep(models, marks, now))[m] == if Selectable(m, marks, now) then multiset(models)[m] else 0
  {
    if models != [] {
      KeptCounts(models[..|models| - 1], marks, now, m);
      assert models == models[..|models| - 1] + [models[|models| - 1]];
    }
  }

  lemma {:induction false} IdsAt(ms: seq<Model>)
    ensures |Ids(ms)| == |ms| && forall i :: 0 <= i < |ms| ==> Ids(ms)[i] == ms[i].id
  {
    if ms != [] { IdsAt(ms[..|ms| - 1]); }
  }

  lemma SmallerIsPreorder(nameLeq: (string, string) -> bool)
    requires TotalPreorder(nameLeq)
    ensures TotalPreorder((a, b) => SmallerFirst(a, b, nameLeq))
  {
  }

  /**
   * The shortlist: the first six of the selectable models of the catalogue, each as often as it is listed, in the order
   * of size and name.
   */
  lemma ShortlistIs(c: Catalogue, marks: map<string, int>, now: int) returns (ms: seq<Model>)
    requires TotalPreorder(c.nameLeq)
    ensures BestFirst(ms, c.nameLeq)
    ensures forall m :: multiset(ms)[m] == if Selectable(m, marks, now) then multiset(c.models)[m] else 0
    ensures var ids := Shortlist(c, marks, now);
            |ids| == (if |ms| <= 6 then |ms| else 6) && forall i :: 0 <= i < |ids| ==> ids[i] == ms[i].id
  {
    var leq := (a, b) => SmallerFirst(a, b, c.nameLeq);
    var kept := Keep(c.models, marks, now);
    ms := StableSort(kept, leq);
    SmallerIsPreorder(c.nameLeq);
    SortSorts(kept, leq);
    hide Keep, StableSort;
    IdsAt(ms);
    SortMultiset(kept, leq);
    forall m ensures multiset(ms)[m] == if Selectable(m, marks, now) then multiset(c.models)[m] else 0 {
      KeptCounts(c.models, marks, now, m);
    }
    SortedIsBestFirst(ms, c.nameLeq);
  }

  lemma SortedIsBestFirst(ms: seq<Model>, nameLeq: (string, string) -> bool)
    requires SortedBy(ms, (a, b) => SmallerFirst(a, b, nameLeq))
    ensures BestFirst(ms, nameLeq)
  {
    var leq := (a, b) => SmallerFirst(a, b, nameLeq);
    forall i, j | 0 <= i < j < |ms|
      ensures ms[j].size.Some? ==> ms[i].size.Some? && ms[i].size.value <= ms[j].size.value
      ensures ms[i].size == ms[j].size ==> nameLeq(ms[i].id, ms[j].id)
    {
      assert leq(ms[i], ms[j]);
    }
  }

  // ---- how old a list may be ----

  lemma {:induction false} ProbeComesFrom(st: State, vs: seq<Visit>, n: nat)
    requires n <= |vs| && st.probe.None? && VisitState(st, vs, n).probe.Some?
    ensures exists j :: 0 <= j < n && ProbesAt(st, vs, j) && VisitState(st, vs, n).probe == ProbeResult(st, vs, j).probe
  {
    if n > 0 {
      hide Shortlist, AfterProbe, Reuses;
      if ProbesAt(st, vs, n - 1) {
        assert VisitState(st, vs, n).probe == ProbeResult(st, vs, n - 1).probe;
      } else {
        assert VisitState(st, vs, n).probe == VisitState(st, vs, n - 1).probe;
        ProbeComesFrom(st, vs, n - 1);
      }
    }
  }

  /**
   * Over every sequence of catalogues and scans: a scan that finds candidates and the daemon up either asks them, or it
   * is not forced and a probe that ended less than a day before it left exactly these candidates in its fingerprint.
   */
  lemma ListIsYoung(st: State, vs: seq<Visit>, n: nat)
    requires n < |vs| && st.probe.None?
    requires var v := vs[n];
             var ids := Shortlist(v.c, Before(VisitState(st, vs, n), v).marks, v.scan.start);
             ids != [] && v.scan.available && !v.scan.wedged
    ensures !ProbesAt(st, vs, n) ==>
              var v := vs[n];
              && !v.scan.force
              && exists j :: 0 <= j < n && ProbesAt(st, vs, j) && ProbeResult(st, vs, j).probe.Some? &&
                   var seen := ProbeResult(st, vs, j).probe.value;
                   && v.scan.start - seen.at < ONE_DAY_MS
                   && seen.candidates == Shortlist(v.c, Before(VisitState(st, vs, n), v).marks, v.scan.start)
  {
    hide Shortlist, ProbeResult, VisitState;
    if !ProbesAt(st, vs, n) {
      assert VisitState(st, vs, n).probe.Some?;
      ProbeComesFrom(st, vs, n);
    }
  }

  /** A scan with the daemon down changes nothing; one without candidates empties the list and nothing else. */
  lemma NobodyAsked(c: Catalogue, st: State, s: Scan)
    ensures Shortlist(c, st.marks, s.start) != [] && (s.wedged || !s.available) ==> After(c, st, s) == st
    ensures Shortlist(c, st.marks, s.start) == [] ==>
              After(c, st, s) == st || (After(c, st, s).working == Some([]) &&
                                        After(c, st, s).marks == st.marks && After(c, st, s).probe == st.probe)
  {
  }

  /** The other way round: a list younger than a day, probed for exactly these candidates, spares an unforced scan. */
  lemma YoungListIsReused(c: Catalogue, st: State, s: Scan)
    requires !s.force && st.working.Some? && st.probe.Some? && s.start - st.probe.value.at < ONE_DAY_MS
    requires st.probe.value.candidates == Shortlist(c, st.marks, s.start)
    ensures !Probes(c, st, s) && After(c, st, s) == st
  {
  }
}
