/** How often the local probe of src/classifier-local-probe.ts asks models within one day. */
module LocalProbeRuns {
  import opened Seqs
  import opened LocalProbe

  function EligibleIds(c: Catalogue): set<string> {
    set i | 0 <= i < |c.models| && c.models[i].eligible :: c.models[i].id
  }

  /** Everything a scan does happens between `from` and a day later, and judging follows its start. */
  ghost predicate Within(s: Scan, from: int) {
    && from <= s.start < from + DAY_MS
    && forall k :: 0 <= k <= MAX_LOCAL_PROBE_CANDIDATES ==> s.start <= s.clock(k) < from + DAY_MS
  }

  /** Unforced scans with the daemon up, one after the other, within one day. */
  ghost predicate QuietDay(scans: seq<Scan>, from: int) {
    && (forall i :: 0 <= i < |scans| ==>
          Within(scans[i], from) && !scans[i].force && !scans[i].wedged && scans[i].available)
    && (forall i, j :: 0 <= i < j < |scans| ==> scans[i].start <= scans[j].start)
  }

  function StateAt(c: Catalogue, st: State, scans: seq<Scan>, n: nat): State
    requires n <= |scans|
  {
    if n == 0 then st else After(c, StateAt(c, st, scans, n - 1), scans[n - 1])
  }

  function ProbeCount(c: Catalogue, st: State, scans: seq<Scan>, n: nat): nat
    requires n <= |scans|
  {
    if n == 0 then 0
    else ProbeCount(c, st, scans, n - 1) + if Probes(c, StateAt(c, st, scans, n - 1), scans[n - 1]) then 1 else 0
  }

  /** Eligible models marked since `from`. */
  function NewlyMarked(c: Catalogue, marks: map<string, int>, from: int): set<string> {
    set id | id in EligibleIds(c) && id in marks && marks[id] >= from
  }

  /** Eligible models whose mark was live at `from` and has lapsed by `now`. */
  function Lapsed(c: Catalogue, marks: map<string, int>, from: int, now: int): set<string> {
    set id | id in EligibleIds(c) && IsMarkedNoSchema(marks, id, from) && !IsMarkedNoSchema(marks, id, now)
  }

  // ---- What the shortlist depends on ----

  lemma {:induction false} SameKeep(models: seq<Model>, m1: map<string, int>, t1: int, m2: map<string, int>, t2: int)
    requires forall i :: 0 <= i < |models| && models[i].eligible ==>
               IsMarkedNoSchema(m1, models[i].id, t1) == IsMarkedNoSchema(m2, models[i].id, t2)
    ensures Keep(models, m1, t1) == Keep(models, m2, t2)
  {
    if models != [] { SameKeep(models[..|models| - 1], m1, t1, m2, t2); }
  }

  lemma {:induction false} KeptIds(models: seq<Model>, marks: map<string, int>, now: int, m: Model)
    ensures m in Keep(models, marks, now) <==>
            m in models && m.eligible && !IsMarkedNoSchema(marks, m.id, now)
  {
    if models != [] { KeptIds(models[..|models| - 1], marks, now, m); }
  }

  lemma {:induction false} IdsAre(models: seq<Model>, id: string)
    ensures id in Ids(models) <==> exists i :: 0 <= i < |models| && models[i].id == id
    ensures |Ids(models)| == |models|
  {
    if models != [] {
      IdsAre(models[..|models| - 1], id);
      if id in Ids(models[..|models| - 1]) {
        var i :| 0 <= i < |models| - 1 && models[..|models| - 1][i].id == id;
        assert models[i].id == id;
      }
      if i :| 0 <= i < |models| && models[i].id == id {
        if i < |models| - 1 { assert models[..|models| - 1][i].id == id; }
      }
    }
  }

  /** Candidates are eligible and unmarked. */
  lemma CandidateIsUnmarked(c: Catalogue, marks: map<string, int>, now: int, id: string)
    requires id in Shortlist(c, marks, now)
    ensures id in EligibleIds(c) && !IsMarkedNoSchema(marks, id, now)
  {
    var kept := Keep(c.models, marks, now);
    var sorted := StableSort(kept, (a, b) => SmallerFirst(a, b, c.nameLeq));
    assert id in Ids(sorted);
    IdsAre(sorted, id);
    var i :| 0 <= i < |sorted| && sorted[i].id == id;
    hide Keep, StableSort, IsMarkedNoSchema;
    SortMembers(kept, (a, b) => SmallerFirst(a, b, c.nameLeq));
    assert sorted[i] in kept;
    KeptIds(c.models, marks, now, sorted[i]);
    var j :| 0 <= j < |c.models| && c.models[j] == sorted[i];
  }

  lemma SameShortlist(c: Catalogue, m1: map<string, int>, t1: int, m2: map<string, int>, t2: int)
    requires forall id :: id in EligibleIds(c) ==> IsMarkedNoSchema(m1, id, t1) == IsMarkedNoSchema(m2, id, t2)
    ensures Shortlist(c, m1, t1) == Shortlist(c, m2, t2)
  {
    hide IsMarkedNoSchema, StableSort;
    forall i | 0 <= i < |c.models| && c.models[i].eligible
      ensures IsMarkedNoSchema(m1, c.models[i].id, t1) == IsMarkedNoSchema(m2, c.models[i].id, t2)
    {
      assert c.models[i].id in EligibleIds(c);
    }
    SameKeep(c.models, m1, t1, m2, t2);
  }

  lemma {:induction false} NothingMarked(ids: seq<string>, marks: map<string, int>, now: int)
    requires forall id :: id in ids ==> !IsMarkedNoSchema(marks, id, now)
    ensures Unmarked(ids, marks, now) == ids
  {
    if ids != [] { NothingMarked(ids[..|ids| - 1], marks, now); }
  }

  // ---- What a probe does to the marks ----

  ghost predicate Touched(s: Scan, before: map<string, int>, after: map<string, int>, id: string) {
    id !in after || (id in before && after[id] == before[id])
    || exists k :: 0 <= k < MAX_LOCAL_PROBE_CANDIDATES && after[id] == s.clock(k)
  }

  lemma {:induction false} ProbedMarks(s: Scan, ids: seq<string>, marks: map<string, int>, k: nat, id: string)
    requires k <= |ids| <= MAX_LOCAL_PROBE_CANDIDATES
    ensures var after := Probed(s, ids, marks, k).0;
            && Touched(s, marks, after, id)
            && (id !in ids ==> (id in after <==> id in marks) && (id in marks ==> after[id] == marks[id]))
  {
    if k > 0 {
      hide Verdict;
      ProbedMarks(s, ids, marks, k - 1, id);
      var before := Probed(s, ids, marks, k - 1).0;
      var after := Probed(s, ids, marks, k).0;
      if id in after && id == ids[k - 1] && id in before && after[id] != before[id] {
        assert after[id] == s.clock(k - 1);
      }
    }
  }

  /** Marks stem from the start of the day or were made during it, and live old marks are untouched. */
  ghost predicate Tracks(old0: map<string, int>, marks: map<string, int>, from: int, now: int) {
    && (forall id :: id in marks ==>
          from <= marks[id] < from + DAY_MS || (id in old0 && marks[id] == old0[id]))
    && (forall id :: IsMarkedNoSchema(old0, id, now) ==> id in marks && marks[id] == old0[id])
  }

  /** Whether a model is marked depends on the new marks and on the lapsed old ones alone. */
  lemma MarkedIff(old0: map<string, int>, marks: map<string, int>, from: int, since: int, now: int, id: string)
    requires Tracks(old0, marks, from, since) && from <= since <= now < from + DAY_MS
    requires forall i :: i in old0 ==> old0[i] < from
    ensures IsMarkedNoSchema(marks, id, now) <==>
            (id in marks && marks[id] >= from) || IsMarkedNoSchema(old0, id, now)
  {
  }

  lemma ProbeTracks(
    c: Catalogue, old0: map<string, int>, st: State, s: Scan, from: int, since: int)
    requires Tracks(old0, st.marks, from, since) && from <= since <= s.start && Within(s, from)
    requires forall i :: i in old0 ==> old0[i] < from
    ensures Tracks(old0, AfterProbe(c, st, s).marks, from, s.start)
    ensures forall id :: id in st.marks && st.marks[id] >= from ==>
              id in AfterProbe(c, st, s).marks && AfterProbe(c, st, s).marks[id] == st.marks[id]
  {
    var ids := Shortlist(c, st.marks, s.start);
    var after := AfterProbe(c, st, s).marks;
    assert after == Probed(s, ids, st.marks, |ids|).0;
    hide Shortlist, Probed, AfterProbe, IsMarkedNoSchema;
    ShortlistIsShort(c, st.marks, s.start);
    forall id
      ensures Touched(s, st.marks, after, id)
      ensures id !in ids ==> (id in after <==> id in st.marks) && (id in st.marks ==> after[id] == st.marks[id])
      ensures id in ids ==> !IsMarkedNoSchema(st.marks, id, s.start)
    {
      ProbedMarks(s, ids, st.marks, |ids|, id);
      if id in ids { CandidateIsUnmarked(c, st.marks, s.start, id); }
    }
    ProbeTracksEach(ids, old0, st.marks, after, s, from, since);
  }

  lemma ShortlistIsShort(c: Catalogue, marks: map<string, int>, now: int)
    ensures |Shortlist(c, marks, now)| <= MAX_LOCAL_PROBE_CANDIDATES
  {
  }

  lemma ProbeTracksEach(
    ids: seq<string>, old0: map<string, int>, before: map<string, int>, after: map<string, int>, s: Scan, from: int,
    since: int)
    requires Tracks(old0, before, from, since) && from <= since <= s.start && Within(s, from)
    requires forall i :: i in old0 ==> old0[i] < from
    requires forall id :: Touched(s, before, after, id)
    requires forall id :: id !in ids ==> (id in after <==> id in before) && (id in before ==> after[id] == before[id])
    requires forall id :: id in ids ==> !IsMarkedNoSchema(before, id, s.start)
    ensures Tracks(old0, after, from, s.start)
    ensures forall id :: id in before && before[id] >= from ==> id in after && after[id] == before[id]
  {
    forall id | id in after
      ensures from <= after[id] < from + DAY_MS || (id in old0 && after[id] == old0[id])
    {
      assert Touched(s, before, after, id);
    }
    forall id | IsMarkedNoSchema(old0, id, s.start) ensures id in after && after[id] == old0[id] {
      assert IsMarkedNoSchema(old0, id, since);
      assert IsMarkedNoSchema(before, id, s.start);
    }
    forall id | id in before && before[id] >= from ensures id in after && after[id] == before[id] {
      assert IsMarkedNoSchema(before, id, s.start);
    }
  }

  // ---- A day of scans ----

  function Since(scans: seq<Scan>, from: int, n: nat): int
    requires n <= |scans|
  {
    if n == 0 then from else scans[n - 1].start
  }

  /** Marks made before the day opened. */
  ghost predicate OldMarks(st: State, from: int) {
    forall id :: id in st.marks ==> st.marks[id] < from
  }

  lemma {:induction false} DayTracks(c: Catalogue, st: State, scans: seq<Scan>, from: int, n: nat)
    requires QuietDay(scans, from) && OldMarks(st, from) && n <= |scans|
    ensures Tracks(st.marks, StateAt(c, st, scans, n).marks, from, Since(scans, from, n))
    ensures from <= Since(scans, from, n) < from + DAY_MS
  {
    if n > 0 {
      DayTracks(c, st, scans, from, n - 1);
      var before, s := StateAt(c, st, scans, n - 1), scans[n - 1];
      if n > 1 { assert scans[n - 2].start <= s.start; }
      assert StateAt(c, st, scans, n) == After(c, before, s);
      hide StateAt, Tracks, After;
      ScanTracks(c, st, before, s, from, Since(scans, from, n - 1));
    }
  }

  lemma ScanTracks(c: Catalogue, st: State, before: State, s: Scan, from: int, since: int)
    requires OldMarks(st, from) && Within(s, from) && from <= since <= s.start
    requires Tracks(st.marks, before.marks, from, since)
    ensures Tracks(st.marks, After(c, before, s).marks, from, s.start)
  {
    hide Reuses, Shortlist, AfterProbe, Tracks;
    ProbeTracks(c, st.marks, before, s, from, since);
    LaterTracks(st.marks, before.marks, from, since, s.start);
  }

  lemma LaterTracks(old0: map<string, int>, marks: map<string, int>, from: int, since: int, now: int)
    requires Tracks(old0, marks, from, since) && since <= now
    ensures Tracks(old0, marks, from, now)
  {
  }

  function LastProbe(c: Catalogue, st: State, scans: seq<Scan>, n: nat): (r: Option<nat>)
    requires n <= |scans|
    ensures r.Some? ==> r.value < n
  {
    if n == 0 then None
    else if Probes(c, StateAt(c, st, scans, n - 1), scans[n - 1]) then Some(n - 1)
    else LastProbe(c, st, scans, n - 1)
  }

  /** Since the last probe nothing was written but, at most, an emptied list. */
  lemma {:induction false} SinceLastProbe(c: Catalogue, st: State, scans: seq<Scan>, from: int, n: nat)
    requires QuietDay(scans, from) && n <= |scans| && LastProbe(c, st, scans, n).Some?
    ensures var j := LastProbe(c, st, scans, n).value;
            var now, then_ := StateAt(c, st, scans, n), AfterProbe(c, StateAt(c, st, scans, j), scans[j]);
            Probes(c, StateAt(c, st, scans, j), scans[j]) &&
            now.marks == then_.marks && now.probe == then_.probe && now.working.Some?
  {
    hide Reuses, Shortlist, AfterProbe;
    var before, s := StateAt(c, st, scans, n - 1), scans[n - 1];
    ProbeSetsList(c, before, s);
    if !Probes(c, before, s) {
      SinceLastProbe(c, st, scans, from, n - 1);
    }
  }

  lemma ProbeSetsList(c: Catalogue, st: State, s: Scan)
    ensures AfterProbe(c, st, s).working.Some?
    ensures Probes(c, st, s) ==> After(c, st, s) == AfterProbe(c, st, s)
  {
  }

  lemma SubsetCard(a: set<string>, b: set<string>)
    requires a <= b
    ensures |a| <= |b| && (a != b ==> |a| < |b|)
  {
    assert b == a + (b - a);
    assert |b| == |a| + |b - a|;
    if a != b { var x :| x in b - a; }
  }

  lemma LapsedGrows(c: Catalogue, marks: map<string, int>, from: int, t1: int, t2: int)
    requires t1 <= t2
    ensures Lapsed(c, marks, from, t1) <= Lapsed(c, marks, from, t2)
  {
  }

  /** What the scans up to `n` could have paid with when scan `j` began. */
  function Paid(c: Catalogue, st: State, scans: seq<Scan>, from: int, j: nat): nat
    requires j < |scans|
  {
    |NewlyMarked(c, StateAt(c, st, scans, j).marks, from)| + |Lapsed(c, st.marks, from, scans[j].start)|
  }

  /** A probe that marked nothing, with nothing lapsed since, leaves a fingerprint the next scan recognises. */
  lemma Unchanged(c: Catalogue, st: State, scans: seq<Scan>, from: int, j: nat, n: nat)
    requires QuietDay(scans, from) && OldMarks(st, from) && j < n < |scans|
    requires LastProbe(c, st, scans, n) == Some(j)
    requires NewlyMarked(c, StateAt(c, st, scans, n).marks, from)
            == NewlyMarked(c, StateAt(c, st, scans, j).marks, from)
    requires Lapsed(c, st.marks, from, scans[n].start) == Lapsed(c, st.marks, from, scans[j].start)
    ensures Reuses(c, StateAt(c, st, scans, n), scans[n])
  {
    var s, t := scans[j], scans[n];
    var before, now := StateAt(c, st, scans, j), StateAt(c, st, scans, n);
    DayTracks(c, st, scans, from, j);
    DayTracks(c, st, scans, from, n);
    SinceLastProbe(c, st, scans, from, n);
    assert Since(scans, from, j) <= s.start && Since(scans, from, n) <= t.start;
    assert s.start <= t.start;
    hide StateAt, LastProbe, Shortlist, Probed, Tracks, EligibleIds;
    forall id | id in EligibleIds(c)
      ensures IsMarkedNoSchema(before.marks, id, s.start) == IsMarkedNoSchema(now.marks, id, t.start)
    {
      MarkedIff(st.marks, before.marks, from, Since(scans, from, j), s.start, id);
      MarkedIff(st.marks, now.marks, from, Since(scans, from, n), t.start, id);
      assert id in NewlyMarked(c, now.marks, from) <==> id in NewlyMarked(c, before.marks, from);
      assert id in Lapsed(c, st.marks, from, t.start) <==> id in Lapsed(c, st.marks, from, s.start);
      assert IsMarkedNoSchema(st.marks, id, s.start) ==> IsMarkedNoSchema(st.marks, id, from);
      assert IsMarkedNoSchema(st.marks, id, t.start) ==> IsMarkedNoSchema(st.marks, id, from);
    }
    SameShortlist(c, before.marks, s.start, now.marks, t.start);
    NothingNew(c, st, before, s, now, from, Since(scans, from, j));
  }

  lemma NothingNew(c: Catalogue, st: State, before: State, s: Scan, now: State, from: int, since: int)
    requires Within(s, from) && OldMarks(st, from) && from <= since <= s.start
    requires Tracks(st.marks, before.marks, from, since)
    requires now.marks == AfterProbe(c, before, s).marks
    requires NewlyMarked(c, now.marks, from) == NewlyMarked(c, before.marks, from)
    ensures AfterProbe(c, before, s).probe ==
            Some(Fingerprint(s.clock(|Shortlist(c, before.marks, s.start)|), Shortlist(c, before.marks, s.start)))
    ensures |Shortlist(c, before.marks, s.start)| <= MAX_LOCAL_PROBE_CANDIDATES
  {
    var ids := Shortlist(c, before.marks, s.start);
    var end := s.clock(|ids|);
    ShortlistIsShort(c, before.marks, s.start);
    ProbeTracks(c, st.marks, before, s, from, since);
    assert AfterProbe(c, before, s).probe == Some(Fingerprint(end, Unmarked(ids, now.marks, end)));
    hide Shortlist, AfterProbe, Tracks, EligibleIds, Unmarked;
    forall id | id in ids ensures !IsMarkedNoSchema(now.marks, id, end) {
      CandidateIsUnmarked(c, before.marks, s.start, id);
      MarkedIff(st.marks, before.marks, from, since, s.start, id);
      MarkedIff(st.marks, now.marks, from, s.start, end, id);
      assert id in NewlyMarked(c, now.marks, from) <==> id in NewlyMarked(c, before.marks, from);
    }
    NothingMarked(ids, now.marks, end);
  }

  lemma {:induction false} NewGrows(c: Catalogue, st: State, scans: seq<Scan>, from: int, j: nat, n: nat)
    requires QuietDay(scans, from) && OldMarks(st, from) && j <= n <= |scans|
    ensures NewlyMarked(c, StateAt(c, st, scans, j).marks, from) <= NewlyMarked(c, StateAt(c, st, scans, n).marks, from)
    decreases n - j
  {
    hide StateAt, QuietDay, OldMarks, NewlyMarked;
    if j < n {
      NewGrows(c, st, scans, from, j, n - 1);
      NewGrowsOnce(c, st, scans, from, n - 1);
    }
  }

  lemma NewGrowsOnce(c: Catalogue, st: State, scans: seq<Scan>, from: int, n: nat)
    requires QuietDay(scans, from) && OldMarks(st, from) && n < |scans|
    ensures NewlyMarked(c, StateAt(c, st, scans, n).marks, from)
            <= NewlyMarked(c, StateAt(c, st, scans, n + 1).marks, from)
  {
    DayTracks(c, st, scans, from, n);
    var before, s := StateAt(c, st, scans, n), scans[n];
    assert StateAt(c, st, scans, n + 1) == After(c, before, s);
    if n > 0 { assert scans[n - 1].start <= s.start; }
    hide Reuses, Shortlist, AfterProbe, Tracks, EligibleIds, StateAt;
    ProbeTracks(c, st.marks, before, s, from, Since(scans, from, n));
  }

  /** Every probe but the first is paid for by a new mark or a lapsed one. */
  lemma {:induction false} ProbesArePaid(c: Catalogue, st: State, scans: seq<Scan>, from: int, n: nat)
    requires QuietDay(scans, from) && OldMarks(st, from) && n <= |scans|
    ensures match LastProbe(c, st, scans, n)
            case None => ProbeCount(c, st, scans, n) == 0
            case Some(j) => ProbeCount(c, st, scans, n) <= 1 + Paid(c, st, scans, from, j)
  {
    hide StateAt, Probes, Paid, QuietDay, OldMarks;
    if n > 0 {
      ProbesArePaid(c, st, scans, from, n - 1);
      var k := n - 1;
      if Probes(c, StateAt(c, st, scans, k), scans[k]) && LastProbe(c, st, scans, k).Some? {
        var j := LastProbe(c, st, scans, k).value;
        NewPayment(c, st, scans, from, j, k);
      }
    }
  }

  lemma NewPayment(c: Catalogue, st: State, scans: seq<Scan>, from: int, j: nat, n: nat)
    requires QuietDay(scans, from) && OldMarks(st, from) && j < n < |scans|
    requires LastProbe(c, st, scans, n) == Some(j) && Probes(c, StateAt(c, st, scans, n), scans[n])
    ensures Paid(c, st, scans, from, j) < Paid(c, st, scans, from, n)
  {
    hide StateAt, LastProbe, NewlyMarked, Lapsed, Reuses;
    assert scans[j].start <= scans[n].start;
    NewGrows(c, st, scans, from, j, n);
    LapsedGrows(c, st.marks, from, scans[j].start, scans[n].start);
    var a := NewlyMarked(c, StateAt(c, st, scans, j).marks, from);
    var b := NewlyMarked(c, StateAt(c, st, scans, n).marks, from);
    var d, e := Lapsed(c, st.marks, from, scans[j].start), Lapsed(c, st.marks, from, scans[n].start);
    SubsetCard(a, b);
    SubsetCard(d, e);
    assert a != b || d != e by {
      if a == b && d == e { Unchanged(c, st, scans, from, j, n); }
    }
  }

  /**
   * In a quiet day the scans probe at most once, plus once for every model newly marked and every old mark lapsed; so
   * without live marks at the start at most once more than there are eligible models.
   */
  lemma ProbesPerDay(c: Catalogue, st: State, scans: seq<Scan>, from: int)
    requires QuietDay(scans, from) && OldMarks(st, from) && scans != []
    ensures ProbeCount(c, st, scans, |scans|)
            <= 1 + |NewlyMarked(c, StateAt(c, st, scans, |scans|).marks, from)|
                 + |Lapsed(c, st.marks, from, scans[|scans| - 1].start)|
    ensures (forall id :: id in EligibleIds(c) ==> !IsMarkedNoSchema(st.marks, id, from))
            ==> ProbeCount(c, st, scans, |scans|) <= 1 + |EligibleIds(c)|
  {
    hide StateAt, LastProbe, EligibleIds, QuietDay, ProbeCount, NewlyMarked, Lapsed, IsMarkedNoSchema;
    var n := |scans|;
    ProbesArePaid(c, st, scans, from, n);
    if LastProbe(c, st, scans, n).Some? {
      PaidLater(c, st, scans, from, LastProbe(c, st, scans, n).value);
    }
    FewNew(c, StateAt(c, st, scans, n).marks, from);
    if forall id :: id in EligibleIds(c) ==> !IsMarkedNoSchema(st.marks, id, from) {
      NoneLapses(c, st.marks, from, scans[n - 1].start);
    }
  }

  lemma PaidLater(c: Catalogue, st: State, scans: seq<Scan>, from: int, j: nat)
    requires QuietDay(scans, from) && OldMarks(st, from) && j < |scans|
    ensures Paid(c, st, scans, from, j)
            <= |NewlyMarked(c, StateAt(c, st, scans, |scans|).marks, from)|
               + |Lapsed(c, st.marks, from, scans[|scans| - 1].start)|
  {
    hide StateAt, NewlyMarked, Lapsed;
    var n := |scans|;
    assert scans[j].start <= scans[n - 1].start;
    hide QuietDay;
    NewGrows(c, st, scans, from, j, n);
    SubsetCard(NewlyMarked(c, StateAt(c, st, scans, j).marks, from),
               NewlyMarked(c, StateAt(c, st, scans, n).marks, from));
    LapsedGrows(c, st.marks, from, scans[j].start, scans[n - 1].start);
    SubsetCard(Lapsed(c, st.marks, from, scans[j].start), Lapsed(c, st.marks, from, scans[n - 1].start));
  }

  lemma FewNew(c: Catalogue, marks: map<string, int>, from: int)
    ensures |NewlyMarked(c, marks, from)| <= |EligibleIds(c)|
  {
    hide EligibleIds;
    SubsetCard(NewlyMarked(c, marks, from), EligibleIds(c));
  }

  lemma NoneLapses(c: Catalogue, marks: map<string, int>, from: int, now: int)
    requires forall id :: id in EligibleIds(c) ==> !IsMarkedNoSchema(marks, id, from)
    ensures |Lapsed(c, marks, from, now)| == 0
  {
  }

  // ---- At most six eligible models ----

  function Filter(models: seq<Model>, keep: Model -> bool): seq<Model> {
    if models == [] then []
    else Filter(models[..|models| - 1], keep) + if keep(models[|models| - 1]) then [models[|models| - 1]] else []
  }

  lemma FilterNext(models: seq<Model>, m: Model, keep: Model -> bool)
    ensures Filter(models + [m], keep) == if keep(m) then Filter(models, keep) + [m] else Filter(models, keep)
  {
  }

  lemma LastKept(models: seq<Model>, x: Model, leq: (Model, Model) -> bool, keep: Model -> bool)
    requires TotalPreorder(leq) && SortedBy(models, leq)
    requires models == [] || leq(models[|models| - 1], x)
    ensures var kept := Filter(models, keep); kept == [] || leq(kept[|kept| - 1], x)
  {
  }

  lemma {:induction false} FilterInsert(models: seq<Model>, x: Model, leq: (Model, Model) -> bool, keep: Model -> bool)
    requires TotalPreorder(leq) && SortedBy(models, leq)
    ensures Filter(Insert(models, x, leq), keep)
            == if keep(x) then Insert(Filter(models, keep), x, leq) else Filter(models, keep)
  {
    hide Filter, Insert, TotalPreorder;
    if models == [] || leq(models[|models| - 1], x) {
      LastKept(models, x, leq, keep);
      InsertLast(models, x, leq);
      InsertLast(Filter(models, keep), x, leq);
      FilterNext(models, x, keep);
    } else {
      var last, before := models[|models| - 1], models[..|models| - 1];
      assert models == before + [last];
      FilterInsert(before, x, leq, keep);
      hide SortedBy;
      InsertBack(before, last, x, leq);
      InsertBack(Filter(before, keep), last, x, leq);
      FilterNext(Insert(before, x, leq), last, keep);
      FilterNext(before, last, keep);
    }
  }

  /** Sorting and filtering commute, because the sort is stable. */
  lemma {:induction false} FilterSort(models: seq<Model>, leq: (Model, Model) -> bool, keep: Model -> bool)
    requires TotalPreorder(leq)
    ensures Filter(StableSort(models, leq), keep) == StableSort(Filter(models, keep), leq)
  {
    hide TotalPreorder, Insert;
    if models != [] {
      var before, x := models[..|models| - 1], models[|models| - 1];
      FilterSort(before, leq, keep);
      SortedNext(before, x, leq);
      FilterNext(before, x, keep);
      SortSorts(before, leq);
      FilterInsert(StableSort(before, leq), x, leq, keep);
      assert models == before + [x];
      hide Filter, StableSort, SortedBy;
      SortedNext(Filter(before, keep), x, leq);
    }
  }

  lemma SortedNext(models: seq<Model>, x: Model, leq: (Model, Model) -> bool)
    ensures StableSort(models + [x], leq) == Insert(StableSort(models, leq), x, leq)
  {
  }

  lemma {:induction false} FilterIds(models: seq<Model>, marks: map<string, int>, now: int, keep: Model -> bool)
    requires forall m :: m in models ==> keep(m) == !IsMarkedNoSchema(marks, m.id, now)
    ensures Ids(Filter(models, keep)) == Unmarked(Ids(models), marks, now)
  {
    hide IsMarkedNoSchema;
    if models != [] {
      var before, x := models[..|models| - 1], models[|models| - 1];
      FilterIds(before, marks, now, keep);
      assert x in models;
      var was := Filter(before, keep);
      assert was + [] == was && (was + [x])[..|was|] == was;
      assert Ids(models)[..|Ids(models)| - 1] == Ids(before);
      assert Unmarked(Ids(before), marks, now) + [] == Unmarked(Ids(before), marks, now);
    }
  }

  lemma {:induction false} KeepFiltered(
    models: seq<Model>, m1: map<string, int>, t1: int, m2: map<string, int>, t2: int, keep: Model -> bool)
    requires forall m :: m in models && m.eligible ==>
               (!IsMarkedNoSchema(m2, m.id, t2) <==> !IsMarkedNoSchema(m1, m.id, t1) && keep(m))
    ensures Keep(models, m2, t2) == Filter(Keep(models, m1, t1), keep)
  {
    hide IsMarkedNoSchema;
    if models != [] {
      var before, x := models[..|models| - 1], models[|models| - 1];
      KeepFiltered(before, m1, t1, m2, t2, keep);
      FilterNext(Keep(before, m1, t1), x, keep);
      assert x in models;
      assert Keep(before, m1, t1) + [] == Keep(before, m1, t1);
      assert Keep(before, m2, t2) + [] == Keep(before, m2, t2);
    }
  }

  lemma OrderIsTotal(c: Catalogue)
    requires TotalPreorder(c.nameLeq)
    ensures TotalPreorder((a, b) => SmallerFirst(a, b, c.nameLeq))
  {
  }

  /** With no more candidates than the probe takes, the next candidates are the fingerprint of the last probe. */
  lemma NextCandidates(
    c: Catalogue, m1: map<string, int>, t1: int, after: map<string, int>, end: int, t2: int)
    requires TotalPreorder(c.nameLeq) && |Candidates(c, m1, t1)| <= MAX_LOCAL_PROBE_CANDIDATES
    requires forall id :: id in EligibleIds(c) ==>
               (!IsMarkedNoSchema(after, id, t2) <==>
                !IsMarkedNoSchema(m1, id, t1) && !IsMarkedNoSchema(after, id, end))
    ensures Shortlist(c, after, t2) == Unmarked(Shortlist(c, m1, t1), after, end)
  {
    var leq := (a, b) => SmallerFirst(a, b, c.nameLeq);
    var keep := (m: Model) => !IsMarkedNoSchema(after, m.id, end);
    forall m | m in c.models && m.eligible ensures m.id in EligibleIds(c) {
      var i :| 0 <= i < |c.models| && c.models[i] == m;
    }
    hide SmallerFirst, StableSort, EligibleIds;
    OrderIsTotal(c);
    KeepFiltered(c.models, m1, t1, after, t2, keep);
    var kept := Keep(c.models, m1, t1);
    hide IsMarkedNoSchema;
    FilterSort(kept, leq, keep);
    FilterIds(StableSort(kept, leq), after, end, keep);
    assert Candidates(c, after, t2) == Unmarked(Candidates(c, m1, t1), after, end);
    hide Candidates;
    UnmarkedShorter(Candidates(c, m1, t1), after, end);
  }

  lemma {:induction false} UnmarkedShorter(ids: seq<string>, marks: map<string, int>, now: int)
    ensures |Unmarked(ids, marks, now)| <= |ids|
  {
    if ids != [] { UnmarkedShorter(ids[..|ids| - 1], marks, now); }
  }

  function EligibleCount(models: seq<Model>): nat {
    if models == [] then 0
    else EligibleCount(models[..|models| - 1]) + if models[|models| - 1].eligible then 1 else 0
  }

  lemma {:induction false} FewKept(models: seq<Model>, marks: map<string, int>, now: int)
    ensures |Keep(models, marks, now)| <= EligibleCount(models)
  {
    if models != [] { FewKept(models[..|models| - 1], marks, now); }
  }

  lemma FewCandidates(c: Catalogue, marks: map<string, int>, now: int)
    ensures |Candidates(c, marks, now)| <= EligibleCount(c.models)
  {
    var kept := Keep(c.models, marks, now);
    var leq := (a, b) => SmallerFirst(a, b, c.nameLeq);
    FewKept(c.models, marks, now);
    SortMembers(kept, leq);
    IdsAre(StableSort(kept, leq), "");
  }

  /** With at most six eligible models the scan after a probe reuses its list, whatever the probe marked. */
  lemma SmallCatalogueReuses(c: Catalogue, st: State, scans: seq<Scan>, from: int, j: nat, n: nat)
    requires TotalPreorder(c.nameLeq) && EligibleCount(c.models) <= MAX_LOCAL_PROBE_CANDIDATES
    requires QuietDay(scans, from) && OldMarks(st, from) && j < n < |scans|
    requires LastProbe(c, st, scans, n) == Some(j)
    requires Lapsed(c, st.marks, from, scans[n].start) == Lapsed(c, st.marks, from, scans[j].start)
    ensures Reuses(c, StateAt(c, st, scans, n), scans[n])
  {
    var s, t := scans[j], scans[n];
    var before, now := StateAt(c, st, scans, j), StateAt(c, st, scans, n);
    DayTracks(c, st, scans, from, j);
    DayTracks(c, st, scans, from, n);
    SinceLastProbe(c, st, scans, from, n);
    assert Since(scans, from, j) <= s.start && Since(scans, from, n) <= t.start && s.start <= t.start;
    assert Within(s, from) && Within(t, from);
    hide StateAt, LastProbe, QuietDay, Since;
    var ids := Shortlist(c, before.marks, s.start);
    ShortlistIsShort(c, before.marks, s.start);
    FewCandidates(c, before.marks, s.start);
    var end := s.clock(|ids|);
    assert now.probe == Some(Fingerprint(end, Unmarked(ids, now.marks, end)));
    var since := Since(scans, from, j);
    StatusAfterProbe(c, st, before, s, now, from, since, Since(scans, from, n), t.start, end);
    NextCandidates(c, before.marks, s.start, now.marks, end, t.start);
  }

  lemma StatusAfterProbe(
    c: Catalogue, st: State, before: State, s: Scan, now: State, from: int, since: int, sinceNow: int, t: int, end: int)
    requires Within(s, from) && OldMarks(st, from) && from <= since <= s.start <= t < from + DAY_MS
    requires s.start <= end < from + DAY_MS && from <= sinceNow <= t
    requires Tracks(st.marks, before.marks, from, since) && Tracks(st.marks, now.marks, from, sinceNow)
    requires now.marks == AfterProbe(c, before, s).marks
    requires Lapsed(c, st.marks, from, t) == Lapsed(c, st.marks, from, s.start)
    ensures forall id :: id in EligibleIds(c) ==>
              (!IsMarkedNoSchema(now.marks, id, t) <==>
               !IsMarkedNoSchema(before.marks, id, s.start) && !IsMarkedNoSchema(now.marks, id, end))
  {
    ProbeTracks(c, st.marks, before, s, from, since);
    hide AfterProbe, Tracks, EligibleIds;
    forall id | id in EligibleIds(c)
      ensures !IsMarkedNoSchema(now.marks, id, t) <==>
              !IsMarkedNoSchema(before.marks, id, s.start) && !IsMarkedNoSchema(now.marks, id, end)
    {
      MarkedIff(st.marks, before.marks, from, since, s.start, id);
      MarkedIff(st.marks, now.marks, from, sinceNow, t, id);
      MarkedIff(st.marks, now.marks, from, s.start, end, id);
      assert id in Lapsed(c, st.marks, from, t) <==> id in Lapsed(c, st.marks, from, s.start);
      assert IsMarkedNoSchema(st.marks, id, s.start) ==> IsMarkedNoSchema(st.marks, id, from);
      assert IsMarkedNoSchema(st.marks, id, t) ==> IsMarkedNoSchema(st.marks, id, from);
    }
  }

  /** So then only lapsed marks cost a probe: without any, the day has at most one. */
  lemma {:induction false} SmallCatalogueProbes(c: Catalogue, st: State, scans: seq<Scan>, from: int, n: nat)
    requires TotalPreorder(c.nameLeq) && EligibleCount(c.models) <= MAX_LOCAL_PROBE_CANDIDATES
    requires QuietDay(scans, from) && OldMarks(st, from) && n <= |scans|
    ensures match LastProbe(c, st, scans, n)
            case None => ProbeCount(c, st, scans, n) == 0
            case Some(j) => ProbeCount(c, st, scans, n) <= 1 + |Lapsed(c, st.marks, from, scans[j].start)|
  {
    hide StateAt, Probes, Lapsed, OldMarks, EligibleCount;
    if n > 0 {
      SmallCatalogueProbes(c, st, scans, from, n - 1);
      var k := n - 1;
      if Probes(c, StateAt(c, st, scans, k), scans[k]) && LastProbe(c, st, scans, k).Some? {
        var j := LastProbe(c, st, scans, k).value;
        assert scans[j].start <= scans[k].start;
        LapsedGrows(c, st.marks, from, scans[j].start, scans[k].start);
        SubsetCard(Lapsed(c, st.marks, from, scans[j].start), Lapsed(c, st.marks, from, scans[k].start));
        SmallPayment(c, st, scans, from, j, k);
      }
    }
  }

  lemma SmallPayment(c: Catalogue, st: State, scans: seq<Scan>, from: int, j: nat, n: nat)
    requires TotalPreorder(c.nameLeq) && EligibleCount(c.models) <= MAX_LOCAL_PROBE_CANDIDATES
    requires QuietDay(scans, from) && OldMarks(st, from) && j < n < |scans|
    requires LastProbe(c, st, scans, n) == Some(j) && Probes(c, StateAt(c, st, scans, n), scans[n])
    ensures Lapsed(c, st.marks, from, scans[n].start) != Lapsed(c, st.marks, from, scans[j].start)
  {
    hide StateAt, LastProbe, Lapsed, Reuses, QuietDay, EligibleCount;
    if Lapsed(c, st.marks, from, scans[n].start) == Lapsed(c, st.marks, from, scans[j].start) {
      SmallCatalogueReuses(c, st, scans, from, j, n);
    }
  }

  // ---- Catalogues that change between scans ----

  /** A scan of whatever the catalogue is by then; `marked` are marks made outside the probe since the last scan. */
  datatype Visit = Visit(c: Catalogue, marked: map<string, int>, scan: Scan)

  function Before(st: State, v: Visit): State {
    st.(marks := st.marks + v.marked)
  }

  function VisitState(st: State, vs: seq<Visit>, n: nat): State
    requires n <= |vs|
  {
    if n == 0 then st else After(vs[n - 1].c, Before(VisitState(st, vs, n - 1), vs[n - 1]), vs[n - 1].scan)
  }

  predicate ProbesAt(st: State, vs: seq<Visit>, k: nat)
    requires k < |vs|
  {
    Probes(vs[k].c, Before(VisitState(st, vs, k), vs[k]), vs[k].scan)
  }

  predicate ReusesAt(st: State, vs: seq<Visit>, k: nat)
    requires k < |vs|
  {
    Reuses(vs[k].c, Before(VisitState(st, vs, k), vs[k]), vs[k].scan)
  }

  /** The scan finds no candidate and empties the list. */
  predicate EmptiesAt(st: State, vs: seq<Visit>, k: nat)
    requires k < |vs|
  {
    var before := Before(VisitState(st, vs, k), vs[k]);
    !Reuses(vs[k].c, before, vs[k].scan) && Shortlist(vs[k].c, before.marks, vs[k].scan.start) == []
  }

  function ProbeResult(st: State, vs: seq<Visit>, j: nat): State
    requires j < |vs|
  {
    AfterProbe(vs[j].c, Before(VisitState(st, vs, j), vs[j]), vs[j].scan)
  }

  ghost predicate LastProbeAt(st: State, vs: seq<Visit>, j: nat, n: nat)
    requires n <= |vs|
  {
    j < n && ProbesAt(st, vs, j) && forall k :: j < k < n ==> !ProbesAt(st, vs, k)
  }

  ghost predicate EmptiedBetween(st: State, vs: seq<Visit>, j: nat, n: nat)
    requires n <= |vs|
  {
    exists k :: j < k < n && EmptiesAt(st, vs, k)
  }

  lemma VisitKeepsWorking(st: State, vs: seq<Visit>, k: nat)
    requires k < |vs|
    ensures VisitState(st, vs, k + 1).working ==
            if ProbesAt(st, vs, k) then ProbeResult(st, vs, k).working
            else if EmptiesAt(st, vs, k) then Some([])
            else VisitState(st, vs, k).working
  {
    hide Shortlist, AfterProbe, Reuses;
  }

  /** The stored list is the last probe's result, or empty if a scan since then found no candidate. */
  lemma {:induction false} WorkingSinceProbe(st: State, vs: seq<Visit>, j: nat, n: nat)
    requires n <= |vs| && LastProbeAt(st, vs, j, n)
    ensures VisitState(st, vs, n).working ==
            if EmptiedBetween(st, vs, j, n) then Some([]) else ProbeResult(st, vs, j).working
    decreases n
  {
    hide VisitState, ProbesAt, EmptiesAt, ProbeResult;
    VisitKeepsWorking(st, vs, n - 1);
    if j < n - 1 { WorkingSinceProbe(st, vs, j, n - 1); }
  }

  /**
   * Over every sequence of catalogues and scans, a scan that reuses the stored list gets the last probe's result
   * exactly when that result is empty or no scan in between found no candidate.
   */
  lemma ReuseIsLastProbeIff(st: State, vs: seq<Visit>, j: nat, n: nat)
    requires n < |vs| && LastProbeAt(st, vs, j, n) && ReusesAt(st, vs, n)
    ensures VisitState(st, vs, n + 1) == Before(VisitState(st, vs, n), vs[n])
    ensures VisitState(st, vs, n).working == ProbeResult(st, vs, j).working <==>
            ProbeResult(st, vs, j).working == Some([]) || !EmptiedBetween(st, vs, j, n)
  {
    WorkingSinceProbe(st, vs, j, n);
  }

  /**
   * The case where it does not: a model is found and works, is removed, and comes back within a day. The scan takes the
   * emptied list for the fresh result its fingerprint names, and asks nobody.
   */
  lemma EmptiedListIsReused(nameLeq: (string, string) -> bool, cases: nat)
    ensures var there, gone := Catalogue([Model("m", None, true)], nameLeq), Catalogue([], nameLeq);
            var vs := [Visit(there, map[], GoodScan(0, cases)), Visit(gone, map[], GoodScan(1, cases)),
                       Visit(there, map[], GoodScan(2, cases))];
            var st := State(map[], None, None);
            && ProbesAt(st, vs, 0) && VisitState(st, vs, 1).working == Some(["m"])
            && EmptiesAt(st, vs, 1)
            && ReusesAt(st, vs, 2) && VisitState(st, vs, 3).working == Some([])
  {
    var there, gone := Catalogue([Model("m", None, true)], nameLeq), Catalogue([], nameLeq);
    var vs := [Visit(there, map[], GoodScan(0, cases)), Visit(gone, map[], GoodScan(1, cases)),
               Visit(there, map[], GoodScan(2, cases))];
    var st := State(map[], None, None);
    var after := State(map[], Some(["m"]), Some(Fingerprint(0, ["m"])));
    var emptied := State(map[], Some([]), Some(Fingerprint(0, ["m"])));
    hide After, Probes, Reuses, Shortlist;
    FirstVisit(there, st, after, cases);
    SecondVisit(gone, after, emptied, cases);
    ThirdVisit(there, emptied, cases);
    VisitStep(st, vs, 0);
    VisitStep(st, vs, 1);
    VisitStep(st, vs, 2);
    hide VisitState;
    assert Before(st, vs[0]) == st && Before(after, vs[1]) == after && Before(emptied, vs[2]) == emptied;
  }

  lemma VisitStep(st: State, vs: seq<Visit>, n: nat)
    requires n < |vs|
    ensures VisitState(st, vs, n + 1) == After(vs[n].c, Before(VisitState(st, vs, n), vs[n]), vs[n].scan)
    ensures n == 0 ==> VisitState(st, vs, n) == st
  {
  }

  lemma FirstVisit(c: Catalogue, st: State, after: State, cases: nat)
    requires c.models == [Model("m", None, true)] && st == State(map[], None, None)
    requires after == State(map[], Some(["m"]), Some(Fingerprint(0, ["m"])))
    ensures Probes(c, st, GoodScan(0, cases)) && After(c, st, GoodScan(0, cases)) == after
  {
    hide Shortlist, AfterProbe;
    OneModel(c, 0);
    OneProbe(c, st, cases);
  }

  lemma SecondVisit(c: Catalogue, after: State, emptied: State, cases: nat)
    requires c.models == [] && after == State(map[], Some(["m"]), Some(Fingerprint(0, ["m"])))
    requires emptied == after.(working := Some([]))
    ensures After(c, after, GoodScan(1, cases)) == emptied
    ensures !Reuses(c, after, GoodScan(1, cases)) && Shortlist(c, map[], 1) == []
  {
    hide Shortlist, AfterProbe;
    NoModel(c, 1);
  }

  lemma ThirdVisit(c: Catalogue, emptied: State, cases: nat)
    requires c.models == [Model("m", None, true)]
    requires emptied == State(map[], Some([]), Some(Fingerprint(0, ["m"])))
    ensures Reuses(c, emptied, GoodScan(2, cases)) && After(c, emptied, GoodScan(2, cases)) == emptied
  {
    hide Shortlist, AfterProbe;
    OneModel(c, 2);
  }

  /** An unforced scan with the daemon up in which every model gets every case right at once. */
  function GoodScan(start: int, cases: nat): Scan {
    Scan(start, (k: nat) => start, false, false, true, cases, (id: string, k: nat) => Right)
  }

  lemma {:induction false} GoodVerdict(start: int, cases: nat, id: string, k: nat)
    requires k <= cases
    ensures Verdict(GoodScan(start, cases), id, k) == Right
    decreases cases - k
  {
    if k < cases { GoodVerdict(start, cases, id, k + 1); }
  }

  lemma OneProbe(c: Catalogue, st: State, cases: nat)
    requires c.models == [Model("m", None, true)] && st == State(map[], None, None)
    requires Shortlist(c, map[], 0) == ["m"]
    ensures After(c, st, GoodScan(0, cases)) == State(map[], Some(["m"]), Some(Fingerprint(0, ["m"])))
  {
    hide Shortlist;
    var s, ids := GoodScan(0, cases), ["m"];
    GoodVerdict(0, cases, "m", 0);
    hide Verdict;
    var none: map<string, int> := map[];
    assert Probed(s, ids, none, 0) == (none, []);
    assert none - {"m"} == none && [] + ["m"] == ids;
    assert Probed(s, ids, none, 1) == (none, ids);
    NothingMarked(ids, none, 0);
  }

  lemma OneModel(c: Catalogue, now: int)
    requires c.models == [Model("m", None, true)]
    ensures Shortlist(c, map[], now) == ["m"]
  {
    assert c.models[..0] == [];
    assert Keep(c.models, map[], now) == c.models;
    var leq := (a, b) => SmallerFirst(a, b, c.nameLeq);
    assert StableSort(c.models, leq) == c.models;
    assert Ids(c.models) == ["m"];
  }

  lemma NoModel(c: Catalogue, now: int)
    requires c.models == []
    ensures Shortlist(c, map[], now) == []
  {
    var leq := (a, b) => SmallerFirst(a, b, c.nameLeq);
    assert StableSort(Keep(c.models, map[], now), leq) == [];
  }
}
