/**
 The greedy join of scripts/laya-pair-stats.ts: every acted `laya` record is paired with the first
 unused `comparator` record of the same prompt hash that follows it within a window.
 */
module PairStats {
  import opened Seqs

  const DEFAULT_WINDOW_MS: int := 5 * 60000

  datatype PairLogRecord = PairLogRecord(
    ts: int, stage: string, acted: bool, raw: Option<string>, prev: Option<string>, sha: string)

  /** A record together with its place in the log, which stands for the identity of the object. */
  datatype Entry = Entry(pos: nat, rec: PairLogRecord)

  datatype Pair = Pair(laya: Entry, comparator: Entry)

  predicate Earlier(a: Entry, b: Entry) { a.rec.ts <= b.rec.ts }

  /** Time order, ties in log order. */
  predicate Before(a: Entry, b: Entry) {
    a.rec.ts < b.rec.ts || (a.rec.ts == b.rec.ts && a.pos < b.pos)
  }

  predicate IsActedLaya(e: Entry) { e.rec.stage == "laya" && e.rec.acted }

  predicate IsComparator(e: Entry) { e.rec.stage == "comparator" }

  predicate InWindow(l: Entry, c: Entry, windowMs: int) {
    l.rec.sha == c.rec.sha && 0 <= c.rec.ts - l.rec.ts <= windowMs
  }

  function Log(records: seq<PairLogRecord>): seq<Entry> {
    seq(|records|, i requires 0 <= i < |records| => Entry(i, records[i]))
  }

  function Select(s: seq<Entry>, p: Entry -> bool): seq<Entry> {
    if s == [] then []
    else Select(s[..|s| - 1], p) + (if p(s[|s| - 1]) then [s[|s| - 1]] else [])
  }

  function Layas(records: seq<PairLogRecord>): seq<Entry> {
    StableSort(Select(Log(records), IsActedLaya), Earlier)
  }

  function Comparators(records: seq<PairLogRecord>): seq<Entry> {
    StableSort(Select(Log(records), IsComparator), Earlier)
  }

  function OfSha(s: seq<Entry>, sha: string): seq<Entry> {
    if s == [] then []
    else OfSha(s[..|s| - 1], sha) + (if s[|s| - 1].rec.sha == sha then [s[|s| - 1]] else [])
  }

  predicate Free(l: Entry, c: Entry, used: set<Entry>, windowMs: int) {
    c !in used && InWindow(l, c, windowMs)
  }

  /** The first candidate, in list order, that is unused and in the window. */
  function FirstMatch(l: Entry, cs: seq<Entry>, used: set<Entry>, windowMs: int): (r: Option<Entry>)
    ensures r.None? <==> forall c :: c in cs ==> !Free(l, c, used, windowMs)
    ensures r.Some? ==> r.value in cs && Free(l, r.value, used, windowMs)
  {
    if cs == [] then None
    else if Free(l, cs[0], used, windowMs) then Some(cs[0])
    else
      assert cs == [cs[0]] + cs[1..];
      FirstMatch(l, cs[1..], used, windowMs)
  }

  /** The join as a function: what is left to pair, given the comparators already used. */
  function Greedy(layas: seq<Entry>, cs: seq<Entry>, used: set<Entry>, windowMs: int): seq<Pair> {
    if layas == [] then []
    else
      match FirstMatch(layas[0], cs, used, windowMs)
      case None => Greedy(layas[1..], cs, used, windowMs)
      case Some(c) => [Pair(layas[0], c)] + Greedy(layas[1..], cs, used + {c}, windowMs)
  }

  // ---- the sorted lists hold exactly the selected records, in Before order ----

  lemma {:induction false} SelectFacts(s: seq<Entry>, p: Entry -> bool)
    requires forall i, j :: 0 <= i < j < |s| ==> s[i].pos < s[j].pos
    ensures forall e :: e in Select(s, p) <==> e in s && p(e)
    ensures forall i, j :: 0 <= i < j < |Select(s, p)| ==> Select(s, p)[i].pos < Select(s, p)[j].pos
  {
    if s != [] {
      var n := |s| - 1;
      SelectFacts(s[..n], p);
      assert s == s[..n] + [s[n]];
      var r := Select(s[..n], p);
      forall i | 0 <= i < |r| ensures r[i].pos < s[n].pos {
        assert r[i] in r;
        var k :| 0 <= k < n && s[k] == r[i];
      }
    }
  }

  lemma {:induction false} InsertBefore(s: seq<Entry>, x: Entry)
    requires SortedBy(s, Before)
    requires forall i :: 0 <= i < |s| ==> s[i].pos < x.pos
    ensures SortedBy(Insert(s, x, Earlier), Before)
  {
    if s != [] {
      var n := |s| - 1;
      if Earlier(s[n], x) {
        forall i | 0 <= i < |s| ensures Before(s[i], x) {
          if i < n { assert Before(s[i], s[n]); }
        }
        AppendSorted(s, x, Before);
      } else {
        InsertBefore(s[..n], x);
        InsertMembers(s[..n], x, Earlier);
        var r := Insert(s[..n], x, Earlier);
        forall i | 0 <= i < |r| ensures Before(r[i], s[n]) {
          assert r[i] in r;
          if r[i] != x {
            var k :| 0 <= k < n && s[k] == r[i];
            assert Before(s[k], s[n]);
          }
        }
        AppendSorted(r, s[n], Before);
      }
    } else {
      assert Insert(s, x, Earlier) == [x];
    }
  }

  lemma {:induction false} SortBefore(s: seq<Entry>)
    requires forall i, j :: 0 <= i < j < |s| ==> s[i].pos < s[j].pos
    ensures SortedBy(StableSort(s, Earlier), Before)
  {
    if s != [] {
      var n := |s| - 1;
      SortBefore(s[..n]);
      SortMembers(s[..n], Earlier);
      var r := StableSort(s[..n], Earlier);
      forall i | 0 <= i < |r| ensures r[i].pos < s[n].pos {
        assert r[i] in r;
        var k :| 0 <= k < n && s[k] == r[i];
      }
      InsertBefore(r, s[n]);
    }
  }

  lemma SortedLists(records: seq<PairLogRecord>)
    ensures SortedBy(Layas(records), Before) && SortedBy(Comparators(records), Before)
    ensures Distinct(Layas(records)) && Distinct(Comparators(records))
    ensures forall e :: e in Layas(records) <==> e in Log(records) && IsActedLaya(e)
    ensures forall e :: e in Comparators(records) <==> e in Log(records) && IsComparator(e)
  {
    SelectFacts(Log(records), IsActedLaya);
    SelectFacts(Log(records), IsComparator);
    SortBefore(Select(Log(records), IsActedLaya));
    SortBefore(Select(Log(records), IsComparator));
    SortMembers(Select(Log(records), IsActedLaya), Earlier);
    SortMembers(Select(Log(records), IsComparator), Earlier);
    BeforeIsStrict(Layas(records));
    BeforeIsStrict(Comparators(records));
  }

  lemma BeforeIsStrict(s: seq<Entry>)
    requires SortedBy(s, Before)
    ensures Distinct(s)
  {
  }

  // ---- legality and order ----

  /** The pairs use listed records once each, unused so far, inside the window. */
  ghost predicate LegalPairs(ps: seq<Pair>, layas: seq<Entry>, cs: seq<Entry>, used: set<Entry>, windowMs: int) {
    && (forall i :: 0 <= i < |ps| ==>
          ps[i].laya in layas && ps[i].comparator in cs && Free(ps[i].laya, ps[i].comparator, used, windowMs))
    && (forall i, j :: 0 <= i < j < |ps| ==> ps[i].comparator != ps[j].comparator)
    && (forall i, j :: 0 <= i < j < |ps| ==> Before(ps[i].laya, ps[j].laya))
  }

  lemma {:induction false} GreedyIsLegal(layas: seq<Entry>, cs: seq<Entry>, used: set<Entry>, windowMs: int)
    requires SortedBy(layas, Before)
    ensures LegalPairs(Greedy(layas, cs, used, windowMs), layas, cs, used, windowMs)
  {
    hide Before, FirstMatch, LegalPairs;
    if layas == [] {
      assert LegalPairs([], layas, cs, used, windowMs) by { NoPairsIsLegal(layas, cs, used, windowMs); }
    } else {
      match FirstMatch(layas[0], cs, used, windowMs)
      case None =>
        GreedyIsLegal(layas[1..], cs, used, windowMs);
        LegalInMore(Greedy(layas[1..], cs, used, windowMs), layas, cs, used, windowMs);
      case Some(c) =>
        GreedyIsLegal(layas[1..], cs, used + {c}, windowMs);
        LegalWithFirst(Greedy(layas[1..], cs, used + {c}, windowMs), layas, cs, used, windowMs, c);
    }
  }

  lemma NoPairsIsLegal(layas: seq<Entry>, cs: seq<Entry>, used: set<Entry>, windowMs: int)
    ensures LegalPairs([], layas, cs, used, windowMs)
  {
  }

  lemma LegalInMore(ps: seq<Pair>, layas: seq<Entry>, cs: seq<Entry>, used: set<Entry>, windowMs: int)
    requires layas != [] && LegalPairs(ps, layas[1..], cs, used, windowMs)
    ensures LegalPairs(ps, layas, cs, used, windowMs)
  {
  }

  lemma LegalWithFirst(rest: seq<Pair>, layas: seq<Entry>, cs: seq<Entry>, used: set<Entry>, windowMs: int, c: Entry)
    requires SortedBy(layas, Before) && layas != []
    requires c in cs && Free(layas[0], c, used, windowMs)
    requires LegalPairs(rest, layas[1..], cs, used + {c}, windowMs)
    ensures LegalPairs([Pair(layas[0], c)] + rest, layas, cs, used, windowMs)
  {
  }

  lemma {:induction false} FirstMatchIsEarliest(l: Entry, cs: seq<Entry>, used: set<Entry>, windowMs: int, d: Entry)
    requires SortedBy(cs, Before) && d in cs && Free(l, d, used, windowMs)
    ensures FirstMatch(l, cs, used, windowMs).Some?
    ensures var c := FirstMatch(l, cs, used, windowMs).value; c == d || Before(c, d)
  {
    if !Free(l, cs[0], used, windowMs) {
      FirstMatchIsEarliest(l, cs[1..], used, windowMs, d);
    } else if d != cs[0] {
      var k :| 0 <= k < |cs| && cs[k] == d;
      assert Before(cs[0], cs[k]);
    }
  }

  /** Among the pairs of one prompt hash an earlier laya record has an earlier comparator. */
  ghost predicate OrderPreserving(ps: seq<Pair>) {
    forall i, j :: 0 <= i < j < |ps| && ps[i].laya.rec.sha == ps[j].laya.rec.sha ==>
      Before(ps[i].comparator, ps[j].comparator)
  }

  lemma BeforeTotal(cs: seq<Entry>, a: Entry, b: Entry)
    requires SortedBy(cs, Before) && a in cs && b in cs && a != b
    ensures Before(a, b) || Before(b, a)
  {
  }

  lemma {:induction false} GreedyKeepsOrder(layas: seq<Entry>, cs: seq<Entry>, used: set<Entry>, windowMs: int)
    requires SortedBy(layas, Before) && SortedBy(cs, Before)
    ensures OrderPreserving(Greedy(layas, cs, used, windowMs))
  {
    if layas != [] {
      match FirstMatch(layas[0], cs, used, windowMs)
      case None => GreedyKeepsOrder(layas[1..], cs, used, windowMs);
      case Some(c) =>
        GreedyKeepsOrder(layas[1..], cs, used + {c}, windowMs);
        GreedyIsLegal(layas[1..], cs, used + {c}, windowMs);
        var rest := Greedy(layas[1..], cs, used + {c}, windowMs);
        forall i | 0 <= i < |rest| && rest[i].laya.rec.sha == layas[0].rec.sha
          ensures Before(c, rest[i].comparator)
        {
          var d, l := rest[i].comparator, rest[i].laya;
          var k :| 0 <= k < |layas[1..]| && layas[1..][k] == l;
          assert Before(layas[0], layas[k + 1]);
          if Free(layas[0], d, used, windowMs) {
            FirstMatchIsEarliest(layas[0], cs, used, windowMs, d);
          } else {
            BeforeTotal(cs, c, d);
          }
        }
    }
  }

  // ---- maximality: the exchange argument ----

  /** A set of pairs that shares no record, drawn from what is still unused. */
  ghost predicate Matching(m: set<Pair>, layas: seq<Entry>, cs: seq<Entry>, used: set<Entry>, windowMs: int) {
    && (forall p :: p in m ==> p.laya in layas && p.comparator in cs && Free(p.laya, p.comparator, used, windowMs))
    && OneToOne(m)
  }

  ghost predicate OneToOne(m: set<Pair>) {
    forall p, q :: p in m && q in m && (p.laya == q.laya || p.comparator == q.comparator) ==> p == q
  }

  /**
   One exchange step: when the greedy choice for the first laya record is `c`, some matching of
   the remaining records that avoids `c` is at most one pair smaller.
   */
  lemma Exchange(m: set<Pair>, layas: seq<Entry>, cs: seq<Entry>, used: set<Entry>, windowMs: int, c: Entry)
    returns (rest: set<Pair>)
    requires SortedBy(layas, Before) && SortedBy(cs, Before) && layas != []
    requires FirstMatch(layas[0], cs, used, windowMs) == Some(c)
    requires Matching(m, layas, cs, used, windowMs)
    ensures Matching(rest, layas[1..], cs, used + {c}, windowMs)
    ensures |m| <= |rest| + 1
  {
    if p :| p in m && p.laya == layas[0] {
      if q :| q in m && q != p && q.comparator == c {
        // q held the greedy choice and p another comparator: q's record takes over p's comparator.
        var fewer := m - {p} - {q};
        Shrink(m, fewer, layas, cs, used, windowMs, c);
        assert q.laya in layas[1..];
        TakesOver(layas, cs, used, windowMs, c, q.laya, p.comparator);
        rest := Extend(fewer, Pair(q.laya, p.comparator), layas[1..], cs, used + {c}, windowMs);
      } else {
        rest := m - {p};
        Shrink(m, rest, layas, cs, used, windowMs, c);
      }
    } else {
      if q :| q in m && q.comparator == c {
        rest := m - {q};
      } else {
        rest := m;
      }
      Shrink(m, rest, layas, cs, used, windowMs, c);
    }
  }

  lemma Shrink(
    m: set<Pair>, rest: set<Pair>, layas: seq<Entry>, cs: seq<Entry>, used: set<Entry>, windowMs: int, c: Entry)
    requires layas != [] && Matching(m, layas, cs, used, windowMs) && rest <= m
    requires forall p :: p in rest ==> p.laya != layas[0] && p.comparator != c
    ensures Matching(rest, layas[1..], cs, used + {c}, windowMs)
    ensures forall p :: p in m && p.laya != layas[0] ==> p.laya in layas[1..]
  {
  }

  lemma Extend(m: set<Pair>, p: Pair, layas: seq<Entry>, cs: seq<Entry>, used: set<Entry>, windowMs: int)
    returns (r: set<Pair>)
    requires Matching(m, layas, cs, used, windowMs)
    requires p.laya in layas && p.comparator in cs && Free(p.laya, p.comparator, used, windowMs)
    requires forall q :: q in m ==> q.laya != p.laya && q.comparator != p.comparator
    ensures Matching(r, layas, cs, used, windowMs) && |r| == |m| + 1
  {
    assert p !in m;
    r := m + {p};
  }

  /** A record that may use the greedy choice `c` of the first record may also use that record's other options. */
  lemma TakesOver(layas: seq<Entry>, cs: seq<Entry>, used: set<Entry>, windowMs: int, c: Entry, k: Entry, d: Entry)
    requires SortedBy(layas, Before) && SortedBy(cs, Before) && layas != []
    requires FirstMatch(layas[0], cs, used, windowMs) == Some(c)
    requires k in layas[1..] && InWindow(k, c, windowMs)
    requires d in cs && Free(layas[0], d, used, windowMs)
    ensures Free(k, d, used, windowMs)
  {
  }

  lemma {:induction false} GreedyIsMaximum(
    layas: seq<Entry>, cs: seq<Entry>, used: set<Entry>, windowMs: int, m: set<Pair>)
    requires SortedBy(layas, Before) && SortedBy(cs, Before)
    requires Matching(m, layas, cs, used, windowMs)
    ensures |m| <= |Greedy(layas, cs, used, windowMs)|
  {
    if layas == [] {
      assert m == {};
    } else {
      assert layas == [layas[0]] + layas[1..];
      match FirstMatch(layas[0], cs, used, windowMs)
      case None =>
        forall p | p in m ensures p.laya in layas[1..] {
          assert p.laya != layas[0];
        }
        GreedyIsMaximum(layas[1..], cs, used, windowMs, m);
      case Some(c) =>
        var rest := Exchange(m, layas, cs, used, windowMs, c);
        GreedyIsMaximum(layas[1..], cs, used + {c}, windowMs, rest);
    }
  }

  // ---- the join as the script runs it ----

  /** The entry is a record of the log, at its place. */
  ghost predicate OfLog(e: Entry, records: seq<PairLogRecord>) {
    e.pos < |records| && records[e.pos] == e.rec
  }

  /** An acted laya record and a comparator of one prompt hash, which follows it within the window. */
  ghost predicate MayPair(l: Entry, c: Entry, records: seq<PairLogRecord>, windowMs: int) {
    && OfLog(l, records) && l.rec.stage == "laya" && l.rec.acted
    && OfLog(c, records) && c.rec.stage == "comparator"
    && l.rec.sha == c.rec.sha && l.rec.ts <= c.rec.ts <= l.rec.ts + windowMs
  }

  /** What the tool promises of a join: pairs that may be, each record in at most one. */
  ghost predicate LegalJoin(m: set<Pair>, records: seq<PairLogRecord>, windowMs: int) {
    (forall p :: p in m ==> MayPair(p.laya, p.comparator, records, windowMs)) && OneToOne(m)
  }

  lemma MayPairIff(l: Entry, c: Entry, records: seq<PairLogRecord>, windowMs: int)
    ensures MayPair(l, c, records, windowMs) <==>
            && l in Log(records) && IsActedLaya(l) && c in Log(records) && IsComparator(c) && InWindow(l, c, windowMs)
  {
    InLog(l, records);
    InLog(c, records);
  }

  lemma InLog(e: Entry, records: seq<PairLogRecord>)
    ensures e in Log(records) <==> OfLog(e, records)
  {
    if OfLog(e, records) { assert Log(records)[e.pos] == e; }
  }

  /** The greedy join is one-to-one, legal and order-preserving. */
  lemma JoinIsLegal(records: seq<PairLogRecord>, windowMs: int)
    ensures var ps := Greedy(Layas(records), Comparators(records), {}, windowMs);
      && LegalPairs(ps, Layas(records), Comparators(records), {}, windowMs)
      && OrderPreserving(ps)
      && Distinct(LayaSide(ps)) && Distinct(ComparatorSide(ps)) && Distinct(ps)
      && LegalJoin(ToSet(ps), records, windowMs)
  {
    hide Greedy, Layas, Comparators, Log, IsActedLaya, IsComparator, InWindow;
    SortedLists(records);
    var layas, cs := Layas(records), Comparators(records);
    var ps := Greedy(layas, cs, {}, windowMs);
    GreedyIsLegal(layas, cs, {}, windowMs);
    GreedyKeepsOrder(layas, cs, {}, windowMs);
    forall i, j | 0 <= i < j < |ps| ensures ps[i].laya != ps[j].laya {
      assert Before(ps[i].laya, ps[j].laya);
    }
    var m := ToSet(ps);
    forall p | p in m ensures MayPair(p.laya, p.comparator, records, windowMs) {
      var i :| 0 <= i < |ps| && ps[i] == p;
      assert Free(ps[i].laya, ps[i].comparator, {}, windowMs);
      MayPairIff(p.laya, p.comparator, records, windowMs);
    }
  }

  /** No legal join of the log, in any order, has more pairs than the greedy one. */
  lemma JoinIsMaximum(records: seq<PairLogRecord>, windowMs: int, m: set<Pair>)
    requires LegalJoin(m, records, windowMs)
    ensures |m| <= |Greedy(Layas(records), Comparators(records), {}, windowMs)|
  {
    SortedLists(records);
    assert Matching(m, Layas(records), Comparators(records), {}, windowMs) by {
      hide Layas, Comparators, Log, IsActedLaya, IsComparator, InWindow, MayPair;
      forall p | p in m
        ensures p.laya in Layas(records) && p.comparator in Comparators(records)
        ensures Free(p.laya, p.comparator, {}, windowMs)
      {
        MayPairIff(p.laya, p.comparator, records, windowMs);
      }
    }
    GreedyIsMaximum(Layas(records), Comparators(records), {}, windowMs, m);
  }

  lemma {:induction false} SameShaSuffices(l: Entry, cs: seq<Entry>, used: set<Entry>, windowMs: int)
    ensures FirstMatch(l, cs, used, windowMs) == FirstMatch(l, OfSha(cs, l.rec.sha), used, windowMs)
  {
    if cs != [] {
      var n := |cs| - 1;
      SameShaSuffices(l, cs[..n], used, windowMs);
      assert cs == cs[..n] + [cs[n]];
      FirstMatchAppend(l, cs[..n], cs[n], used, windowMs);
      var o := OfSha(cs[..n], l.rec.sha);
      FirstMatchAppend(l, o, cs[n], used, windowMs);
      assert o + [] == o;
    }
  }

  lemma {:induction false} FirstMatchAppend(l: Entry, cs: seq<Entry>, x: Entry, used: set<Entry>, windowMs: int)
    ensures FirstMatch(l, cs + [x], used, windowMs) ==
            match FirstMatch(l, cs, used, windowMs)
            case Some(c) => Some(c)
            case None => if Free(l, x, used, windowMs) then Some(x) else None
  {
    if cs == [] {
      assert ([x])[1..] == [];
    } else {
      assert (cs + [x])[1..] == cs[1..] + [x];
      FirstMatchAppend(l, cs[1..], x, used, windowMs);
    }
  }

  /** Unpaired records: those of `all` that are in no pair. */
  lemma UnpairedCount(all: seq<Entry>, picked: seq<Entry>)
    requires Distinct(all) && Distinct(picked)
    requires forall e :: e in picked ==> e in all
    ensures |set e | e in all && e !in picked| == |all| - |picked|
  {
    DistinctCard(all);
    DistinctCard(picked);
    assert (set e | e in all && e !in picked) == ToSet(all) - ToSet(picked);
  }

  function LayaSide(ps: seq<Pair>): seq<Entry> { seq(|ps|, i requires 0 <= i < |ps| => ps[i].laya) }

  function ComparatorSide(ps: seq<Pair>): seq<Entry> { seq(|ps|, i requires 0 <= i < |ps| => ps[i].comparator) }

  /** The records of one kind that no pair uses. */
  ghost function LeftOver(records: seq<PairLogRecord>, p: Entry -> bool, picked: seq<Entry>): set<Entry> {
    set e | e in Log(records) && p(e) && e !in picked
  }

  lemma LeftOverCount(records: seq<PairLogRecord>, p: Entry -> bool, all: seq<Entry>, picked: seq<Entry>)
    requires Distinct(all) && Distinct(picked)
    requires forall e :: e in all <==> e in Log(records) && p(e)
    requires forall e :: e in picked ==> e in all
    ensures |LeftOver(records, p, picked)| == |all| - |picked|
  {
    UnpairedCount(all, picked);
    assert LeftOver(records, p, picked) == set e | e in all && e !in picked;
  }

  /** The acted laya records of the log in none of these pairs. */
  ghost function LoneLayas(records: seq<PairLogRecord>, pairs: seq<Pair>): set<Entry> {
    set e | e in Log(records) && e.rec.stage == "laya" && e.rec.acted && e !in LayaSide(pairs)
  }

  ghost function LoneComparators(records: seq<PairLogRecord>, pairs: seq<Pair>): set<Entry> {
    set e | e in Log(records) && e.rec.stage == "comparator" && e !in ComparatorSide(pairs)
  }

  lemma CountsAreExact(records: seq<PairLogRecord>, windowMs: int)
    ensures var ps := Greedy(Layas(records), Comparators(records), {}, windowMs);
      && |LoneLayas(records, ps)| == |Layas(records)| - |ps|
      && |LoneComparators(records, ps)| == |Comparators(records)| - |ps|
  {
    SortedLists(records);
    JoinIsLegal(records, windowMs);
    var ps := Greedy(Layas(records), Comparators(records), {}, windowMs);
    LeftOverCount(records, IsActedLaya, Layas(records), LayaSide(ps));
    LeftOverCount(records, IsComparator, Comparators(records), ComparatorSide(ps));
    hide Greedy, Layas, Comparators;
    assert LoneLayas(records, ps) == LeftOver(records, IsActedLaya, LayaSide(ps));
    assert LoneComparators(records, ps) == LeftOver(records, IsComparator, ComparatorSide(ps));
  }

  // ---- which comparator a record gets ----

  lemma {:induction false} FirstMatchIsFirst(l: Entry, cs: seq<Entry>, used: set<Entry>, windowMs: int, c: Entry)
    requires SortedBy(cs, Before) && c in cs && Free(l, c, used, windowMs)
    ensures var r := FirstMatch(l, cs, used, windowMs); r.Some? && (r.value == c || Before(r.value, c))
  {
    assert cs == [cs[0]] + cs[1..];
    if !Free(l, cs[0], used, windowMs) { FirstMatchIsFirst(l, cs[1..], used, windowMs, c); }
  }

  lemma {:induction false} GreedyTakesFirst(
    layas: seq<Entry>, cs: seq<Entry>, used: set<Entry>, windowMs: int, l: Entry, c: Entry)
    requires SortedBy(layas, Before) && SortedBy(cs, Before)
    requires l in layas && c in cs && Free(l, c, used, windowMs)
    ensures TakenBefore(Greedy(layas, cs, used, windowMs), l, c)
  {
    hide Free, Before, FirstMatch;
    var ps := Greedy(layas, cs, used, windowMs);
    match FirstMatch(layas[0], cs, used, windowMs)
    case None =>
      NoMatch(layas[0], cs, used, windowMs, c);
      assert l in layas[1..];
      GreedyTakesFirst(layas[1..], cs, used, windowMs, l, c);
    case Some(c0) =>
      var rest := Greedy(layas[1..], cs, used + {c0}, windowMs);
      assert ps == [Pair(layas[0], c0)] + rest;
      assert ps[0] == Pair(layas[0], c0);
      if l == layas[0] {
        FirstMatchIsFirst(l, cs, used, windowMs, c);
      } else {
        assert l in layas[1..] && Before(layas[0], l);
        if c != c0 {
          StillFree(l, c, used, c0, windowMs);
          GreedyTakesFirst(layas[1..], cs, used + {c0}, windowMs, l, c);
          TakenLater(ps[0], rest, l, c);
        }
      }
  }

  lemma NoMatch(l: Entry, cs: seq<Entry>, used: set<Entry>, windowMs: int, c: Entry)
    requires FirstMatch(l, cs, used, windowMs).None? && c in cs
    ensures !Free(l, c, used, windowMs)
  {
  }

  lemma StillFree(l: Entry, c: Entry, used: set<Entry>, c0: Entry, windowMs: int)
    requires Free(l, c, used, windowMs) && c != c0
    ensures Free(l, c, used + {c0}, windowMs)
  {
  }

  /** The laya record got a comparator no later than `c`, or an earlier record got `c`. */
  ghost predicate TakenBefore(pairs: seq<Pair>, l: Entry, c: Entry) {
    exists k :: 0 <= k < |pairs| &&
      ((pairs[k].laya == l && (pairs[k].comparator == c || Before(pairs[k].comparator, c))) ||
       (pairs[k].comparator == c && Before(pairs[k].laya, l)))
  }

  lemma TakenLater(p: Pair, rest: seq<Pair>, l: Entry, c: Entry)
    requires TakenBefore(rest, l, c)
    ensures TakenBefore([p] + rest, l, c)
  {
    var k :| 0 <= k < |rest| &&
      ((rest[k].laya == l && (rest[k].comparator == c || Before(rest[k].comparator, c))) ||
       (rest[k].comparator == c && Before(rest[k].laya, l)));
    assert ([p] + rest)[k + 1] == rest[k];
  }

  /** A record and a comparator that may pair: it gets that one or an earlier one, or an earlier record gets it. */
  lemma EachTakesTheFirst(records: seq<PairLogRecord>, windowMs: int, l: Entry, c: Entry)
    requires MayPair(l, c, records, windowMs)
    ensures TakenBefore(Greedy(Layas(records), Comparators(records), {}, windowMs), l, c)
  {
    SortedLists(records);
    MayPairIff(l, c, records, windowMs);
    assert Free(l, c, {}, windowMs);
    hide Layas, Comparators, Free, Greedy;
    GreedyTakesFirst(Layas(records), Comparators(records), {}, windowMs, l, c);
  }

  /** pairRecords: legal, one-to-one, order-preserving, of maximum size, with exact unmatched counts. */
  method PairRecords(records: seq<PairLogRecord>, windowMs: int := DEFAULT_WINDOW_MS)
    returns (pairs: seq<Pair>, unpairedLaya: int, orphanComparators: int)
    ensures pairs == Greedy(Layas(records), Comparators(records), {}, windowMs)
    ensures Distinct(pairs) && LegalJoin(ToSet(pairs), records, windowMs)
    ensures OrderPreserving(pairs)
    ensures forall m: set<Pair> :: LegalJoin(m, records, windowMs) ==> |m| <= |pairs|
    ensures unpairedLaya == |LoneLayas(records, pairs)| && orphanComparators == |LoneComparators(records, pairs)|
  {
    var layas := Layas(records);
    var comparators := Comparators(records);
    pairs := JoinLoop(layas, comparators, windowMs);
    unpairedLaya := |layas| - |pairs|;
    orphanComparators := |comparators| - |pairs|;
    JoinIsLegal(records, windowMs);
    CountsAreExact(records, windowMs);
    forall m: set<Pair> | LegalJoin(m, records, windowMs) ensures |m| <= |pairs| {
      JoinIsMaximum(records, windowMs, m);
    }
  }

  method JoinLoop(layas: seq<Entry>, comparators: seq<Entry>, windowMs: int) returns (pairs: seq<Pair>)
    ensures pairs == Greedy(layas, comparators, {}, windowMs)
  {
    hide FirstMatch, Free, OfSha;
    var bySha := GroupBySha(comparators);
    var used: set<Entry> := {};
    pairs := [];
    for i := 0 to |layas|
      invariant pairs + Greedy(layas[i..], comparators, used, windowMs) == Greedy(layas, comparators, {}, windowMs)
    {
      var l := layas[i];
      var candidates := if l.rec.sha in bySha then bySha[l.rec.sha] else [];
      SameShaSuffices(l, comparators, used, windowMs);
      var m := Find(l, candidates, used, windowMs);
      assert layas[i..][1..] == layas[i + 1..];
      if m.Some? {
        used := used + {m.value};
        pairs := pairs + [Pair(l, m.value)];
      }
    }
    assert layas[|layas|..] == [];
  }

  method GroupBySha(comparators: seq<Entry>) returns (bySha: map<string, seq<Entry>>)
    ensures forall sha :: OfSha(comparators, sha) == if sha in bySha then bySha[sha] else []
  {
    bySha := map[];
    for i := 0 to |comparators|
      invariant forall sha :: OfSha(comparators[..i], sha) == if sha in bySha then bySha[sha] else []
    {
      var c := comparators[i];
      var list := if c.rec.sha in bySha then bySha[c.rec.sha] else [];
      bySha := bySha[c.rec.sha := list + [c]];
      assert comparators[..i + 1][..i] == comparators[..i];
      forall sha ensures OfSha(comparators[..i + 1], sha) == if sha in bySha then bySha[sha] else [] {
        assert OfSha(comparators[..i + 1], sha) ==
               OfSha(comparators[..i], sha) + (if c.rec.sha == sha then [c] else []);
      }
    }
    assert comparators[..|comparators|] == comparators;
  }

  /** Array.prototype.find over one prompt hash's candidates. */
  method Find(l: Entry, candidates: seq<Entry>, used: set<Entry>, windowMs: int) returns (r: Option<Entry>)
    ensures r == FirstMatch(l, candidates, used, windowMs)
  {
    for i := 0 to |candidates|
      invariant FirstMatch(l, candidates, used, windowMs) == FirstMatch(l, candidates[i..], used, windowMs)
    {
      assert candidates[i..][1..] == candidates[i + 1..];
      if Free(l, candidates[i], used, windowMs) {
        return Some(candidates[i]);
      }
    }
    r := None;
  }
}
