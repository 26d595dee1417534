/** src/classifier-fallback-probe.ts: price tiers and the round-robin over providers. */
module FallbackProbe {
  import opened Refs
  import opened Seqs

  /** `output` is None when the registry prices the model as unknown. */
  datatype Price = NoPrice | Price(output: Option<real>)

  /** `barred`: unhealthy, blocklisted, excluded or paid for classification. */
  datatype Model = Model(ref: string, barred: bool, price: Price, gdpval: Option<real>, costPerM: real)

  datatype Scored = Scored(ref: string, price: real, gdpval: real)

  datatype Tier = TierA | TierB | TierC | Excluded

  datatype Limits = Limits(maxPrice: real, maxGdpval: real)

  predicate StartsWith(s: string, prefix: string) {
    prefix <= s
  }

  function TierOf(m: Model, l: Limits): Tier {
    if StartsWith(m.ref, "ollama/") || StartsWith(m.ref, "lm-studio/") || m.barred then Excluded
    else if m.price.Price? && m.price.output.Some? && m.price.output.value <= l.maxPrice then
      if m.gdpval.Some? && m.gdpval.value <= l.maxGdpval then TierA else TierB
    else if m.price.NoPrice? && m.costPerM == 0.0 then TierC
    else Excluded
  }

  function Score(m: Model): Scored {
    Scored(m.ref,
           if m.price.Price? && m.price.output.Some? then m.price.output.value else 0.0,
           if m.gdpval.Some? then m.gdpval.value else 0.0)
  }

  function InTier(models: seq<Model>, tier: Tier, l: Limits): seq<Scored> {
    if models == [] then []
    else
      var m := models[|models| - 1];
      InTier(models[..|models| - 1], tier, l) + if TierOf(m, l) == tier then [Score(m)] else []
  }

  /** The comparator of tier A: price, then score. */
  predicate CheaperThenSimpler(a: Scored, b: Scored) {
    a.price < b.price || (a.price == b.price && a.gdpval <= b.gdpval)
  }

  predicate Cheaper(a: Scored, b: Scored) {
    a.price <= b.price
  }

  function RefsOf(s: seq<Scored>): seq<string> {
    if s == [] then [] else RefsOf(s[..|s| - 1]) + [s[|s| - 1].ref]
  }

  /** Tier A, then B, then C, each in its order. */
  function Ranked(models: seq<Model>, l: Limits): seq<string> {
    RefsOf(StableSort(InTier(models, TierA, l), CheaperThenSimpler))
    + RefsOf(StableSort(InTier(models, TierB, l), Cheaper))
    + RefsOf(InTier(models, TierC, l))
  }

  // ---- Grouping by provider ----

  function Picks(refs: seq<string>, provider: string): seq<string> {
    if refs == [] then []
    else
      var ref := refs[|refs| - 1];
      Picks(refs[..|refs| - 1], provider) + if Provider(ref) == provider then [ref] else []
  }

  /** Providers in order of first appearance. */
  function Providers(refs: seq<string>): seq<string> {
    if refs == [] then []
    else
      var before := Providers(refs[..|refs| - 1]);
      var p := Provider(refs[|refs| - 1]);
      if p in before then before else before + [p]
  }

  function Lists(refs: seq<string>): seq<seq<string>> {
    seq(|Providers(refs)|, k requires 0 <= k < |Providers(refs)| => Picks(refs, Providers(refs)[k]))
  }

  lemma {:induction false} ProvidersAre(refs: seq<string>)
    ensures Distinct(Providers(refs))
    ensures forall p :: p in Providers(refs) <==> exists i :: 0 <= i < |refs| && Provider(refs[i]) == p
  {
    if refs != [] {
      hide Provider;
      ProvidersAre(refs[..|refs| - 1]);
      forall p ensures p in Providers(refs) <==> exists i :: 0 <= i < |refs| && Provider(refs[i]) == p {
        if p in Providers(refs) {
          if p in Providers(refs[..|refs| - 1]) {
            var i :| 0 <= i < |refs| - 1 && Provider(refs[..|refs| - 1][i]) == p;
            assert Provider(refs[i]) == p;
          }
        } else {
          forall i | 0 <= i < |refs| ensures Provider(refs[i]) != p {
            if i < |refs| - 1 { assert refs[..|refs| - 1][i] == refs[i]; }
          }
        }
      }
    }
  }

  // ---- The order of a full round-robin ----

  /** The picks of round `r` by the first `n` providers. */
  function Round(lists: seq<seq<string>>, r: nat, n: nat): seq<string>
    requires n <= |lists|
  {
    if n == 0 then [] else Round(lists, r, n - 1) + if r < |lists[n - 1]| then [lists[n - 1][r]] else []
  }

  /** The first `r` rounds. */
  function Rounds(lists: seq<seq<string>>, r: nat): seq<string> {
    if r == 0 then [] else Rounds(lists, r - 1) + Round(lists, r - 1, |lists|)
  }

  function Longest(lists: seq<seq<string>>): nat {
    if lists == [] then 0
    else
      var n := Longest(lists[..|lists| - 1]);
      if n < |lists[|lists| - 1]| then |lists[|lists| - 1]| else n
  }

  /** First occurrences only. */
  function Dedup(s: seq<string>): seq<string> {
    if s == [] then []
    else
      var before := Dedup(s[..|s| - 1]);
      if s[|s| - 1] in before then before else before + [s[|s| - 1]]
  }

  predicate Stalls(lists: seq<seq<string>>, r: nat) {
    Dedup(Rounds(lists, r + 1)) == Dedup(Rounds(lists, r))
  }

  lemma {:induction false} LongestIs(lists: seq<seq<string>>)
    ensures forall k :: 0 <= k < |lists| ==> |lists[k]| <= Longest(lists)
  {
    if lists != [] {
      LongestIs(lists[..|lists| - 1]);
      forall k | 0 <= k < |lists| ensures |lists[k]| <= Longest(lists) {
        if k < |lists| - 1 { assert lists[..|lists| - 1][k] == lists[k]; }
      }
    }
  }

  lemma {:induction false} LateRoundsAreEmpty(lists: seq<seq<string>>, r: nat, n: nat)
    requires n <= |lists| && Longest(lists) <= r
    ensures Round(lists, r, n) == []
  {
    LongestIs(lists);
    if n > 0 { LateRoundsAreEmpty(lists, r, n - 1); }
  }

  /** The first round, from `r` on, that brings nothing new. */
  function StallFrom(lists: seq<seq<string>>, r: nat): nat
    decreases Longest(lists) - r
  {
    if r >= Longest(lists) || Stalls(lists, r) then r else StallFrom(lists, r + 1)
  }

  lemma LastRoundStalls(lists: seq<seq<string>>, r: nat)
    requires Longest(lists) <= r
    ensures Rounds(lists, r + 1) == Rounds(lists, r)
  {
    LateRoundsAreEmpty(lists, r, |lists|);
  }

  lemma {:induction false} StallFromIs(lists: seq<seq<string>>, r: nat)
    requires r <= Longest(lists)
    ensures r <= StallFrom(lists, r) <= Longest(lists)
    ensures Stalls(lists, StallFrom(lists, r))
    ensures forall k :: r <= k < StallFrom(lists, r) ==> !Stalls(lists, k)
    decreases Longest(lists) - r
  {
    hide Longest, Rounds, Dedup;
    if r == Longest(lists) {
      LastRoundStalls(lists, r);
    } else if !Stalls(lists, r) {
      StallFromIs(lists, r + 1);
    }
  }

  function Stall(lists: seq<seq<string>>): nat {
    StallFrom(lists, 0)
  }

  /** The stalled round is the first one that brings nothing new. */
  lemma StallIs(lists: seq<seq<string>>, r: nat)
    requires Stalls(lists, r) && forall k :: 0 <= k < r ==> !Stalls(lists, k)
    ensures Stall(lists) == r
  {
    hide Stalls, StallFrom;
    StallFromIs(lists, 0);
  }

  function Take(s: seq<string>, n: nat): seq<string> {
    if |s| <= n then s else s[..n]
  }

  /** What the selection returns, duplicates or not: rounds until one brings nothing new, cut to `max`. */
  function Selected(refs: seq<string>, max: nat): seq<string> {
    var lists := Lists(refs);
    Take(Dedup(Rounds(lists, Stall(lists))), max)
  }

  // ---- The loops ----

  /** byProvider: the refs grouped in insertion order, as a list of keys and a table. */
  method GroupByProvider(refs: seq<string>) returns (providers: seq<string>, byProvider: map<string, seq<string>>)
    ensures providers == Providers(refs)
    ensures forall p :: p in byProvider <==> p in providers
    ensures forall p :: p in byProvider ==> byProvider[p] == Picks(refs, p)
  {
    providers, byProvider := [], map[];
    for i := 0 to |refs|
      invariant providers == Providers(refs[..i])
      invariant forall p :: p in byProvider <==> p in providers
      invariant forall p :: (if p in byProvider then byProvider[p] else []) == Picks(refs[..i], p)
    {
      assert refs[..i + 1][..i] == refs[..i];
      var ref := refs[i];
      var prov := Provider(ref);
      hide Provider;
      if prov !in byProvider {
        providers := providers + [prov];
        byProvider := byProvider[prov := []];
      }
      byProvider := byProvider[prov := byProvider[prov] + [ref]];
    }
    assert refs[..|refs|] == refs;
  }

  /** The refs seen before provider `n` of round `r` gets its turn. */
  function Turns(lists: seq<seq<string>>, r: nat, n: nat): seq<string>
    requires n <= |lists|
  {
    Rounds(lists, r) + Round(lists, r, n)
  }

  lemma NextTurn(lists: seq<seq<string>>, r: nat, n: nat)
    requires n < |lists|
    ensures Turns(lists, r, n + 1) == if r < |lists[n]| then Turns(lists, r, n) + [lists[n][r]] else Turns(lists, r, n)
    ensures Dedup(Turns(lists, r, n + 1)) ==
            if r < |lists[n]| && lists[n][r] !in Dedup(Turns(lists, r, n))
            then Dedup(Turns(lists, r, n)) + [lists[n][r]] else Dedup(Turns(lists, r, n))
  {
  }

  lemma RoundEnds(lists: seq<seq<string>>, r: nat)
    ensures Turns(lists, r, |lists|) == Rounds(lists, r + 1)
    ensures Turns(lists, r, 0) == Rounds(lists, r)
  {
  }

  lemma {:induction false} DedupPrefix(a: seq<string>, b: seq<string>)
    ensures Dedup(a) <= Dedup(a + b)
  {
    if b == [] {
      assert a + b == a;
    } else {
      assert (a + b)[..|a + b| - 1] == a + b[..|b| - 1];
      DedupPrefix(a, b[..|b| - 1]);
    }
  }

  lemma {:induction false} TurnsPrefix(lists: seq<seq<string>>, r: nat, n: nat, m: nat)
    requires n <= m <= |lists|
    ensures Turns(lists, r, n) <= Turns(lists, r, m)
    decreases m - n
  {
    hide Dedup, Turns;
    if n < m {
      TurnsPrefix(lists, r, n, m - 1);
      NextTurn(lists, r, m - 1);
    }
  }

  lemma {:induction false} RoundsPrefix(lists: seq<seq<string>>, r: nat, q: nat)
    requires r <= q
    ensures Rounds(lists, r) <= Rounds(lists, q)
    decreases q - r
  {
    if r < q { RoundsPrefix(lists, r, q - 1); }
  }

  /** Stopping inside a round that is not past the stall, with `max` refs, gives the selection. */
  lemma FullInRound(lists: seq<seq<string>>, r: nat, n: nat, max: nat)
    requires n <= |lists| && (r < Stall(lists) || (n == 0 && r == Stall(lists)))
    requires |Dedup(Turns(lists, r, n))| == max
    ensures Dedup(Turns(lists, r, n)) == Take(Dedup(Rounds(lists, Stall(lists))), max)
  {
    hide Dedup, Stall, Rounds, Round, Turns;
    RoundEnds(lists, r);
    TurnsPrefix(lists, r, n, |lists|);
    if r < Stall(lists) { RoundsPrefix(lists, r + 1, Stall(lists)); }
    var part, whole := Turns(lists, r, n), Rounds(lists, Stall(lists));
    assert part <= whole;
    assert whole == part + whole[|part|..];
    DedupPrefix(part, whole[|part|..]);
  }

  lemma {:induction false} DedupIs(s: seq<string>)
    ensures Distinct(Dedup(s)) && forall x :: x in Dedup(s) <==> x in s
  {
    if s != [] { DedupIs(s[..|s| - 1]); }
  }

  function IndexOf(idx: map<string, nat>, provider: string): nat {
    if provider in idx then idx[provider] else 0
  }

  /** Every provider has had `r` turns, the first `n` one more; an exhausted list stops counting. */
  ghost predicate TurnsTaken(lists: seq<seq<string>>, providers: seq<string>, idx: map<string, nat>, r: nat, n: nat) {
    && |providers| == |lists|
    && (forall k :: 0 <= k < |lists| ==>
          var turns := if k < n then r + 1 else r;
          IndexOf(idx, providers[k]) == if turns <= |lists[k]| then turns else |lists[k]|)
  }

  lemma TurnTaken(lists: seq<seq<string>>, providers: seq<string>, idx: map<string, nat>, r: nat, n: nat)
    requires TurnsTaken(lists, providers, idx, r, n) && n < |lists| && Distinct(providers)
    ensures IndexOf(idx, providers[n]) == if r <= |lists[n]| then r else |lists[n]|
    ensures r >= |lists[n]| ==> TurnsTaken(lists, providers, idx, r, n + 1)
    ensures r < |lists[n]| ==> TurnsTaken(lists, providers, idx[providers[n] := r + 1], r, n + 1)
  {
  }

  lemma RoundTaken(lists: seq<seq<string>>, providers: seq<string>, idx: map<string, nat>, r: nat)
    requires TurnsTaken(lists, providers, idx, r, |lists|)
    ensures TurnsTaken(lists, providers, idx, r + 1, 0)
  {
  }

  ghost predicate NoStallBefore(lists: seq<seq<string>>, r: nat) {
    forall k :: 0 <= k < r ==> !Stalls(lists, k)
  }

  lemma StallIsLater(lists: seq<seq<string>>, r: nat)
    requires NoStallBefore(lists, r)
    ensures r <= Stall(lists)
    ensures !Stalls(lists, r) ==> r < Stall(lists)
  {
    hide Stalls, StallFrom;
    StallFromIs(lists, 0);
  }

  lemma ProgressIsNoStall(lists: seq<seq<string>>, r: nat, n: nat)
    requires n <= |lists| && |Dedup(Turns(lists, r, n))| > |Dedup(Rounds(lists, r))|
    ensures !Stalls(lists, r)
  {
    hide Dedup, Rounds, Round, Turns;
    RoundEnds(lists, r);
    TurnsPrefix(lists, r, n, |lists|);
    var part, whole := Turns(lists, r, n), Rounds(lists, r + 1);
    assert whole == part + whole[|part|..];
    DedupPrefix(part, whole[|part|..]);
  }

  lemma NothingSeen()
    ensures ToSet<string>([]) == {}
  {
  }

  lemma SeenNext(s: seq<string>, ref: string)
    ensures ref in ToSet(s) <==> ref in s
    ensures ToSet(s + [ref]) == ToSet(s) + {ref}
  {
  }

  method RoundRobin(refs: seq<string>, maxCandidates: nat) returns (result: seq<string>)
    ensures result == Selected(refs, maxCandidates)
  {
    hide Providers, Picks, Dedup, Rounds, Round, Turns, Stalls, Stall, Provider, TurnsTaken, IndexOf, ToSet;
    var providers, byProvider := GroupByProvider(refs);
    ghost var lists := Lists(refs);
    ProvidersAre(refs);
    result := [];
    var seen: set<string> := {};
    var idx: map<string, nat> := map[];
    var madeProgress := true;
    ghost var r, done := 0, false;
    Start(lists, providers);
    NothingSeen();
    while |result| < maxCandidates && madeProgress
      invariant |result| <= maxCandidates
      invariant seen == ToSet(result)
      invariant done ==> result == Take(Dedup(Rounds(lists, Stall(lists))), maxCandidates)
      invariant !done ==> madeProgress && result == Dedup(Rounds(lists, r)) && NoStallBefore(lists, r)
      invariant !done ==> TurnsTaken(lists, providers, idx, r, 0)
      invariant done ==> |result| == maxCandidates || !madeProgress
      decreases maxCandidates - |result|, madeProgress
    {
      madeProgress := false;
      RoundEnds(lists, r);
      ghost var before := result;
      var n := 0;
      while n < |providers|
        invariant n <= |providers|
        invariant result == Dedup(Turns(lists, r, n)) && |before| <= |result| <= maxCandidates
        invariant madeProgress <==> |before| < |result|
        invariant !madeProgress ==> result == before
        invariant seen == ToSet(result)
        invariant TurnsTaken(lists, providers, idx, r, n)
      {
        if |result| >= maxCandidates { break; }
        var prov := providers[n];
        var picks := byProvider[prov];
        assert lists[n] == picks;
        var i := IndexOf(idx, prov);
        TurnTaken(lists, providers, idx, r, n);
        NextTurn(lists, r, n);
        n := n + 1;
        if i >= |picks| { continue; }
        idx := idx[prov := i + 1];
        var ref := picks[i];
        SeenNext(result, ref);
        if ref in seen { continue; }
        seen := seen + {ref};
        result := result + [ref];
        madeProgress := true;
      }
      if madeProgress {
        ProgressIsNoStall(lists, r, n);
        StallIsLater(lists, r);
        if n == |providers| {
          RoundEnds(lists, r);
          RoundTaken(lists, providers, idx, r);
          r := r + 1;
        } else {
          FullInRound(lists, r, n, maxCandidates);
          done := true;
        }
      } else {
        RoundEnds(lists, r);
        Stalled(lists, r);
        done := true;
      }
    }
    if !done {
      StallIsLater(lists, r);
      RoundEnds(lists, r);
      FullInRound(lists, r, 0, maxCandidates);
    }
  }

  lemma Start(lists: seq<seq<string>>, providers: seq<string>)
    requires |lists| == |providers|
    ensures Dedup(Rounds(lists, 0)) == [] && TurnsTaken(lists, providers, map[], 0, 0)
  {
  }

  lemma Stalled(lists: seq<seq<string>>, r: nat)
    requires NoStallBefore(lists, r) && Dedup(Rounds(lists, r + 1)) == Dedup(Rounds(lists, r))
    ensures Stall(lists) == r
  {
    StallIs(lists, r);
  }

  method SelectClassifierCandidates(models: seq<Model>, l: Limits, maxCandidates: nat) returns (result: seq<string>)
    ensures result == Selected(Ranked(models, l), maxCandidates)
  {
    hide TierOf, Score, Selected;
    var tierA: seq<Scored>, tierB: seq<Scored>, tierC: seq<Scored> := [], [], [];
    for i := 0 to |models|
      invariant tierA == InTier(models[..i], TierA, l)
      invariant tierB == InTier(models[..i], TierB, l)
      invariant tierC == InTier(models[..i], TierC, l)
    {
      assert models[..i + 1][..i] == models[..i];
      var m := models[i];
      match TierOf(m, l) {
        case TierA => tierA := tierA + [Score(m)];
        case TierB => tierB := tierB + [Score(m)];
        case TierC => tierC := tierC + [Score(m)];
        case Excluded =>
      }
    }
    assert models[..|models|] == models;
    tierA := StableSort(tierA, CheaperThenSimpler);
    tierB := StableSort(tierB, Cheaper);
    result := RoundRobin(RefsOf(tierA) + RefsOf(tierB) + RefsOf(tierC), maxCandidates);
  }

  // ---- A full round-robin is a fair permutation of the ranked refs ----

  lemma {:induction false} PicksSum(a: seq<string>, b: seq<string>, p: string)
    ensures Picks(a + b, p) == Picks(a, p) + Picks(b, p)
  {
    if b == [] {
      assert a + b == a;
    } else {
      assert (a + b)[..|a + b| - 1] == a + b[..|b| - 1];
      PicksSum(a, b[..|b| - 1], p);
    }
  }

  lemma {:induction false} PicksCount(s: seq<string>, p: string, x: string)
    ensures multiset(Picks(s, p))[x] == if Provider(x) == p then multiset(s)[x] else 0
  {
    if s != [] {
      hide Provider;
      var before, ref := s[..|s| - 1], s[|s| - 1];
      PicksCount(before, p, x);
      assert s == before + [ref];
      assert Picks(s, p) == Picks(before, p) + if Provider(ref) == p then [ref] else [];
      hide Picks;
    }
  }

  /** The lists are the picks of distinct providers. */
  ghost predicate Grouped(lists: seq<seq<string>>, providers: seq<string>) {
    && |lists| == |providers| && Distinct(providers)
    && (forall k, i :: 0 <= k < |lists| && 0 <= i < |lists[k]| ==> Provider(lists[k][i]) == providers[k])
  }

  lemma {:induction false} PicksProvider(s: seq<string>, p: string)
    ensures forall i :: 0 <= i < |Picks(s, p)| ==> Provider(Picks(s, p)[i]) == p
  {
    if s != [] { PicksProvider(s[..|s| - 1], p); }
  }

  lemma ListsAreGrouped(refs: seq<string>)
    ensures Grouped(Lists(refs), Providers(refs))
  {
    hide Provider, Providers, Picks;
    ProvidersAre(refs);
    forall k | 0 <= k < |Providers(refs)|
      ensures forall i :: 0 <= i < |Lists(refs)[k]| ==> Provider(Lists(refs)[k][i]) == Providers(refs)[k]
    {
      PicksProvider(refs, Providers(refs)[k]);
    }
  }

  lemma {:induction false} PicksOfRound(lists: seq<seq<string>>, providers: seq<string>, r: nat, n: nat, q: nat)
    requires Grouped(lists, providers) && n <= |lists| && q < |lists|
    ensures Picks(Round(lists, r, n), providers[q]) == if q < n && r < |lists[q]| then [lists[q][r]] else []
  {
    hide Picks, Provider;
    if n > 0 {
      PicksOfRound(lists, providers, r, n - 1, q);
      PicksOfTurn(lists, providers, r, n - 1, q);
      PicksSum(Round(lists, r, n - 1), if r < |lists[n - 1]| then [lists[n - 1][r]] else [], providers[q]);
    } else {
      NoPicks(providers[q]);
    }
  }

  lemma NoPicks(p: string)
    ensures Picks([], p) == []
  {
  }

  lemma PicksOfTurn(lists: seq<seq<string>>, providers: seq<string>, r: nat, n: nat, q: nat)
    requires Grouped(lists, providers) && n < |lists| && q < |lists|
    ensures var turn := if r < |lists[n]| then [lists[n][r]] else [];
            Picks(turn, providers[q]) == if q == n then turn else []
  {
    hide Provider;
    assert q != n ==> providers[q] != providers[n];
    if r < |lists[n]| { assert [lists[n][r]][..0] == []; }
  }

  function Upto(s: seq<string>, n: nat): seq<string> {
    if n <= |s| then s[..n] else s
  }

  lemma UptoNext(s: seq<string>, r: nat)
    ensures Upto(s, r + 1) == Upto(s, r) + if r < |s| then [s[r]] else []
  {
  }

  /** After `r` rounds each provider has given the first `r` refs of its list. */
  lemma {:induction false} PicksOfRounds(lists: seq<seq<string>>, providers: seq<string>, r: nat, q: nat)
    requires Grouped(lists, providers) && q < |lists|
    ensures Picks(Rounds(lists, r), providers[q]) == Upto(lists[q], r)
    decreases r, 0
  {
    if r > 0 {
      PicksOfTurns(lists, providers, r - 1, |lists|, q);
      hide Picks;
      assert Turns(lists, r - 1, |lists|) == Rounds(lists, r);
    }
  }

  lemma {:induction false} PicksOfTurns(lists: seq<seq<string>>, providers: seq<string>, r: nat, n: nat, q: nat)
    requires Grouped(lists, providers) && n <= |lists| && q < |lists|
    ensures Picks(Turns(lists, r, n), providers[q]) == Upto(lists[q], if q < n then r + 1 else r)
    decreases r, 1
  {
    assert |lists| == |providers|;
    hide Provider, Round, Rounds, Picks, Grouped, Upto;
    PicksOfRounds(lists, providers, r, q);
    PicksOfRound(lists, providers, r, n, q);
    PicksSum(Rounds(lists, r), Round(lists, r, n), providers[q]);
    UptoNext(lists[q], r);
    assert Upto(lists[q], r) + [] == Upto(lists[q], r);
  }

  /** Every prefix of the rounds ends between two turns. */
  lemma {:induction false} PrefixIsTurns(lists: seq<seq<string>>, q: nat, k: nat) returns (r: nat, n: nat)
    requires k <= |Rounds(lists, q)|
    ensures n <= |lists| && Rounds(lists, q)[..k] == Turns(lists, r, n)
  {
    if k == 0 || q == 0 {
      r, n := 0, 0;
    } else if k <= |Rounds(lists, q - 1)| {
      r, n := PrefixIsTurns(lists, q - 1, k);
      hide Turns;
      assert Rounds(lists, q)[..k] == Rounds(lists, q - 1)[..k];
    } else {
      r := q - 1;
      n := PrefixOfRound(lists, r, |lists|, k - |Rounds(lists, r)|);
      hide Round;
      assert Rounds(lists, q)[..k] == Rounds(lists, r) + Round(lists, r, |lists|)[..k - |Rounds(lists, r)|];
    }
  }

  lemma {:induction false} PrefixOfRound(lists: seq<seq<string>>, r: nat, m: nat, k: nat) returns (n: nat)
    requires m <= |lists| && k <= |Round(lists, r, m)|
    ensures n <= m && Round(lists, r, m)[..k] == Round(lists, r, n)
  {
    if k == |Round(lists, r, m)| {
      n := m;
    } else {
      n := PrefixOfRound(lists, r, m - 1, k);
    }
  }

  lemma Foreign(refs: seq<string>, x: string)
    requires Provider(x) !in Providers(refs)
    ensures x !in refs
  {
  }

  /** All rounds together are the ranked refs, rearranged. */
  lemma RoundsPermute(refs: seq<string>)
    ensures multiset(Rounds(Lists(refs), Longest(Lists(refs)))) == multiset(refs)
  {
    hide Provider, Rounds, Longest, Picks, Providers;
    var lists, providers := Lists(refs), Providers(refs);
    var all := Rounds(lists, Longest(lists));
    ListsAreGrouped(refs);
    LongestIs(lists);
    ProvidersAre(refs);
    RoundsOfProviders(lists, providers, Longest(lists));
    forall x ensures multiset(all)[x] == multiset(refs)[x] {
      var p := Provider(x);
      PicksCount(all, p, x);
      PicksCount(refs, p, x);
      if p in providers {
        var q :| 0 <= q < |providers| && providers[q] == p;
        PicksOfRounds(lists, providers, Longest(lists), q);
        assert Upto(lists[q], Longest(lists)) == Picks(refs, p);
      } else {
        Foreign(refs, x);
        assert x !in all;
      }
    }
  }

  lemma {:induction false} RoundOfProviders(lists: seq<seq<string>>, providers: seq<string>, r: nat, n: nat)
    requires Grouped(lists, providers) && n <= |lists|
    ensures forall x :: x in Round(lists, r, n) ==> Provider(x) in providers
  {
    if n > 0 { RoundOfProviders(lists, providers, r, n - 1); }
  }

  lemma {:induction false} RoundsOfProviders(lists: seq<seq<string>>, providers: seq<string>, r: nat)
    requires Grouped(lists, providers)
    ensures forall x :: x in Rounds(lists, r) ==> Provider(x) in providers
  {
    if r > 0 {
      RoundsOfProviders(lists, providers, r - 1);
      RoundOfProviders(lists, providers, r - 1, |lists|);
    }
  }

  // ---- Duplicate-free input ----

  lemma DistinctByMultiset(a: seq<string>, b: seq<string>)
    requires multiset(a) == multiset(b) && Distinct(a)
    ensures Distinct(b) && |a| == |b|
  {
    SameElements(a, b);
    DistinctCard(a);
    DistinctCard(b);
    assert ToSet(a) == ToSet(b);
  }

  lemma {:induction false} DedupOfDistinct(s: seq<string>)
    requires Distinct(s)
    ensures Dedup(s) == s
  {
    if s != [] { DedupOfDistinct(s[..|s| - 1]); }
  }

  lemma {:induction false} QuietFromThenOn(lists: seq<seq<string>>, r: nat, q: nat)
    requires r <= q && Rounds(lists, r + 1) == Rounds(lists, r)
    ensures Rounds(lists, q) == Rounds(lists, r)
    decreases q - r
  {
    hide Round;
    if r < q {
      QuietFromThenOn(lists, r, q - 1);
      EmptyRound(lists, r);
      RoundShrinks(lists, r, |lists|, q - 1);
      hide Round;
      assert Rounds(lists, q) == Rounds(lists, q - 1) + [];
    }
  }

  lemma EmptyRound(lists: seq<seq<string>>, r: nat)
    requires Rounds(lists, r + 1) == Rounds(lists, r)
    ensures Round(lists, r, |lists|) == []
  {
  }

  /** A round nobody takes part in stays empty. */
  lemma {:induction false} RoundShrinks(lists: seq<seq<string>>, r: nat, n: nat, q: nat)
    requires n <= |lists| && r <= q && Round(lists, r, n) == []
    ensures Round(lists, q, n) == []
  {
    if n > 0 { RoundShrinks(lists, r, n - 1, q); }
  }

  /** Without duplicates nothing is skipped: the selection is the first refs of the full round-robin. */
  lemma SelectedIsRounds(refs: seq<string>, max: nat)
    requires Distinct(refs)
    ensures var all := Rounds(Lists(refs), Longest(Lists(refs)));
            Distinct(all) && |all| == |refs| && Selected(refs, max) == Take(all, max)
  {
    hide Rounds, Longest, Dedup, Lists, StallFrom;
    var lists := Lists(refs);
    var all, end := Rounds(lists, Longest(lists)), Stall(lists);
    RoundsPermute(refs);
    DistinctByMultiset(refs, all);
    StallFromIs(lists, 0);
    RoundsPrefix(lists, end, Longest(lists));
    DedupOfDistinct(Rounds(lists, end));
    if end < Longest(lists) {
      RoundsPrefix(lists, end + 1, Longest(lists));
      DedupOfDistinct(Rounds(lists, end + 1));
      QuietFromThenOn(lists, end, Longest(lists));
    }
  }

  /** min(max, total) distinct refs, all of them ranked. */
  lemma SelectionIsComplete(refs: seq<string>, max: nat)
    requires Distinct(refs)
    ensures |Selected(refs, max)| == if max <= |refs| then max else |refs|
    ensures Distinct(Selected(refs, max)) && forall x :: x in Selected(refs, max) ==> x in refs
  {
    hide Rounds, Longest, Lists, Selected;
    SelectedIsRounds(refs, max);
    RoundsPermute(refs);
    SameElements(Rounds(Lists(refs), Longest(Lists(refs))), refs);
  }

  /**
   * At every point of the selection each provider has contributed a prefix of its own list, and a provider with refs
   * left is never more than one pick behind another.
   */
  lemma SelectionIsFair(refs: seq<string>, max: nat, k: nat, p: string, q: string)
    requires Distinct(refs) && k <= |Selected(refs, max)| && p in Providers(refs) && q in Providers(refs)
    ensures var part := Selected(refs, max)[..k];
            && Picks(part, p) <= Picks(refs, p)
            && (|Picks(part, p)| < |Picks(refs, p)| ==> |Picks(part, q)| <= |Picks(part, p)| + 1)
  {
    hide Rounds, Longest, Selected, Picks, Providers, Turns;
    var lists, providers := Lists(refs), Providers(refs);
    var all := Rounds(lists, Longest(lists));
    SelectedIsRounds(refs, max);
    ListsAreGrouped(refs);
    assert Selected(refs, max)[..k] == all[..k];
    var r, n := PrefixIsTurns(lists, Longest(lists), k);
    var i :| 0 <= i < |providers| && providers[i] == p;
    var j :| 0 <= j < |providers| && providers[j] == q;
    PicksOfTurns(lists, providers, r, n, i);
    PicksOfTurns(lists, providers, r, n, j);
  }

  // ---- Any input, duplicates included ----

  lemma DedupGrows(lists: seq<seq<string>>, r: nat, q: nat)
    requires r <= q
    ensures Dedup(Rounds(lists, r)) <= Dedup(Rounds(lists, q))
  {
    hide Dedup, Rounds;
    RoundsPrefix(lists, r, q);
    var a, b := Rounds(lists, r), Rounds(lists, q);
    assert b == a + b[|a|..];
    DedupPrefix(a, b[|a|..]);
  }

  lemma {:induction false} StalledThroughout(lists: seq<seq<string>>, r: nat, q: nat)
    requires r <= q && forall k :: r <= k < q ==> Stalls(lists, k)
    ensures Dedup(Rounds(lists, q)) == Dedup(Rounds(lists, r))
    decreases q - r
  {
    hide Dedup, Rounds;
    if r < q {
      StalledThroughout(lists, r, q - 1);
      assert Stalls(lists, q - 1);
    }
  }

  lemma StallsIffNoLonger(lists: seq<seq<string>>, r: nat)
    ensures |Dedup(Rounds(lists, r))| <= |Dedup(Rounds(lists, r + 1))|
    ensures Stalls(lists, r) <==> |Dedup(Rounds(lists, r + 1))| == |Dedup(Rounds(lists, r))|
  {
    hide Dedup, Rounds;
    DedupGrows(lists, r, r + 1);
  }

  /** Nothing new comes after round `r` exactly when every later round brings nothing new. */
  lemma NothingNewIff(lists: seq<seq<string>>, r: nat, q: nat)
    requires r <= q
    ensures |Dedup(Rounds(lists, q))| == |Dedup(Rounds(lists, r))| <==> forall k :: r <= k < q ==> Stalls(lists, k)
  {
    hide Dedup, Rounds, Stalls;
    if forall k :: r <= k < q ==> Stalls(lists, k) {
      StalledThroughout(lists, r, q);
    } else {
      var k :| r <= k < q && !Stalls(lists, k);
      DedupGrows(lists, r, k);
      StallsIffNoLonger(lists, k);
      DedupGrows(lists, k + 1, q);
    }
  }

  /** All rounds together reach every ref once. */
  lemma AllRoundsReachAll(refs: seq<string>)
    ensures |Dedup(Rounds(Lists(refs), Longest(Lists(refs))))| == |ToSet(refs)|
  {
    hide Dedup, Rounds, Longest, Lists;
    var all := Rounds(Lists(refs), Longest(Lists(refs)));
    RoundsPermute(refs);
    SameElements(all, refs);
    DedupIs(all);
    DistinctCard(Dedup(all));
    assert ToSet(Dedup(all)) == ToSet(refs);
  }

  /** Place `r` of every list that long repeats an earlier place of the same list. */
  predicate Repeats(lists: seq<seq<string>>, r: nat) {
    forall k :: 0 <= k < |lists| && r < |lists[k]| ==> lists[k][r] in lists[k][..r]
  }

  /** The refs at the first `r` places of the lists. */
  ghost function Heads(lists: seq<seq<string>>, r: nat): set<string> {
    set k, i | 0 <= k < |lists| && 0 <= i < |lists[k]| && i < r :: lists[k][i]
  }

  /** One of the first `n` lists has `x` at place `r`. */
  ghost predicate AtPlace(lists: seq<seq<string>>, r: nat, n: nat, x: string)
    requires n <= |lists|
  {
    exists k :: 0 <= k < n && r < |lists[k]| && lists[k][r] == x
  }

  lemma {:induction false} RoundHolds(lists: seq<seq<string>>, r: nat, n: nat, x: string)
    requires n <= |lists|
    ensures x in Round(lists, r, n) <==> AtPlace(lists, r, n, x)
  {
    if n > 0 { RoundHolds(lists, r, n - 1, x); }
  }

  lemma {:induction false} RoundsHold(lists: seq<seq<string>>, r: nat, x: string)
    ensures x in Rounds(lists, r) <==> x in Heads(lists, r)
  {
    hide Round, Heads, AtPlace;
    if r > 0 {
      RoundsHold(lists, r - 1, x);
      RoundHolds(lists, r - 1, |lists|, x);
      HeadsNext(lists, r - 1, x);
    } else {
      NoHeads(lists);
    }
  }

  lemma HeadsNext(lists: seq<seq<string>>, r: nat, x: string)
    ensures x in Heads(lists, r + 1) <==> x in Heads(lists, r) || AtPlace(lists, r, |lists|, x)
  {
    if x in Heads(lists, r + 1) {
      var k, i :| 0 <= k < |lists| && 0 <= i < |lists[k]| && i < r + 1 && lists[k][i] == x;
      assert i < r || r < |lists[k]|;
    }
  }

  lemma NoHeads(lists: seq<seq<string>>)
    ensures Heads(lists, 0) == {}
  {
  }

  lemma DedupCount(lists: seq<seq<string>>, r: nat)
    ensures |Dedup(Rounds(lists, r))| == |Heads(lists, r)|
  {
    var s := Rounds(lists, r);
    DedupIs(s);
    DistinctCard(Dedup(s));
    forall x ensures x in s <==> x in Heads(lists, r) { RoundsHold(lists, r, x); }
    assert ToSet(Dedup(s)) == Heads(lists, r);
  }

  /** Providers share no ref, so that a list only repeats itself. */
  lemma OwnPlaces(lists: seq<seq<string>>, providers: seq<string>, r: nat, k: nat)
    requires Grouped(lists, providers) && k < |lists| && r < |lists[k]|
    ensures lists[k][r] in Rounds(lists, r) <==> lists[k][r] in lists[k][..r]
  {
    var x := lists[k][r];
    assert Provider(x) == providers[k];
    PicksOfRounds(lists, providers, r, k);
    PicksCount(Rounds(lists, r), providers[k], x);
    assert multiset(lists[k][..r])[x] == multiset(Rounds(lists, r))[x];
  }

  /** A round brings nothing new exactly when each list repeats itself there. */
  lemma StallsIff(refs: seq<string>, r: nat)
    ensures Stalls(Lists(refs), r) <==> Repeats(Lists(refs), r)
  {
    hide Lists, Grouped, Rounds, Round, Stalls;
    var lists := Lists(refs);
    ListsAreGrouped(refs);
    StallsIffNothingNew(lists, r);
    forall x ensures x in Round(lists, r, |lists|) <==> AtPlace(lists, r, |lists|, x) {
      RoundHolds(lists, r, |lists|, x);
    }
    forall k | 0 <= k < |lists| && r < |lists[k]|
      ensures lists[k][r] in Rounds(lists, r) <==> lists[k][r] in lists[k][..r]
    {
      OwnPlaces(lists, Providers(refs), r, k);
    }
    if Stalls(lists, r) {
      forall k | 0 <= k < |lists| && r < |lists[k]| ensures lists[k][r] in lists[k][..r] {
        assert AtPlace(lists, r, |lists|, lists[k][r]);
        assert lists[k][r] in Round(lists, r, |lists|);
      }
    } else {
      var x :| x in Round(lists, r, |lists|) && x !in Rounds(lists, r);
      var k :| 0 <= k < |lists| && r < |lists[k]| && lists[k][r] == x;
      assert lists[k][r] !in lists[k][..r];
    }
  }

  lemma StallsIffNothingNew(lists: seq<seq<string>>, r: nat)
    ensures Stalls(lists, r) <==> forall x :: x in Round(lists, r, |lists|) ==> x in Rounds(lists, r)
  {
    hide Dedup, Round;
    var before, more := Rounds(lists, r), Round(lists, r, |lists|);
    assert Rounds(lists, r + 1) == before + more;
    DedupIs(before);
    DedupIs(before + more);
    if forall x :: x in more ==> x in before {
      NothingAdded(before, more);
    } else {
      var x :| x in more && x !in before;
      assert x in before + more;
    }
  }

  lemma {:induction false} NothingAdded(a: seq<string>, b: seq<string>)
    requires forall x :: x in b ==> x in a
    ensures Dedup(a + b) == Dedup(a)
  {
    if b == [] {
      assert a + b == a;
    } else {
      var n := |b| - 1;
      assert (a + b)[..|a + b| - 1] == a + b[..n];
      assert b[n] in a;
      NothingAdded(a, b[..n]);
      DedupIs(a);
    }
  }

  /**
   * For every input the loop stops at the first place where each list repeats itself; as many refs as there are, up to
   * the maximum, come back exactly when the places before it already hold the maximum, or every later place is a
   * repeat.
   */
  lemma SelectionIsCompleteIff(refs: seq<string>, max: nat)
    ensures var lists := Lists(refs);
            var r := Stall(lists);
            && Repeats(lists, r) && (forall q :: 0 <= q < r ==> !Repeats(lists, q))
            && (|Selected(refs, max)| == (if max <= |ToSet(refs)| then max else |ToSet(refs)|) <==>
                max <= |Heads(lists, r)| || forall q :: r <= q < Longest(lists) ==> Repeats(lists, q))
  {
    var lists := Lists(refs);
    hide Dedup, Rounds, Longest, Lists, StallFrom, Stalls, Heads, Repeats;
    StallFromIs(lists, 0);
    AllRoundsReachAll(refs);
    DedupGrows(lists, Stall(lists), Longest(lists));
    NothingNewIff(lists, Stall(lists), Longest(lists));
    DedupCount(lists, Stall(lists));
    forall q: nat ensures Stalls(lists, q) <==> Repeats(lists, q) { StallsIff(refs, q); }
  }

  // ---- The ranked refs ----

  function AllRefs(models: seq<Model>): seq<string> {
    if models == [] then [] else AllRefs(models[..|models| - 1]) + [models[|models| - 1].ref]
  }

  lemma {:induction false} RefsOfInserted(s: seq<Scored>, x: Scored, leq: (Scored, Scored) -> bool)
    ensures multiset(RefsOf(Insert(s, x, leq))) == multiset(RefsOf(s)) + multiset{x.ref}
  {
    if s == [] || leq(s[|s| - 1], x) {
      assert (s + [x])[..|s|] == s;
    } else {
      RefsOfInserted(s[..|s| - 1], x, leq);
      var before := Insert(s[..|s| - 1], x, leq);
      assert (before + [s[|s| - 1]])[..|before|] == before;
    }
  }

  lemma {:induction false} RefsOfSorted(s: seq<Scored>, leq: (Scored, Scored) -> bool)
    ensures multiset(RefsOf(StableSort(s, leq))) == multiset(RefsOf(s))
  {
    if s != [] {
      RefsOfSorted(s[..|s| - 1], leq);
      RefsOfInserted(StableSort(s[..|s| - 1], leq), s[|s| - 1], leq);
    }
  }

  /** The refs of one tier, in catalogue order. */
  function TierRefs(models: seq<Model>, tier: Tier, l: Limits): seq<string> {
    RefsOf(InTier(models, tier, l))
  }

  lemma TierNext(models: seq<Model>, m: Model, tier: Tier, l: Limits)
    ensures TierRefs(models + [m], tier, l) == TierRefs(models, tier, l) + if TierOf(m, l) == tier then [m.ref] else []
  {
    hide TierOf;
    assert (models + [m])[..|models|] == models;
    var before := InTier(models, tier, l);
    assert (before + [Score(m)])[..|before|] == before;
    assert before + [] == before;
  }

  function Count(s: seq<string>, x: string): nat {
    multiset(s)[x]
  }

  lemma CountNext(s: seq<string>, m: string, x: string, there: bool)
    ensures Count(s + if there then [m] else [], x) == Count(s, x) + if there && m == x then 1 else 0
  {
  }

  lemma {:induction false} TierCount(models: seq<Model>, l: Limits, x: string)
    ensures Count(TierRefs(models, TierA, l), x) + Count(TierRefs(models, TierB, l), x)
            + Count(TierRefs(models, TierC, l), x) + Count(TierRefs(models, Excluded, l), x)
            == Count(AllRefs(models), x)
  {
    if models != [] {
      var m, before := models[|models| - 1], models[..|models| - 1];
      assert models == before + [m];
      TierCount(before, l, x);
      TierCountNext(before, m, l, TierA, x);
      TierCountNext(before, m, l, TierB, x);
      TierCountNext(before, m, l, TierC, x);
      TierCountNext(before, m, l, Excluded, x);
      CountNext(AllRefs(before), m.ref, x, true);
      hide Count, TierRefs, TierOf;
    }
  }

  lemma TierCountNext(models: seq<Model>, m: Model, l: Limits, tier: Tier, x: string)
    ensures Count(TierRefs(models + [m], tier, l), x)
            == Count(TierRefs(models, tier, l), x) + if TierOf(m, l) == tier && m.ref == x then 1 else 0
  {
    hide TierOf, Count, TierRefs;
    TierNext(models, m, tier, l);
    CountNext(TierRefs(models, tier, l), m.ref, x, TierOf(m, l) == tier);
  }

  /** Every model lands in exactly one tier. */
  lemma TiersPartition(models: seq<Model>, l: Limits)
    ensures multiset(TierRefs(models, TierA, l)) + multiset(TierRefs(models, TierB, l))
            + multiset(TierRefs(models, TierC, l)) + multiset(TierRefs(models, Excluded, l))
            == multiset(AllRefs(models))
  {
    hide TierRefs, AllRefs;
    var sum := multiset(TierRefs(models, TierA, l)) + multiset(TierRefs(models, TierB, l))
               + multiset(TierRefs(models, TierC, l)) + multiset(TierRefs(models, Excluded, l));
    forall x ensures sum[x] == multiset(AllRefs(models))[x] {
      TierCount(models, l, x);
    }
  }

  /** A catalogue without repeats gives ranked refs without repeats, exactly those of the three tiers. */
  lemma RankedIsDistinct(models: seq<Model>, l: Limits)
    requires Distinct(AllRefs(models))
    ensures Distinct(Ranked(models, l))
    ensures multiset(Ranked(models, l)) + multiset(TierRefs(models, Excluded, l)) == multiset(AllRefs(models))
  {
    hide InTier, Insert, RefsOf, StableSort, AllRefs;
    RefsOfSorted(InTier(models, TierA, l), CheaperThenSimpler);
    RefsOfSorted(InTier(models, TierB, l), Cheaper);
    TiersPartition(models, l);
    var ranked := Ranked(models, l);
    assert multiset(ranked + TierRefs(models, Excluded, l)) == multiset(AllRefs(models));
    DistinctByMultiset(AllRefs(models), ranked + TierRefs(models, Excluded, l));
    forall i, j | 0 <= i < j < |ranked| ensures ranked[i] != ranked[j] {
      assert (ranked + TierRefs(models, Excluded, l))[i] == ranked[i];
      assert (ranked + TierRefs(models, Excluded, l))[j] == ranked[j];
    }
  }

  // ---- The order of the selection ----

  /** The picks of a provider are its refs in their order. */
  lemma {:induction false} PicksAre(refs: seq<string>, provider: string, others: set<string>)
    requires forall ref :: ref in refs ==> (ref in others <==> Provider(ref) != provider)
    ensures Picks(refs, provider) == Without(refs, others)
  {
    if refs != [] {
      hide Provider;
      assert refs[|refs| - 1] in refs;
      PicksAre(refs[..|refs| - 1], provider, others);
    }
  }

  /** A provider comes before another if one of its refs precedes all of the other's. */
  lemma {:induction false} ProvidersInOrder(refs: seq<string>, i: nat, j: nat)
    requires i < j < |Providers(refs)|
    ensures exists k :: 0 <= k < |refs| && Provider(refs[k]) == Providers(refs)[i] &&
              forall m :: 0 <= m <= k ==> Provider(refs[m]) != Providers(refs)[j]
  {
    hide Provider;
    var n := |refs| - 1;
    var before := refs[..n];
    ProvidersAre(before);
    assert refs == before + [refs[n]];
    if j < |Providers(before)| {
      ProvidersInOrder(before, i, j);
      var k :| 0 <= k < |before| && Provider(before[k]) == Providers(before)[i] &&
               forall m :: 0 <= m <= k ==> Provider(before[m]) != Providers(before)[j];
      assert Provider(refs[k]) == Providers(refs)[i];
      forall m | 0 <= m <= k ensures Provider(refs[m]) != Providers(refs)[j] { assert before[m] == refs[m]; }
    } else {
      assert Providers(before)[i] in Providers(before);
      var k :| 0 <= k < |before| && Provider(before[k]) == Providers(before)[i];
      assert Provider(refs[k]) == Providers(refs)[i];
      forall m | 0 <= m <= k ensures Provider(refs[m]) != Providers(refs)[j] { assert before[m] == refs[m]; }
    }
  }

  /** The ref is at place `r` of list `n`. */
  ghost predicate Stands(lists: seq<seq<string>>, ref: string, r: nat, n: nat) {
    n < |lists| && r < |lists[n]| && lists[n][r] == ref
  }

  /** One ref comes at an earlier place of its list than the other, or at the same place of an earlier list. */
  ghost predicate Precedes(lists: seq<seq<string>>, x: string, y: string) {
    exists r: nat, n: nat, q: nat, m: nat ::
      Stands(lists, x, r, n) && Stands(lists, y, q, m) && (r < q || (r == q && n < m))
  }

  lemma {:induction false} RoundPlace(lists: seq<seq<string>>, r: nat, n: nat, i: nat) returns (m: nat)
    requires n <= |lists| && i < |Round(lists, r, n)|
    ensures m < n && Stands(lists, Round(lists, r, n)[i], r, m)
  {
    if i < |Round(lists, r, n - 1)| {
      m := RoundPlace(lists, r, n - 1, i);
    } else {
      m := n - 1;
    }
  }

  lemma {:induction false} RoundInOrder(lists: seq<seq<string>>, r: nat, n: nat, i: nat, j: nat)
    requires n <= |lists| && i < j < |Round(lists, r, n)|
    ensures Precedes(lists, Round(lists, r, n)[i], Round(lists, r, n)[j])
  {
    hide Stands;
    if j < |Round(lists, r, n - 1)| {
      RoundInOrder(lists, r, n - 1, i, j);
    } else {
      var m := RoundPlace(lists, r, n - 1, i);
      assert Stands(lists, Round(lists, r, n)[j], r, n - 1) by { LastInRound(lists, r, n, j); }
    }
  }

  lemma LastInRound(lists: seq<seq<string>>, r: nat, n: nat, j: nat)
    requires n <= |lists| && 0 < n && |Round(lists, r, n - 1)| <= j < |Round(lists, r, n)|
    ensures Stands(lists, Round(lists, r, n)[j], r, n - 1)
  {
  }

  lemma {:induction false} RoundsPlace(lists: seq<seq<string>>, q: nat, i: nat) returns (r: nat, n: nat)
    requires i < |Rounds(lists, q)|
    ensures r < q && Stands(lists, Rounds(lists, q)[i], r, n)
  {
    hide Stands, Round;
    if i < |Rounds(lists, q - 1)| {
      r, n := RoundsPlace(lists, q - 1, i);
    } else {
      r := q - 1;
      n := RoundPlace(lists, r, |lists|, i - |Rounds(lists, q - 1)|);
    }
  }

  /** The rounds go through the places in order, and at each place through the lists in order. */
  lemma {:induction false} RoundsInOrder(lists: seq<seq<string>>, q: nat, i: nat, j: nat)
    requires i < j < |Rounds(lists, q)|
    ensures Precedes(lists, Rounds(lists, q)[i], Rounds(lists, q)[j])
  {
    hide Stands, Round, Precedes;
    var n := |Rounds(lists, q - 1)|;
    if j < n {
      RoundsInOrder(lists, q - 1, i, j);
    } else if i < n {
      var r, m := RoundsPlace(lists, q - 1, i);
      var k := RoundPlace(lists, q - 1, |lists|, j - n);
      PrecedesBy(lists, Rounds(lists, q)[i], Rounds(lists, q)[j], r, m, q - 1, k);
    } else {
      RoundInOrder(lists, q - 1, |lists|, i - n, j - n);
    }
  }

  lemma PrecedesBy(lists: seq<seq<string>>, x: string, y: string, r: nat, n: nat, q: nat, m: nat)
    requires Stands(lists, x, r, n) && Stands(lists, y, q, m) && r < q
    ensures Precedes(lists, x, y)
  {
  }

  /** Of two refs selected from a list without repeats, the one selected first precedes the other. */
  lemma SelectionInOrder(refs: seq<string>, max: nat, i: nat, j: nat)
    requires Distinct(refs) && i < j < |Selected(refs, max)|
    ensures Precedes(Lists(refs), Selected(refs, max)[i], Selected(refs, max)[j])
  {
    hide Selected, Precedes, Rounds, Lists;
    SelectedIsRounds(refs, max);
    RoundsInOrder(Lists(refs), Longest(Lists(refs)), i, j);
  }

  // ---- Which models are ranked, and where ----

  predicate IsLocal(ref: string) {
    (|ref| >= 7 && ref[..7] == "ollama/") || (|ref| >= 10 && ref[..10] == "lm-studio/")
  }

  /** Neither local nor barred, with a known output price up to the ceiling. */
  predicate Affordable(m: Model, l: Limits) {
    !IsLocal(m.ref) && !m.barred && m.price.Price? && m.price.output.Some? && m.price.output.value <= l.maxPrice
  }

  predicate Simple(m: Model, l: Limits) {
    m.gdpval.Some? && m.gdpval.value <= l.maxGdpval
  }

  /** Neither local nor barred, without a registry price and free of charge. */
  predicate FreeOfCharge(m: Model) {
    !IsLocal(m.ref) && !m.barred && m.price.NoPrice? && m.costPerM == 0.0
  }

  lemma TierMeans(m: Model, l: Limits)
    ensures TierOf(m, l) == TierA <==> Affordable(m, l) && Simple(m, l)
    ensures TierOf(m, l) == TierB <==> Affordable(m, l) && !Simple(m, l)
    ensures TierOf(m, l) == TierC <==> FreeOfCharge(m)
  {
  }

  /** The models of a tier in catalogue order, by their places. */
  lemma {:induction false} TierPlaces(models: seq<Model>, tier: Tier, l: Limits) returns (at: seq<nat>)
    ensures |at| == |InTier(models, tier, l)|
    ensures forall i :: 0 <= i < |at| ==>
              && at[i] < |models| && TierOf(models[at[i]], l) == tier
              && InTier(models, tier, l)[i] == Score(models[at[i]])
    ensures forall i, j :: 0 <= i < j < |at| ==> at[i] < at[j]
    ensures forall k: nat :: k < |models| && TierOf(models[k], l) == tier ==> k in at
  {
    at := [];
    if models != [] {
      hide TierOf, Score;
      var n := |models| - 1;
      at := TierPlaces(models[..n], tier, l);
      if TierOf(models[n], l) == tier { at := at + [n]; }
    }
  }

  lemma {:induction false} RefsAt(s: seq<Scored>)
    ensures |RefsOf(s)| == |s| && forall i :: 0 <= i < |s| ==> RefsOf(s)[i] == s[i].ref
  {
    if s != [] { RefsAt(s[..|s| - 1]); }
  }

  function Map<A, B>(s: seq<A>, f: A -> B): seq<B> {
    if s == [] then [] else Map(s[..|s| - 1], f) + [f(s[|s| - 1])]
  }

  lemma {:induction false} MapAt<A, B>(s: seq<A>, f: A -> B)
    ensures |Map(s, f)| == |s| && forall i :: 0 <= i < |s| ==> Map(s, f)[i] == f(s[i])
  {
    if s != [] { MapAt(s[..|s| - 1], f); }
  }

  lemma MapNext<A, B>(s: seq<A>, x: A, f: A -> B)
    ensures Map(s + [x], f) == Map(s, f) + [f(x)]
  {
    assert (s + [x])[..|s|] == s;
  }

  lemma {:induction false} InsertMapped<A(!new), B>(
    s: seq<A>, x: A, f: A -> B, leqA: (A, A) -> bool, leqB: (B, B) -> bool)
    requires forall a, b :: leqA(a, b) == leqB(f(a), f(b))
    ensures Insert(Map(s, f), f(x), leqB) == Map(Insert(s, x, leqA), f)
  {
    MapAt(s, f);
    if s == [] || leqA(s[|s| - 1], x) {
      MapNext(s, x, f);
    } else {
      var n := |s| - 1;
      InsertMapped(s[..n], x, f, leqA, leqB);
      MapNext(Insert(s[..n], x, leqA), s[n], f);
      assert Map(s, f) == Map(s[..n], f) + [f(s[n])];
    }
  }

  lemma {:induction false} SortMapped<A(!new), B>(s: seq<A>, f: A -> B, leqA: (A, A) -> bool, leqB: (B, B) -> bool)
    requires forall a, b :: leqA(a, b) == leqB(f(a), f(b))
    ensures StableSort(Map(s, f), leqB) == Map(StableSort(s, leqA), f)
  {
    if s != [] {
      var n := |s| - 1;
      SortMapped(s[..n], f, leqA, leqB);
      InsertMapped(StableSort(s[..n], leqA), s[n], f, leqA, leqB);
      assert Map(s, f) == Map(s[..n], f) + [f(s[n])];
    }
  }

  /** The score at a place; beyond the catalogue it does not matter. */
  function ScoreAt(models: seq<Model>, k: nat): Scored {
    if k < |models| then Score(models[k]) else Scored("", 0.0, 0.0)
  }

  lemma {:induction false} SameAsMapped(s: seq<Scored>, at: seq<nat>, f: nat -> Scored)
    requires |s| == |at| && forall i :: 0 <= i < |s| ==> s[i] == f(at[i])
    ensures s == Map(at, f)
  {
    MapAt(at, f);
  }

  /** Places sorted by their scores. */
  function SortedPlaces(models: seq<Model>, places: seq<nat>, leq: (Scored, Scored) -> bool): seq<nat> {
    StableSort(places, (a: nat, b: nat) => leq(ScoreAt(models, a), ScoreAt(models, b)))
  }

  lemma InducedPreorder(models: seq<Model>, leq: (Scored, Scored) -> bool)
    requires TotalPreorder(leq)
    ensures TotalPreorder((a: nat, b: nat) => leq(ScoreAt(models, a), ScoreAt(models, b)))
  {
    hide ScoreAt;
    var leqAt := (a: nat, b: nat) => leq(ScoreAt(models, a), ScoreAt(models, b));
    forall x, y ensures leqAt(x, y) || leqAt(y, x) {
      assert leq(ScoreAt(models, x), ScoreAt(models, y)) || leq(ScoreAt(models, y), ScoreAt(models, x));
    }
    forall x, y, z | leqAt(x, y) && leqAt(y, z) ensures leqAt(x, z) {
      var a, b, c := ScoreAt(models, x), ScoreAt(models, y), ScoreAt(models, z);
      assert leq(a, b) && leq(b, c);
    }
  }

  lemma SortedPlacesAre(models: seq<Model>, places: seq<nat>, leq: (Scored, Scored) -> bool)
    requires TotalPreorder(leq) && Distinct(places)
    ensures var at := SortedPlaces(models, places, leq);
            && Distinct(at) && (forall k :: k in at <==> k in places)
            && forall i, j :: 0 <= i < j < |at| ==> leq(ScoreAt(models, at[i]), ScoreAt(models, at[j]))
  {
    hide ScoreAt, StableSort;
    var leqAt := (a: nat, b: nat) => leq(ScoreAt(models, a), ScoreAt(models, b));
    var at := SortedPlaces(models, places, leq);
    assert TotalPreorder(leqAt) by { InducedPreorder(models, leq); }
    SortSorts(places, leqAt);
    SortMembers(places, leqAt);
    SortMultiset(places, leqAt);
    DistinctPlaces(places, at);
    forall i, j | 0 <= i < j < |at| ensures leq(ScoreAt(models, at[i]), ScoreAt(models, at[j])) {
      assert leqAt(at[i], at[j]);
    }
  }

  lemma SortedScores(models: seq<Model>, s: seq<Scored>, places: seq<nat>, leq: (Scored, Scored) -> bool)
    requires |s| == |places| && forall i :: 0 <= i < |s| ==> s[i] == ScoreAt(models, places[i])
    ensures var refs, at := RefsOf(StableSort(s, leq)), SortedPlaces(models, places, leq);
            |refs| == |at| && forall i :: 0 <= i < |at| ==> refs[i] == ScoreAt(models, at[i]).ref
  {
    hide ScoreAt, StableSort, Map, RefsOf;
    var f := (k: nat) => ScoreAt(models, k);
    var leqAt := (a: nat, b: nat) => leq(ScoreAt(models, a), ScoreAt(models, b));
    SameAsMapped(s, places, f);
    SortMapped(places, f, leqAt, leq);
    MapAt(SortedPlaces(models, places, leq), f);
    RefsAt(StableSort(s, leq));
  }

  /** One sorted tier, by places: all places of the tier, each once, in the order of the comparator. */
  lemma SortedTier(models: seq<Model>, tier: Tier, l: Limits, leq: (Scored, Scored) -> bool) returns (at: seq<nat>)
    requires TotalPreorder(leq)
    ensures forall k: nat :: k in at <==> k < |models| && TierOf(models[k], l) == tier
    ensures Distinct(at)
    ensures forall i, j :: 0 <= i < j < |at| ==> leq(ScoreAt(models, at[i]), ScoreAt(models, at[j]))
    ensures var refs := RefsOf(StableSort(InTier(models, tier, l), leq));
            |refs| == |at| && forall i :: 0 <= i < |at| ==> refs[i] == ScoreAt(models, at[i]).ref
  {
    hide TierOf, Score, ScoreAt, InTier, StableSort, RefsOf, SortedPlaces;
    var places := TierPlaces(models, tier, l);
    at := SortedPlaces(models, places, leq);
    var s := InTier(models, tier, l);
    forall i | 0 <= i < |s| ensures s[i] == ScoreAt(models, places[i]) { ScoreWithin(models, places[i]); }
    SortedPlacesAre(models, places, leq);
    SortedScores(models, s, places, leq);
    forall k: nat ensures k in at <==> k < |models| && TierOf(models[k], l) == tier {
      if k in places {
        var i :| 0 <= i < |places| && places[i] == k;
      }
    }
  }

  lemma ScoreWithin(models: seq<Model>, k: nat)
    requires k < |models|
    ensures ScoreAt(models, k) == Score(models[k])
  {
  }

  lemma DistinctPlaces(a: seq<nat>, b: seq<nat>)
    requires multiset(a) == multiset(b) && Distinct(a)
    ensures Distinct(b)
  {
    SameElements(a, b);
    DistinctCard(a);
    DistinctCard(b);
    assert ToSet(a) == ToSet(b);
  }

  /**
   * The ranked refs: first the affordable models of a known low score, cheapest first and simplest first among equal
   * prices; then the other affordable ones, cheapest first; then those free of charge, in catalogue order. Every such
   * place of the catalogue is ranked once and no other.
   */
  lemma RankedIs(models: seq<Model>, l: Limits) returns (a: seq<nat>, b: seq<nat>, c: seq<nat>)
    ensures forall k: nat ::
              && (k in a <==> k < |models| && Affordable(models[k], l) && Simple(models[k], l))
              && (k in b <==> k < |models| && Affordable(models[k], l) && !Simple(models[k], l))
              && (k in c <==> k < |models| && FreeOfCharge(models[k]))
    ensures Distinct(a) && Distinct(b) && Distinct(c)
    ensures |Ranked(models, l)| == |a + b + c|
    ensures forall i :: 0 <= i < |a + b + c| ==>
              (a + b + c)[i] < |models| && Ranked(models, l)[i] == models[(a + b + c)[i]].ref
    ensures InOrder(models, a, CheaperOrSimpler) && InOrder(models, b, NotDearer)
    ensures forall i, j :: 0 <= i < j < |c| ==> c[i] < c[j]
  {
    hide TierOf, Score, InTier, StableSort, RefsOf, Affordable, Simple, FreeOfCharge, CheaperOrSimpler, NotDearer;
    a := SortedTier(models, TierA, l, CheaperThenSimpler);
    b := SortedTier(models, TierB, l, Cheaper);
    c := TierPlaces(models, TierC, l);
    RefsAt(InTier(models, TierC, l));
    forall k: nat | k < |models| { TierMeans(models[k], l); }
    forall k: nat | k < |models| { ScoreMeans(models, k); }
    assert forall i :: 0 <= i < |c| ==> c[i] in c;
    forall i | 0 <= i < |a + b + c|
      ensures (a + b + c)[i] < |models| && Ranked(models, l)[i] == models[(a + b + c)[i]].ref
    {
      var k := (a + b + c)[i];
      assert if i < |a| then k in a else if i < |a| + |b| then k in b else k in c;
    }
    FirstTierInOrder(models, a, l);
    SecondTierInOrder(models, b, l);
  }

  ghost predicate InOrder(models: seq<Model>, at: seq<nat>, before: (Model, Model) -> bool) {
    forall i, j :: 0 <= i < j < |at| && at[i] < |models| && at[j] < |models| ==> before(models[at[i]], models[at[j]])
  }

  lemma FirstTierInOrder(models: seq<Model>, at: seq<nat>, l: Limits)
    requires forall k :: k in at ==> k < |models| && Affordable(models[k], l) && Simple(models[k], l)
    requires forall i, j :: 0 <= i < j < |at| ==> CheaperThenSimpler(ScoreAt(models, at[i]), ScoreAt(models, at[j]))
    ensures InOrder(models, at, CheaperOrSimpler)
  {
    hide Affordable, Simple, CheaperOrSimpler, CheaperThenSimpler, ScoreAt;
    forall i, j | 0 <= i < j < |at| && at[i] < |models| && at[j] < |models|
      ensures CheaperOrSimpler(models[at[i]], models[at[j]])
    {
      assert at[i] in at && at[j] in at;
      ScoresCompare(models, at[i], at[j], l);
    }
  }

  lemma SecondTierInOrder(models: seq<Model>, at: seq<nat>, l: Limits)
    requires forall k :: k in at ==> k < |models| && Affordable(models[k], l)
    requires forall i, j :: 0 <= i < j < |at| ==> Cheaper(ScoreAt(models, at[i]), ScoreAt(models, at[j]))
    ensures InOrder(models, at, NotDearer)
  {
    hide Affordable, NotDearer, Cheaper, ScoreAt;
    forall i, j | 0 <= i < j < |at| && at[i] < |models| && at[j] < |models|
      ensures NotDearer(models[at[i]], models[at[j]])
    {
      assert at[i] in at && at[j] in at;
      ScoresCompare(models, at[i], at[j], l);
    }
  }

  predicate CheaperOrSimpler(m: Model, n: Model) {
    && m.price.Price? && n.price.Price? && m.price.output.Some? && n.price.output.Some?
    && (m.price.output.value < n.price.output.value ||
        (m.price.output == n.price.output &&
         m.gdpval.Some? && n.gdpval.Some? && m.gdpval.value <= n.gdpval.value))
  }

  predicate NotDearer(m: Model, n: Model) {
    && m.price.Price? && n.price.Price? && m.price.output.Some? && n.price.output.Some?
    && m.price.output.value <= n.price.output.value
  }

  lemma ScoreMeans(models: seq<Model>, k: nat)
    requires k < |models|
    ensures ScoreAt(models, k).ref == models[k].ref && ScoreAt(models, k) == Score(models[k])
  {
  }

  lemma ScoresCompare(models: seq<Model>, x: nat, y: nat, l: Limits)
    requires x < |models| && y < |models| && Affordable(models[x], l) && Affordable(models[y], l)
    ensures Simple(models[x], l) && Simple(models[y], l)
            && CheaperThenSimpler(ScoreAt(models, x), ScoreAt(models, y)) ==>
              CheaperOrSimpler(models[x], models[y])
    ensures Cheaper(ScoreAt(models, x), ScoreAt(models, y)) ==> NotDearer(models[x], models[y])
  {
  }

  /**
   * Duplicates in a catalogue can end the loop early: the second place only repeats the first, and "p/b" is never
   * offered.
   */
  lemma DuplicatesEndTheLoop(l: Limits)
    ensures var a, b := Model("p/a", false, NoPrice, None, 0.0), Model("p/b", false, NoPrice, None, 0.0);
            Selected(Ranked([a, a, b], l), 3) == ["p/a"]
  {
    var a, b := "p/a", "p/b";
    var refs := [a, a, b];
    FreeModels(l);
    OneProvider(a, b);
    assert Lists(refs) == [refs];
    SecondRoundStalls(refs);
    hide Rounds, Dedup, Lists, StallFrom, Ranked;
  }

  lemma FreeModels(l: Limits)
    ensures var a, b := Model("p/a", false, NoPrice, None, 0.0), Model("p/b", false, NoPrice, None, 0.0);
            Ranked([a, a, b], l) == ["p/a", "p/a", "p/b"]
  {
    var a, b := Model("p/a", false, NoPrice, None, 0.0), Model("p/b", false, NoPrice, None, 0.0);
    assert TierOf(a, l) == TierC && TierOf(b, l) == TierC;
    FreeTier(a, b, TierA, l);
    FreeTier(a, b, TierB, l);
    FreeTier(a, b, TierC, l);
    hide TierOf, InTier;
    assert RefsOf([]) == [];
  }

  lemma FreeTier(a: Model, b: Model, tier: Tier, l: Limits)
    requires TierOf(a, l) == TierC && TierOf(b, l) == TierC
    ensures tier == TierC ==> RefsOf(InTier([a, a, b], tier, l)) == [a.ref, a.ref, b.ref]
    ensures tier != TierC ==> InTier([a, a, b], tier, l) == []
  {
    hide TierOf;
    assert [a, a, b][..2] == [a, a] && [a, a][..1] == [a] && [a][..0] == [];
    assert InTier([a], tier, l) == if tier == TierC then [Score(a)] else [];
    assert InTier([a, a], tier, l) == if tier == TierC then [Score(a), Score(a)] else [];
    var s := [Score(a), Score(a), Score(b)];
    assert InTier([a, a, b], tier, l) == if tier == TierC then s else [];
    hide InTier, Score;
    assert s[..2] == [Score(a), Score(a)] && [Score(a), Score(a)][..1] == [Score(a)] && [Score(a)][..0] == [];
    assert RefsOf([Score(a)]) == [Score(a).ref];
    assert RefsOf([Score(a), Score(a)]) == [Score(a).ref, Score(a).ref];
    assert RefsOf(s) == [Score(a).ref, Score(a).ref, Score(b).ref];
    ScoreKeepsRef(a);
    ScoreKeepsRef(b);
  }

  lemma ScoreKeepsRef(m: Model)
    ensures Score(m).ref == m.ref
  {
  }

  lemma OneProvider(a: string, b: string)
    requires a == "p/a" && b == "p/b"
    ensures Providers([a, a, b]) == ["p"] && Picks([a, a, b], "p") == [a, a, b]
  {
    assert Provider(a) == "p" && Provider(b) == "p";
    hide Provider;
    assert [a, a, b][..2] == [a, a] && [a, a][..1] == [a] && [a][..0] == [];
    assert Providers([a]) == ["p"] && Picks([a], "p") == [a];
    assert Providers([a, a]) == ["p"] && Picks([a, a], "p") == [a, a];
  }

  lemma SecondRoundStalls(refs: seq<string>)
    requires |refs| == 3 && refs[0] == refs[1]
    ensures Stall([refs]) == 1 && Dedup(Rounds([refs], 1)) == [refs[0]]
  {
    var lists := [refs];
    assert Round(lists, 0, 0) == [];
    assert Round(lists, 0, 1) == [refs[0]] && Round(lists, 1, 1) == [refs[1]];
    assert Rounds(lists, 0) == [];
    assert Rounds(lists, 1) == [refs[0]];
    assert Rounds(lists, 2) == [refs[0], refs[1]];
    assert [refs[0], refs[1]][..1] == [refs[0]];
    assert [refs[0]][..0] == [];
    assert Dedup(Rounds(lists, 1)) == [refs[0]];
    assert !Stalls(lists, 0) && Stalls(lists, 1);
    StallIs(lists, 1);
  }
}
