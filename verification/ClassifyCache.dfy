/**
 * src/content-classifier.ts: the classification cache, an insertion-ordered Map (ECMA-262, section 24.1) kept as a
 * sequence of slots. A run is the sequence of its gets and sets, whatever the clock says at each.
 */
module ClassifyCache {
  import opened Seqs

  const MAX_CLASSIFY_CACHE: nat := 64
  const TTL_MS: int := 300_000

  datatype Entry<R> = Entry(result: R, ts: int, origin: Option<string>)

  datatype Slot<R> = Slot(prompt: string, entry: Entry<R>)

  /** `barred`: the result came from the caller's context, or the detached comparator computed it. */
  datatype Op<R> =
    | Get(prompt: string, now: int)
    | Set(prompt: string, result: R, barred: bool, now: int, origin: Option<string>)

  ghost predicate Unique<R>(s: seq<Slot<R>>) {
    forall i, j :: 0 <= i < j < |s| ==> s[i].prompt != s[j].prompt
  }

  predicate Holds<R>(s: seq<Slot<R>>, prompt: string) {
    exists i :: 0 <= i < |s| && s[i].prompt == prompt
  }

  function Find<R>(s: seq<Slot<R>>, prompt: string): (i: nat)
    ensures i <= |s|
    ensures i < |s| ==> s[i].prompt == prompt
    ensures forall j :: 0 <= j < i ==> s[j].prompt != prompt
  {
    if s == [] || s[0].prompt == prompt then 0 else 1 + Find(s[1..], prompt)
  }

  function Delete<R>(s: seq<Slot<R>>, prompt: string): seq<Slot<R>> {
    var i := Find(s, prompt);
    if i < |s| then s[..i] + s[i + 1..] else s
  }

  /** Map.prototype.set: a present key keeps its position. */
  function Put<R>(s: seq<Slot<R>>, prompt: string, entry: Entry<R>): seq<Slot<R>> {
    var i := Find(s, prompt);
    if i < |s| then s[i := Slot(prompt, entry)] else s + [Slot(prompt, entry)]
  }

  function Lookup<R>(s: seq<Slot<R>>, prompt: string, now: int): Option<Entry<R>> {
    var i := Find(s, prompt);
    if i < |s| && now - s[i].entry.ts <= TTL_MS then Some(s[i].entry) else None
  }

  function AfterGet<R>(s: seq<Slot<R>>, prompt: string, now: int): seq<Slot<R>> {
    var i := Find(s, prompt);
    if i == |s| then s
    else if now - s[i].entry.ts > TTL_MS then Delete(s, prompt)
    else Delete(s, prompt) + [s[i]]
  }

  function Evict<R>(s: seq<Slot<R>>, cap: nat): seq<Slot<R>> {
    if |s| >= cap && s != [] then s[1..] else s
  }

  function AfterSet<R>(
    s: seq<Slot<R>>, prompt: string, result: R, barred: bool, now: int, origin: Option<string>, cap: nat): seq<Slot<R>>
  {
    if barred then s else Put(Evict(s, cap), prompt, Entry(result, now, origin))
  }

  function After<R>(s: seq<Slot<R>>, op: Op<R>, cap: nat): seq<Slot<R>> {
    match op
    case Get(prompt, now) => AfterGet(s, prompt, now)
    case Set(prompt, result, barred, now, origin) => AfterSet(s, prompt, result, barred, now, origin, cap)
  }

  function Run<R>(ops: seq<Op<R>>, cap: nat): seq<Slot<R>> {
    if ops == [] then [] else After(Run(ops[..|ops| - 1], cap), ops[|ops| - 1], cap)
  }

  // ---- The two functions in place ----

  class Cache<R> {
    var slots: seq<Slot<R>>

    constructor ()
      ensures slots == []
    {
      slots := [];
    }

    method ClassifyCacheGet(prompt: string, now: int) returns (r: Option<Entry<R>>)
      modifies this
      ensures r == Lookup(old(slots), prompt, now)
      ensures slots == AfterGet(old(slots), prompt, now)
    {
      var i := Find(slots, prompt);
      if i == |slots| { return None; }
      var slot := slots[i];
      if now - slot.entry.ts > TTL_MS {
        slots := Delete(slots, prompt);
        return None;
      }
      slots := Delete(slots, prompt);
      slots := slots + [slot];
      return Some(slot.entry);
    }

    method ClassifyCacheSet(
      prompt: string, result: R, contextDerived: bool, comparator: bool, now: int, source: Option<string>)
      modifies this
      ensures slots ==
              AfterSet(old(slots), prompt, result, contextDerived || comparator, now, source, MAX_CLASSIFY_CACHE)
    {
      if contextDerived { return; }
      if comparator { return; }
      if |slots| >= MAX_CLASSIFY_CACHE {
        slots := slots[1..];
      }
      slots := Put(slots, prompt, Entry(result, now, source));
    }
  }

  // ---- The reference: a table that keeps every last write ----

  function LastWrite<R>(ops: seq<Op<R>>, prompt: string): Option<Entry<R>> {
    if ops == [] then None
    else
      match ops[|ops| - 1]
      case Get(_, _) => LastWrite(ops[..|ops| - 1], prompt)
      case Set(p, result, barred, now, origin) =>
        if p == prompt && !barred then Some(Entry(result, now, origin)) else LastWrite(ops[..|ops| - 1], prompt)
  }

  /** The operation moves or adds the prompt to the end of the map. */
  predicate Places<R>(s: seq<Slot<R>>, op: Op<R>, prompt: string, cap: nat) {
    op.prompt == prompt &&
    match op
    case Get(_, now) => Lookup(s, prompt, now).Some?
    case Set(_, _, barred, _, _) => !barred && Find(Evict(s, cap), prompt) == |Evict(s, cap)|
  }

  /** The operation reads or writes the prompt's entry. */
  predicate Uses<R>(s: seq<Slot<R>>, op: Op<R>, prompt: string) {
    op.prompt == prompt &&
    match op
    case Get(_, now) => Lookup(s, prompt, now).Some?
    case Set(_, _, barred, _, _) => !barred
  }

  /** Number of the last operation that placed the prompt, counted from 1; 0 if none did. */
  function Placed<R>(ops: seq<Op<R>>, prompt: string, cap: nat): (n: nat)
    ensures n <= |ops|
  {
    if ops == [] then 0
    else if Places(Run(ops[..|ops| - 1], cap), ops[|ops| - 1], prompt, cap) then |ops|
    else Placed(ops[..|ops| - 1], prompt, cap)
  }

  function Used<R>(ops: seq<Op<R>>, prompt: string, cap: nat): (n: nat)
    ensures n <= |ops|
  {
    if ops == [] then 0
    else if Uses(Run(ops[..|ops| - 1], cap), ops[|ops| - 1], prompt) then |ops|
    else Used(ops[..|ops| - 1], prompt, cap)
  }

  /** From operation `from` on, a stored result overwrote the prompt's entry where it stood. */
  ghost predicate OverwrittenSince<R>(ops: seq<Op<R>>, prompt: string, from: nat, cap: nat) {
    exists n :: from <= n < |ops| && Overwrites(Run(ops[..n], cap), ops[n], prompt, cap)
  }

  predicate Overwrites<R>(s: seq<Slot<R>>, op: Op<R>, prompt: string, cap: nat) {
    op.Set? && op.prompt == prompt && !op.barred && !Places(s, op, prompt, cap)
  }

  /** What every run keeps: few slots, each with its prompt's last write, in the order they were placed. */
  ghost predicate Inv<R>(ops: seq<Op<R>>, cap: nat) {
    |Run(ops, cap)| <= cap && Ordered(ops, Run(ops, cap), cap)
  }

  ghost predicate Ordered<R>(ops: seq<Op<R>>, s: seq<Slot<R>>, cap: nat) {
    && (forall i :: 0 <= i < |s| ==> Current(ops, s[i], cap))
    && (forall i, j :: 0 <= i < j < |s| ==> Placed(ops, s[i].prompt, cap) < Placed(ops, s[j].prompt, cap))
  }

  ghost predicate Current<R>(ops: seq<Op<R>>, slot: Slot<R>, cap: nat) {
    LastWrite(ops, slot.prompt) == Some(slot.entry) && Placed(ops, slot.prompt, cap) > 0
  }

  lemma RunNext<R>(ops: seq<Op<R>>, op: Op<R>, cap: nat)
    ensures Run(ops + [op], cap) == After(Run(ops, cap), op, cap)
  {
  }

  lemma HistoryNext<R>(ops: seq<Op<R>>, op: Op<R>, prompt: string, cap: nat)
    ensures Placed(ops + [op], prompt, cap)
            == if Places(Run(ops, cap), op, prompt, cap) then |ops| + 1 else Placed(ops, prompt, cap)
    ensures LastWrite(ops + [op], prompt)
            == if op.Set? && op.prompt == prompt && !op.barred then Some(Entry(op.result, op.now, op.origin))
               else LastWrite(ops, prompt)
  {
  }

  lemma OrderedUnique<R>(ops: seq<Op<R>>, s: seq<Slot<R>>, cap: nat)
    requires Ordered(ops, s, cap)
    ensures Unique(s)
  {
  }

  lemma OrderedWithout<R>(ops: seq<Op<R>>, s: seq<Slot<R>>, k: nat, cap: nat)
    requires Ordered(ops, s, cap) && k < |s|
    ensures Ordered(ops, s[..k] + s[k + 1..], cap)
  {
  }

  /** An operation on a prompt none of the slots holds leaves them in order. */
  lemma OrderedOthers<R>(ops: seq<Op<R>>, op: Op<R>, s: seq<Slot<R>>, cap: nat)
    requires Ordered(ops, s, cap) && !Holds(s, op.prompt)
    ensures Ordered(ops + [op], s, cap)
  {
  }

  /** The placed slot goes last. */
  lemma OrderedPlaced<R>(ops: seq<Op<R>>, op: Op<R>, s: seq<Slot<R>>, slot: Slot<R>, cap: nat)
    requires Ordered(ops, s, cap) && !Holds(s, op.prompt) && slot.prompt == op.prompt
    requires Places(Run(ops, cap), op, op.prompt, cap)
    requires LastWrite(ops + [op], op.prompt) == Some(slot.entry)
    ensures Ordered(ops + [op], s + [slot], cap)
  {
    hide LastWrite, Places;
    OrderedOthers(ops, op, s, cap);
    HistoryNext(ops, op, op.prompt, cap);
    forall i | 0 <= i < |s| ensures Placed(ops + [op], s[i].prompt, cap) < |ops| + 1 {
      HistoryNext(ops, op, s[i].prompt, cap);
      GetPlaces(Run(ops, cap), op, s[i].prompt, cap);
    }
  }

  lemma DeleteRemoves<R>(s: seq<Slot<R>>, prompt: string)
    requires Unique(s)
    ensures !Holds(Delete(s, prompt), prompt)
    ensures |Delete(s, prompt)| == if Find(s, prompt) < |s| then |s| - 1 else |s|
  {
  }

  lemma GetKeeps<R>(ops: seq<Op<R>>, prompt: string, now: int, cap: nat)
    requires Inv(ops, cap)
    ensures Inv(ops + [Get(prompt, now)], cap)
  {
    hide LastWrite, Placed;
    var s, op := Run(ops, cap), Get(prompt, now);
    var i := Find(s, prompt);
    RunNext(ops, op, cap);
    OrderedUnique(ops, s, cap);
    DeleteRemoves(s, prompt);
    if i == |s| {
      OrderedOthers(ops, op, s, cap);
    } else {
      OrderedWithout(ops, s, i, cap);
      OrderedOthers(ops, op, Delete(s, prompt), cap);
      if now - s[i].entry.ts <= TTL_MS {
        HistoryNext(ops, op, prompt, cap);
        OrderedPlaced(ops, op, Delete(s, prompt), s[i], cap);
      }
    }
  }

  /** A live key is overwritten where it stands. */
  lemma OrderedOverwritten<R>(ops: seq<Op<R>>, op: Op<R>, s: seq<Slot<R>>, k: nat, cap: nat)
    requires Ordered(ops, s, cap) && k < |s| && s[k].prompt == op.prompt
    requires op.Set? && !op.barred && !Places(Run(ops, cap), op, op.prompt, cap)
    ensures Ordered(ops + [op], s[k := Slot(op.prompt, Entry(op.result, op.now, op.origin))], cap)
  {
  }

  lemma BarredKeeps<R>(ops: seq<Op<R>>, op: Op<R>, s: seq<Slot<R>>, cap: nat)
    requires Ordered(ops, s, cap) && op.Set? && op.barred
    ensures Ordered(ops + [op], s, cap)
  {
    hide LastWrite, Placed, Run;
    forall i | 0 <= i < |s|
      ensures LastWrite(ops + [op], s[i].prompt) == LastWrite(ops, s[i].prompt)
      ensures Placed(ops + [op], s[i].prompt, cap) == Placed(ops, s[i].prompt, cap)
    {
      HistoryNext(ops, op, s[i].prompt, cap);
    }
  }

  lemma EvictKeeps<R>(ops: seq<Op<R>>, s: seq<Slot<R>>, cap: nat)
    requires Ordered(ops, s, cap)
    ensures Ordered(ops, Evict(s, cap), cap)
  {
    hide Placed, Current;
  }

  lemma PutLength<R>(s: seq<Slot<R>>, prompt: string, entry: Entry<R>, cap: nat)
    requires |s| <= cap && 1 <= cap
    ensures |Put(Evict(s, cap), prompt, entry)| <= cap
  {
  }

  lemma SetKeeps<R>(ops: seq<Op<R>>, op: Op<R>, cap: nat)
    requires Inv(ops, cap) && op.Set? && 1 <= cap
    ensures Inv(ops + [op], cap)
  {
    hide Ordered, Run, Evict, Put;
    var s := Run(ops, cap);
    RunNext(ops, op, cap);
    if op.barred {
      BarredKeeps(ops, op, s, cap);
    } else {
      EvictKeeps(ops, s, cap);
      PutLength(s, op.prompt, Entry(op.result, op.now, op.origin), cap);
      StoredKeeps(ops, op, Evict(s, cap), cap);
    }
  }

  lemma StoredKeeps<R>(ops: seq<Op<R>>, op: Op<R>, e: seq<Slot<R>>, cap: nat)
    requires op.Set? && !op.barred && Ordered(ops, e, cap) && e == Evict(Run(ops, cap), cap)
    ensures Ordered(ops + [op], Put(e, op.prompt, Entry(op.result, op.now, op.origin)), cap)
  {
    hide LastWrite, Placed, Evict, Run;
    var i := Find(e, op.prompt);
    HistoryNext(ops, op, op.prompt, cap);
    if i < |e| {
      OrderedOverwritten(ops, op, e, i, cap);
    } else {
      OrderedPlaced(ops, op, e, Slot(op.prompt, Entry(op.result, op.now, op.origin)), cap);
    }
  }

  lemma {:induction false} RunsKeepInv<R>(ops: seq<Op<R>>, cap: nat)
    requires 1 <= cap
    ensures Inv(ops, cap)
  {
    if ops != [] {
      hide Inv;
      var n := |ops| - 1;
      RunsKeepInv(ops[..n], cap);
      assert ops == ops[..n] + [ops[n]];
      match ops[n]
      case Get(prompt, now) => GetKeeps(ops[..n], prompt, now, cap);
      case Set(_, _, _, _, _) => SetKeeps(ops[..n], ops[n], cap);
    }
  }

  // ---- Main results ----

  /** After any run a hit is the latest result stored for that very prompt, at most five minutes old. */
  lemma HitIsLatestWrite<R>(ops: seq<Op<R>>, prompt: string, now: int)
    ensures |Run(ops, MAX_CLASSIFY_CACHE)| <= 64
    ensures var hit := Lookup(Run(ops, MAX_CLASSIFY_CACHE), prompt, now);
            hit.Some? ==> hit == LastWrite(ops, prompt) && now - hit.value.ts <= 5 * 60 * 1000
  {
    RunsKeepInv(ops, MAX_CLASSIFY_CACHE);
  }

  /** A get misses exactly when the prompt is no longer held or its latest result has expired. */
  lemma MissIff<R>(ops: seq<Op<R>>, prompt: string, now: int)
    ensures var s := Run(ops, MAX_CLASSIFY_CACHE);
            Lookup(s, prompt, now).None? <==>
            !Holds(s, prompt) || (LastWrite(ops, prompt).Some? && now - LastWrite(ops, prompt).value.ts > 5 * 60 * 1000)
  {
    hide LastWrite, Placed;
    var s := Run(ops, MAX_CLASSIFY_CACHE);
    RunsKeepInv(ops, MAX_CLASSIFY_CACHE);
    if k :| 0 <= k < |s| && s[k].prompt == prompt {
      OrderedUnique(ops, s, MAX_CLASSIFY_CACHE);
      FindIs(s, prompt, k);
      assert Current(ops, s[k], MAX_CLASSIFY_CACHE);
    }
  }

  lemma FindIs<R>(s: seq<Slot<R>>, prompt: string, i: nat)
    requires Unique(s) && i < |s| && s[i].prompt == prompt
    ensures Find(s, prompt) == i
  {
  }

  /** What a full cache evicts: the slot placed longest ago, and not by any of the last 64 operations. */
  lemma EvictedWasPlacedFirst<R>(ops: seq<Op<R>>, i: nat)
    requires var s := Run(ops, MAX_CLASSIFY_CACHE); |s| >= MAX_CLASSIFY_CACHE && 0 < i < |s|
    ensures var s := Run(ops, MAX_CLASSIFY_CACHE);
            && Evict(s, MAX_CLASSIFY_CACHE) == s[1..]
            && Placed(ops, s[0].prompt, MAX_CLASSIFY_CACHE) < Placed(ops, s[i].prompt, MAX_CLASSIFY_CACHE)
            && Placed(ops, s[0].prompt, MAX_CLASSIFY_CACHE) <= |ops| - (MAX_CLASSIFY_CACHE - 1)
  {
    hide LastWrite, Placed;
    RunsKeepInv(ops, MAX_CLASSIFY_CACHE);
    PlacedApart(ops, Run(ops, MAX_CLASSIFY_CACHE), MAX_CLASSIFY_CACHE - 1, MAX_CLASSIFY_CACHE);
  }

  lemma {:induction false} PlacedApart<R>(ops: seq<Op<R>>, s: seq<Slot<R>>, k: nat, cap: nat)
    requires Ordered(ops, s, cap) && k < |s|
    ensures Placed(ops, s[0].prompt, cap) + k <= Placed(ops, s[k].prompt, cap)
  {
    hide LastWrite, Placed;
    if k > 0 { PlacedApart(ops, s, k - 1, cap); }
  }

  lemma GetPlaces<R>(s: seq<Slot<R>>, op: Op<R>, prompt: string, cap: nat)
    ensures op.Get? || (op.Set? && op.barred) ==> (Places(s, op, prompt, cap) <==> Uses(s, op, prompt))
    ensures Places(s, op, prompt, cap) ==> Uses(s, op, prompt) && op.prompt == prompt
    ensures Uses(s, op, prompt) ==> op.prompt == prompt
  {
  }

  lemma {:induction false} UsedCovers<R>(ops: seq<Op<R>>, prompt: string, n: nat, cap: nat)
    requires n < |ops| && Uses(Run(ops[..n], cap), ops[n], prompt)
    ensures n < Used(ops, prompt, cap)
  {
    hide Uses, Run;
    if n < |ops| - 1 {
      assert ops[..|ops| - 1][..n] == ops[..n];
      UsedCovers(ops[..|ops| - 1], prompt, n, cap);
    }
  }

  /** The last use of a prompt is its last placing or overwrote its entry. */
  lemma {:induction false} UsedIs<R>(ops: seq<Op<R>>, prompt: string, cap: nat)
    ensures var u := Used(ops, prompt, cap);
            && Placed(ops, prompt, cap) <= u
            && (u > 0 ==> ops[u - 1].prompt == prompt)
            && (u > Placed(ops, prompt, cap) ==> Overwrites(Run(ops[..u - 1], cap), ops[u - 1], prompt, cap))
  {
    hide Uses, Places, Overwrites, Run;
    if ops != [] {
      var before, op := ops[..|ops| - 1], ops[|ops| - 1];
      UsedIs(before, prompt, cap);
      GetPlaces(Run(before, cap), op, prompt, cap);
      UsesOrOverwrites(Run(before, cap), op, prompt, cap);
      var u := Used(before, prompt, cap);
      if u > 0 { assert before[..u - 1] == ops[..u - 1]; }
    }
  }

  lemma UsesOrOverwrites<R>(s: seq<Slot<R>>, op: Op<R>, prompt: string, cap: nat)
    ensures Uses(s, op, prompt) <==> Places(s, op, prompt, cap) || Overwrites(s, op, prompt, cap)
  {
  }

  /**
   * The entry evicted next was used before another held entry exactly when no operation since that entry's last use
   * overwrote it in place.
   */
  lemma EvictsLeastRecentlyUsedIff<R>(ops: seq<Op<R>>, i: nat)
    requires 0 < i < |Run(ops, MAX_CLASSIFY_CACHE)|
    ensures var s := Run(ops, MAX_CLASSIFY_CACHE);
            var last := Used(ops, s[i].prompt, MAX_CLASSIFY_CACHE);
            Used(ops, s[0].prompt, MAX_CLASSIFY_CACHE) < last <==>
            !OverwrittenSince(ops, s[0].prompt, last, MAX_CLASSIFY_CACHE)
  {
    hide LastWrite, Placed, Used, Run, Overwrites, Uses, Places;
    var s := Run(ops, MAX_CLASSIFY_CACHE);
    var head, other := s[0].prompt, s[i].prompt;
    RunsKeepInv(ops, MAX_CLASSIFY_CACHE);
    OrderedUnique(ops, s, MAX_CLASSIFY_CACHE);
    UsedIs(ops, head, MAX_CLASSIFY_CACHE);
    UsedIs(ops, other, MAX_CLASSIFY_CACHE);
    var last := Used(ops, other, MAX_CLASSIFY_CACHE);
    if OverwrittenSince(ops, head, last, MAX_CLASSIFY_CACHE) {
      var n :| last <= n < |ops| && Overwrites(Run(ops[..n], MAX_CLASSIFY_CACHE), ops[n], head, MAX_CLASSIFY_CACHE);
      UsesOrOverwrites(Run(ops[..n], MAX_CLASSIFY_CACHE), ops[n], head, MAX_CLASSIFY_CACHE);
      UsedCovers(ops, head, n, MAX_CLASSIFY_CACHE);
    }
  }

  lemma FullHeadIsOld<R>(ops: seq<Op<R>>, cap: nat)
    requires 1 <= cap && |Run(ops, cap)| >= cap
    ensures Placed(ops, Run(ops, cap)[0].prompt, cap) <= |ops| - (cap - 1)
  {
    hide LastWrite, Placed;
    RunsKeepInv(ops, cap);
    PlacedApart(ops, Run(ops, cap), cap - 1, cap);
  }

  lemma HeldThroughGet<R>(s: seq<Slot<R>>, p: string, now: int, prompt: string)
    requires Holds(s, prompt) && p != prompt
    ensures Holds(AfterGet(s, p, now), prompt)
  {
    var k :| 0 <= k < |s| && s[k].prompt == prompt;
    var i := Find(s, p);
    if i < |s| {
      var d := Delete(s, p);
      var j := if k < i then k else k - 1;
      assert d[j] == s[k];
      assert AfterGet(s, p, now)[j] == s[k];
    }
  }

  lemma HeldThroughSet<R>(s: seq<Slot<R>>, op: Op<R>, prompt: string, cap: nat)
    requires op.Set? && Holds(s, prompt)
    requires |s| >= cap ==> s[0].prompt != prompt
    ensures Holds(After(s, op, cap), prompt)
  {
    var k :| 0 <= k < |s| && s[k].prompt == prompt;
    if !op.barred {
      var e := Evict(s, cap);
      var j := if e == s then k else k - 1;
      assert e[j] == s[k];
      hide Evict;
      assert After(s, op, cap) == Put(e, op.prompt, Entry(op.result, op.now, op.origin));
      assert Put(e, op.prompt, Entry(op.result, op.now, op.origin))[j].prompt == prompt;
    }
  }

  lemma AfterIsGet<R>(s: seq<Slot<R>>, op: Op<R>, cap: nat)
    requires op.Get?
    ensures After(s, op, cap) == AfterGet(s, op.prompt, op.now)
  {
  }

  lemma PlacedIsLast<R>(s: seq<Slot<R>>, op: Op<R>, prompt: string, cap: nat)
    requires Places(s, op, prompt, cap)
    ensures Holds(After(s, op, cap), prompt)
  {
    var t := After(s, op, cap);
    assert t[|t| - 1].prompt == prompt;
  }

  /** A prompt placed by one of the last 64 operations is still held, unless a later get found it expired. */
  lemma {:induction false} RecentlyPlacedIsHeld<R>(ops: seq<Op<R>>, prompt: string, cap: nat)
    requires 0 < Placed(ops, prompt, cap) && |ops| - Placed(ops, prompt, cap) < cap
    requires forall k :: Placed(ops, prompt, cap) <= k < |ops| && ops[k].prompt == prompt ==> ops[k].Set?
    ensures Holds(Run(ops, cap), prompt)
  {
    hide Holds, Places, After;
    var n := |ops| - 1;
    var before := ops[..n];
    if Places(Run(before, cap), ops[n], prompt, cap) {
      PlacedIsLast(Run(before, cap), ops[n], prompt, cap);
    } else {
      RecentlyPlacedIsHeld(before, prompt, cap);
      if |Run(before, cap)| >= cap { FullHeadIsOld(before, cap); }
      match ops[n]
      case Get(p, now) =>
        HeldThroughGet(Run(before, cap), p, now, prompt);
        AfterIsGet(Run(before, cap), ops[n], cap);
      case Set(_, _, _, _, _) => HeldThroughSet(Run(before, cap), ops[n], prompt, cap);
    }
  }

  // ---- Map.set on a live key is not a use ----

  function Name(k: nat): string {
    if k == 0 then "" else Name(k - 1) + "x"
  }

  lemma {:induction false} NameLength(k: nat)
    ensures |Name(k)| == k
  {
    if k > 0 { NameLength(k - 1); }
  }

  /** A result `e` is stored for prompt `k`. */
  function Store<R>(k: nat, e: Entry<R>): Op<R> {
    Set(Name(k), e.result, false, e.ts, e.origin)
  }

  function Ask<R>(k: nat, e: Entry<R>): Op<R> {
    Get(Name(k), e.ts)
  }

  /** Two calls for prompt 0 overlap, with one for prompt 1 between their answers; then the others, one by one. */
  function Refill<R>(n: nat, e: Entry<R>): seq<Op<R>>
    requires 2 <= n
  {
    if n == 2 then [Ask(0, e), Ask(0, e), Store(0, e), Ask(1, e), Store(1, e), Store(0, e)]
    else Refill(n - 1, e) + [Ask(n - 1, e), Store(n - 1, e)]
  }

  ghost predicate Named<R>(s: seq<Slot<R>>, n: nat) {
    |s| == n && forall i :: 0 <= i < n ==> s[i].prompt == Name(i)
  }

  lemma NamesDiffer(i: nat, j: nat)
    requires i != j
    ensures Name(i) != Name(j)
  {
    NameLength(i);
    NameLength(j);
  }

  lemma NotYetHeld<R>(s: seq<Slot<R>>, n: nat)
    requires Named(s, n)
    ensures Find(s, Name(n)) == n
  {
    forall i | 0 <= i < n ensures s[i].prompt != Name(n) { NamesDiffer(i, n); }
  }

  lemma UsedNext<R>(ops: seq<Op<R>>, op: Op<R>, prompt: string, cap: nat)
    ensures Used(ops + [op], prompt, cap)
            == if Uses(Run(ops, cap), op, prompt) then |ops| + 1 else Used(ops, prompt, cap)
  {
    assert (ops + [op])[..|ops|] == ops;
  }

  /** A call for a prompt not yet held: its get misses, its set goes last. */
  lemma CallNew<R>(ops: seq<Op<R>>, n: nat, i: nat, e: Entry<R>, cap: nat)
    requires Named(Run(ops, cap), n) && n < cap
    ensures var more := ops + [Ask(n, e), Store(n, e)];
            Named(Run(more, cap), n + 1)
            && Used(more, Name(i), cap) == if i == n then |ops| + 2 else Used(ops, Name(i), cap)
  {
    hide Used, Run, Name;
    var asked := ops + [Ask(n, e)];
    assert ops + [Ask(n, e), Store(n, e)] == asked + [Store(n, e)];
    NotYetHeld(Run(ops, cap), n);
    RunNext(ops, Ask(n, e), cap);
    RunNext(asked, Store(n, e), cap);
    UsedNext(ops, Ask(n, e), Name(i), cap);
    UsedNext(asked, Store(n, e), Name(i), cap);
    if i != n { NamesDiffer(i, n); }
  }

  lemma StoreAgain<R>(ops: seq<Op<R>>, n: nat, i: nat, e: Entry<R>, cap: nat)
    requires Named(Run(ops, cap), n) && 0 < n < cap
    ensures Named(Run(ops + [Store(0, e)], cap), n)
    ensures Used(ops + [Store(0, e)], Name(i), cap) == if i == 0 then |ops| + 1 else Used(ops, Name(i), cap)
  {
    hide Used, Run, Name;
    RunNext(ops, Store(0, e), cap);
    UsedNext(ops, Store(0, e), Name(i), cap);
    if i != 0 { NamesDiffer(i, 0); }
  }

  lemma FirstAsk<R>(e: Entry<R>, cap: nat)
    ensures Run([Ask(0, e)], cap) == []
  {
  }

  lemma RefillStart<R>(e: Entry<R>, cap: nat)
    requires 3 <= cap
    ensures Named(Run(Refill(2, e), cap), 2)
    ensures Used(Refill(2, e), Name(0), cap) == 6 && Used(Refill(2, e), Name(1), cap) == 5
  {
    var a := [Ask(0, e)];
    var b := a + [Ask(0, e), Store(0, e)];
    var c := b + [Ask(1, e), Store(1, e)];
    assert Refill(2, e) == c + [Store(0, e)];
    hide Used, Run, Name, Refill;
    FirstAsk(e, cap);
    CallNew(a, 0, 0, e, cap);
    CallNew(b, 1, 1, e, cap);
    StoreAgain(c, 2, 0, e, cap);
    StoreAgain(c, 2, 1, e, cap);
  }

  lemma {:induction false} RefillRun<R>(n: nat, e: Entry<R>, cap: nat)
    requires 2 <= n <= cap && 3 <= cap
    ensures Named(Run(Refill(n, e), cap), n)
    ensures Used(Refill(n, e), Name(0), cap) == 6 && Used(Refill(n, e), Name(1), cap) == 5
  {
    hide Used, Run, Named;
    if n == 2 {
      RefillStart(e, cap);
    } else {
      RefillRun(n - 1, e, cap);
      CallNew(Refill(n - 1, e), n - 1, 0, e, cap);
      CallNew(Refill(n - 1, e), n - 1, 1, e, cap);
    }
  }

  /** After such a run the full map would evict prompt 0, although prompt 1 was used before it. */
  lemma OverwrittenKeyIsEvictedEarly<R>(e: Entry<R>)
    ensures var ops := Refill(MAX_CLASSIFY_CACHE, e);
            var s := Run(ops, MAX_CLASSIFY_CACHE);
            && |s| == MAX_CLASSIFY_CACHE
            && Used(ops, s[1].prompt, MAX_CLASSIFY_CACHE) < Used(ops, s[0].prompt, MAX_CLASSIFY_CACHE)
  {
    hide Refill, Run, Used, Name;
    RefillRun(MAX_CLASSIFY_CACHE, e, MAX_CLASSIFY_CACHE);
  }
}
