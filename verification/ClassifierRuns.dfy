/**
 * src/content-classifier.ts: calls of classifyPrompt that overlap. A call reads the cache before its first await and
 * writes it after its last one; between the two any other call may begin, finish or observe.
 */
module ClassifierRuns {
  import opened Seqs
  import opened ClassifierChain
  import C = ClassifyCache

  /**
   * `Finish(k, marked)`: the k-th pending call gets its models' answers, with the models then marked as rejecting
   * structured output. `Observe`: a detached momentum observation reads the cache; it never writes it.
   */
  datatype Event =
    | Begin(turn: Turn, last: Option<Category>)
    | Finish(k: nat, marked: set<string>)
    | Observe(prompt: string, now: int)

  datatype Pending = Pending(turn: Turn, last: Option<Category>)

  /** The cache operations so far, which are all the cache depends on, and the calls that wait for their models. */
  datatype Sys = Sys(ops: seq<C.Op<Result>>, pending: seq<Pending>)

  function Slots(s: Sys): seq<C.Slot<Result>> {
    C.Run(s.ops, C.MAX_CLASSIFY_CACHE)
  }

  function AfterBegin(s: Sys, t: Turn, last: Option<Category>): Sys {
    Sys(
      if EarlyAnswer(t, last).Some? || t.contextBlock then s.ops else s.ops + [C.Get(t.prompt, t.started)],
      if Begun(t, last, Slots(s)).Some? then s.pending else s.pending + [Pending(t, last)])
  }

  function AfterFinish(s: Sys, k: nat, marked: set<string>): Sys
    requires k < |s.pending|
  {
    var p := s.pending[k];
    var a := Handed(p.turn, p.last, marked);
    Sys(
      if a.None? then s.ops
      else
        s.ops
        + [C.Set(p.turn.prompt, a.value.result, a.value.fromContext, p.turn.answered, Some(a.value.source))],
      s.pending[..k] + s.pending[k + 1..])
  }

  function Step(s: Sys, e: Event): Sys {
    match e
    case Begin(t, last) => AfterBegin(s, t, last)
    case Finish(k, marked) => if k < |s.pending| then AfterFinish(s, k, marked) else s
    case Observe(prompt, now) => s.(ops := s.ops + [C.Get(prompt, now)])
  }

  function After(es: seq<Event>): Sys {
    if es == [] then Sys([], []) else Step(After(es[..|es| - 1]), es[|es| - 1])
  }

  lemma AfterNext(es: seq<Event>, e: Event)
    ensures After(es + [e]) == Step(After(es), e)
  {
    assert (es + [e])[..|es|] == es;
  }

  /** The events do to the cache what the two halves of a call do. */
  lemma StepsAreCalls(s: Sys, t: Turn, last: Option<Category>, k: nat, marked: set<string>)
    ensures Slots(AfterBegin(s, t, last)) == SlotsBegun(t, last, Slots(s))
    ensures k < |s.pending| ==>
              var p := s.pending[k];
              Slots(AfterFinish(s, k, marked)) == SlotsFinished(p.turn, p.last, marked, Slots(s))
  {
    hide EarlyAnswer, Handed, C.Run, C.AfterGet, C.AfterSet;
    C.RunNext(s.ops, C.Get(t.prompt, t.started), C.MAX_CLASSIFY_CACHE);
    if k < |s.pending| {
      var p := s.pending[k];
      var a := Handed(p.turn, p.last, marked);
      if a.Some? {
        C.RunNext(
          s.ops, C.Set(p.turn.prompt, a.value.result, a.value.fromContext, p.turn.answered, Some(a.value.source)),
          C.MAX_CLASSIFY_CACHE);
      }
    }
  }

  // ---- What the cache can hold ----

  /** The slot holds what some call's models said about that prompt on its own. */
  ghost predicate Backs(t: Turn, marked: set<string>, slot: C.Slot<Result>) {
    var a := Storable(t, marked);
    && t.prompt == slot.prompt && a.Some?
    && slot.entry == C.Entry(a.value.result, t.answered, Some(a.value.source))
  }

  ghost predicate Backed(slot: C.Slot<Result>, es: seq<Event>) {
    exists i, j :: 0 <= i < j < |es| && es[i].Begin? && es[j].Finish? && Backs(es[i].turn, es[j].marked, slot)
  }

  ghost predicate BegunIn(p: Pending, es: seq<Event>) {
    exists i :: 0 <= i < |es| && es[i] == Begin(p.turn, p.last)
  }

  lemma BackedLater(slot: C.Slot<Result>, es: seq<Event>, e: Event)
    requires Backed(slot, es)
    ensures Backed(slot, es + [e])
  {
    var i, j :| 0 <= i < j < |es| && es[i].Begin? && es[j].Finish? && Backs(es[i].turn, es[j].marked, slot);
    var more := es + [e];
    assert more[i] == es[i] && more[j] == es[j];
  }

  lemma BegunLater(p: Pending, es: seq<Event>, e: Event)
    requires BegunIn(p, es) || e == Begin(p.turn, p.last)
    ensures BegunIn(p, es + [e])
  {
    var more := es + [e];
    if i :| 0 <= i < |es| && es[i] == Begin(p.turn, p.last) {
      assert more[i] == es[i];
    } else {
      assert more[|es|] == e;
    }
  }

  lemma GetKeepsSlots(slots: seq<C.Slot<Result>>, prompt: string, now: int)
    ensures forall x :: x in C.AfterGet(slots, prompt, now) ==> x in slots
  {
  }

  lemma SetKeepsSlots(
    slots: seq<C.Slot<Result>>, prompt: string, r: Result, barred: bool, now: int, origin: Option<string>)
    ensures forall x :: x in C.AfterSet(slots, prompt, r, barred, now, origin, C.MAX_CLASSIFY_CACHE)
              ==> x in slots || x == C.Slot(prompt, C.Entry(r, now, origin))
  {
  }

  lemma SlotIsOldOrStored(s: Sys, e: Event, x: C.Slot<Result>)
    requires x in Slots(Step(s, e))
    ensures x in Slots(s) || (e.Finish? && e.k < |s.pending| && Backs(s.pending[e.k].turn, e.marked, x))
  {
    hide EarlyAnswer, Handed, Storable, C.AfterGet, C.AfterSet, C.Run, SlotsFinished;
    match e
    case Begin(t, last) =>
      StepsAreCalls(s, t, last, |s.pending|, {});
      GetKeepsSlots(Slots(s), t.prompt, t.started);
    case Observe(prompt, now) =>
      C.RunNext(s.ops, C.Get(prompt, now), C.MAX_CLASSIFY_CACHE);
      GetKeepsSlots(Slots(s), prompt, now);
    case Finish(k, marked) =>
      if k < |s.pending| {
        var p := s.pending[k];
        var a := Storable(p.turn, marked);
        StepsAreCalls(s, p.turn, p.last, k, marked);
        StoredIsContextFree(p.turn, p.last, marked, Slots(s));
        if a.Some? {
          SetKeepsSlots(Slots(s), p.turn.prompt, a.value.result, false, p.turn.answered, Some(a.value.source));
        }
      }
  }

  lemma {:induction false} PendingWereBegun(es: seq<Event>)
    ensures forall k :: 0 <= k < |After(es).pending| ==> BegunIn(After(es).pending[k], es)
  {
    if es != [] {
      hide BegunIn;
      var before, e := es[..|es| - 1], es[|es| - 1];
      PendingWereBegun(before);
      assert es == before + [e];
      forall p | p in After(es).pending ensures BegunIn(p, es) {
        assert p in After(before).pending || e == Begin(p.turn, p.last);
        BegunLater(p, before, e);
      }
    }
  }

  /** However calls overlap, every cached result is what the models of one of them said about that prompt alone. */
  lemma {:induction false} CacheHoldsOnlyModelAnswers(es: seq<Event>, x: C.Slot<Result>)
    requires x in Slots(After(es))
    ensures Backed(x, es)
  {
    if es != [] {
      hide Slots, Backs, Step;
      var before, e := es[..|es| - 1], es[|es| - 1];
      var s := After(before);
      assert es == before + [e];
      SlotIsOldOrStored(s, e, x);
      if x in Slots(s) {
        CacheHoldsOnlyModelAnswers(before, x);
        BackedLater(x, before, e);
      } else {
        PendingWereBegun(before);
        assert BegunIn(s.pending[e.k], before);
      }
    } else {
      assert false;
    }
  }

  // ---- When eviction is by use ----

  /** Calls for the prompt that may still write the cache. */
  function Waiting(ps: seq<Pending>, prompt: string): nat {
    if ps == [] then 0
    else (if ps[0].turn.prompt == prompt && !ps[0].turn.contextBlock then 1 else 0) + Waiting(ps[1..], prompt)
  }

  /** At no time do two calls for the prompt wait for their models. */
  ghost predicate NeverOverlaps(es: seq<Event>, prompt: string) {
    forall n :: 0 <= n <= |es| ==> Waiting(After(es[..n]).pending, prompt) <= 1
  }

  lemma {:induction false} WaitingParts(a: seq<Pending>, b: seq<Pending>, prompt: string)
    ensures Waiting(a + b, prompt) == Waiting(a, prompt) + Waiting(b, prompt)
  {
    if a == [] {
      assert a + b == b;
    } else {
      assert (a + b)[1..] == a[1..] + b;
      WaitingParts(a[1..], b, prompt);
    }
  }

  lemma WaitingFinish(ps: seq<Pending>, k: nat, prompt: string)
    requires k < |ps|
    ensures Waiting(ps, prompt) ==
            Waiting(ps[..k] + ps[k + 1..], prompt)
            + (if ps[k].turn.prompt == prompt && !ps[k].turn.contextBlock then 1 else 0)
  {
    assert ps == ps[..k] + ([ps[k]] + ps[k + 1..]);
    WaitingParts(ps[..k], [ps[k]] + ps[k + 1..], prompt);
    WaitingParts([ps[k]], ps[k + 1..], prompt);
    WaitingParts(ps[..k], ps[k + 1..], prompt);
  }

  lemma MissedIsNotHeld(ops: seq<C.Op<Result>>, prompt: string, now: int)
    requires C.Lookup(C.Run(ops, C.MAX_CLASSIFY_CACHE), prompt, now).None?
    ensures !C.Holds(C.Run(ops + [C.Get(prompt, now)], C.MAX_CLASSIFY_CACHE), prompt)
  {
    hide C.LastWrite, C.Placed, C.Run;
    var s := C.Run(ops, C.MAX_CLASSIFY_CACHE);
    C.RunsKeepInv(ops, C.MAX_CLASSIFY_CACHE);
    C.OrderedUnique(ops, s, C.MAX_CLASSIFY_CACHE);
    C.DeleteRemoves(s, prompt);
    C.RunNext(ops, C.Get(prompt, now), C.MAX_CLASSIFY_CACHE);
  }

  lemma GetAddsNothing(ops: seq<C.Op<Result>>, p: string, now: int, prompt: string)
    requires !C.Holds(C.Run(ops, C.MAX_CLASSIFY_CACHE), prompt)
    ensures !C.Holds(C.Run(ops + [C.Get(p, now)], C.MAX_CLASSIFY_CACHE), prompt)
  {
    hide C.Run, C.AfterGet;
    C.RunNext(ops, C.Get(p, now), C.MAX_CLASSIFY_CACHE);
    GetKeepsSlots(C.Run(ops, C.MAX_CLASSIFY_CACHE), p, now);
    HeldIn(C.AfterGet(C.Run(ops, C.MAX_CLASSIFY_CACHE), p, now), prompt);
  }

  lemma HeldIn(s: seq<C.Slot<Result>>, prompt: string)
    ensures C.Holds(s, prompt) ==> exists x :: x in s && x.prompt == prompt
  {
    if k :| 0 <= k < |s| && s[k].prompt == prompt {
      assert s[k] in s;
    }
  }

  lemma SetAddsItsOwn(ops: seq<C.Op<Result>>, op: C.Op<Result>, prompt: string)
    requires !C.Holds(C.Run(ops, C.MAX_CLASSIFY_CACHE), prompt) && op.Set?
    ensures op.prompt != prompt ==> !C.Holds(C.Run(ops + [op], C.MAX_CLASSIFY_CACHE), prompt)
    ensures !C.Overwrites(C.Run(ops, C.MAX_CLASSIFY_CACHE), op, prompt, C.MAX_CLASSIFY_CACHE)
  {
    hide C.Run;
    C.RunNext(ops, op, C.MAX_CLASSIFY_CACHE);
    hide C.AfterSet;
    SetKeepsSlots(C.Run(ops, C.MAX_CLASSIFY_CACHE), op.prompt, op.result, op.barred, op.now, op.origin);
    HeldIn(C.Run(ops + [op], C.MAX_CLASSIFY_CACHE), prompt);
  }

  ghost predicate NoOverwrite(ops: seq<C.Op<Result>>, prompt: string) {
    !C.OverwrittenSince(ops, prompt, 0, C.MAX_CLASSIFY_CACHE)
  }

  lemma NoOverwriteNext(ops: seq<C.Op<Result>>, op: C.Op<Result>, prompt: string)
    requires NoOverwrite(ops, prompt)
    requires !C.Overwrites(C.Run(ops, C.MAX_CLASSIFY_CACHE), op, prompt, C.MAX_CLASSIFY_CACHE)
    ensures NoOverwrite(ops + [op], prompt)
  {
    hide C.Run, C.Overwrites;
    var more := ops + [op];
    forall n | 0 <= n < |more|
      ensures !C.Overwrites(C.Run(more[..n], C.MAX_CLASSIFY_CACHE), more[n], prompt, C.MAX_CLASSIFY_CACHE)
    {
      assert more[..n] == ops[..n];
    }
  }

  /** While a call for the prompt waits, the cache does not hold it, and its entry was never overwritten in place. */
  ghost predicate Quiet(s: Sys, prompt: string) {
    && NoOverwrite(s.ops, prompt)
    && (Waiting(s.pending, prompt) > 0 ==> !C.Holds(Slots(s), prompt))
  }

  lemma BeginKeepsQuiet(s: Sys, t: Turn, last: Option<Category>, prompt: string)
    requires Quiet(s, prompt)
    ensures Quiet(AfterBegin(s, t, last), prompt)
  {
    hide EarlyAnswer, C.Holds, C.Lookup, C.Run, NoOverwrite;
    var op: C.Op<Result> := C.Get(t.prompt, t.started);
    NoOverwriteNextGet(s.ops, t.prompt, t.started, prompt);
    WaitingParts(s.pending, [Pending(t, last)], prompt);
    if !C.Holds(Slots(s), prompt) { GetAddsNothing(s.ops, t.prompt, t.started, prompt); }
    if t.prompt == prompt && C.Lookup(Slots(s), prompt, t.started).None? { MissedIsNotHeld(s.ops, prompt, t.started); }
  }

  lemma NoOverwriteNextGet(ops: seq<C.Op<Result>>, p: string, now: int, prompt: string)
    requires NoOverwrite(ops, prompt)
    ensures NoOverwrite(ops + [C.Get(p, now)], prompt)
  {
    hide NoOverwrite, C.Run;
    NoOverwriteNext(ops, C.Get(p, now), prompt);
  }

  lemma FinishKeepsQuiet(s: Sys, k: nat, marked: set<string>, prompt: string)
    requires Quiet(s, prompt) && k < |s.pending| && Waiting(s.pending, prompt) <= 1
    ensures Quiet(AfterFinish(s, k, marked), prompt)
  {
    hide C.Holds, C.Run, C.Overwrites, NoOverwrite, Handed;
    WaitingFinish(s.pending, k, prompt);
    var p := s.pending[k];
    var a := Handed(p.turn, p.last, marked);
    if a.Some? {
      HandedStandsAlone(p.turn, p.last, marked);
      var op := C.Set(p.turn.prompt, a.value.result, a.value.fromContext, p.turn.answered, Some(a.value.source));
      if !C.Holds(Slots(s), prompt) { SetAddsItsOwn(s.ops, op, prompt); }
      if op.prompt != prompt { OthersDoNotOverwrite(Slots(s), op, prompt); }
      NoOverwriteNext(s.ops, op, prompt);
    }
  }

  lemma HandedStandsAlone(t: Turn, last: Option<Category>, marked: set<string>)
    requires Handed(t, last, marked).Some?
    ensures !t.contextBlock
  {
  }

  lemma OthersDoNotOverwrite(s: seq<C.Slot<Result>>, op: C.Op<Result>, prompt: string)
    requires op.prompt != prompt
    ensures !C.Overwrites(s, op, prompt, C.MAX_CLASSIFY_CACHE)
  {
  }

  lemma StepKeepsQuiet(s: Sys, e: Event, prompt: string)
    requires Quiet(s, prompt) && Waiting(s.pending, prompt) <= 1
    ensures Quiet(Step(s, e), prompt)
  {
    hide C.Holds, C.Run, NoOverwrite, AfterBegin, AfterFinish;
    match e
    case Begin(t, last) => BeginKeepsQuiet(s, t, last, prompt);
    case Finish(k, marked) => if k < |s.pending| { FinishKeepsQuiet(s, k, marked, prompt); }
    case Observe(p, now) =>
      NoOverwriteNextGet(s.ops, p, now, prompt);
      if !C.Holds(Slots(s), prompt) { GetAddsNothing(s.ops, p, now, prompt); }
  }

  lemma {:induction false} RunsKeepQuiet(es: seq<Event>, prompt: string)
    requires NeverOverlaps(es, prompt)
    ensures Quiet(After(es), prompt)
  {
    if es != [] {
      hide Quiet, Step, Waiting;
      var n := |es| - 1;
      forall m | 0 <= m <= n ensures Waiting(After(es[..n][..m]).pending, prompt) <= 1 {
        assert es[..n][..m] == es[..m];
      }
      RunsKeepQuiet(es[..n], prompt);
      StepKeepsQuiet(After(es[..n]), es[n], prompt);
    }
  }

  /**
   * If calls for the entry to be evicted next never overlapped, every other entry was used after it, however calls for
   * other prompts overlapped.
   */
  lemma EvictionIsByUse(es: seq<Event>, i: nat)
    requires 0 < i < |Slots(After(es))|
    requires NeverOverlaps(es, Slots(After(es))[0].prompt)
    ensures var ops, s := After(es).ops, Slots(After(es));
            C.Used(ops, s[0].prompt, C.MAX_CLASSIFY_CACHE) < C.Used(ops, s[i].prompt, C.MAX_CLASSIFY_CACHE)
  {
    hide C.Run, C.Used, C.Overwrites, NeverOverlaps;
    RunsKeepQuiet(es, Slots(After(es))[0].prompt);
    C.EvictsLeastRecentlyUsedIff(After(es).ops, i);
  }

  // ---- Two overlapping calls for one prompt ----

  /** Any turn an active Laya answers. */
  ghost predicate Answerable(t: Turn) {
    EarlyAnswer(t, None).None? && !t.contextBlock && LayaAnswer(t).Some? && t.started == t.answered
  }

  function Entry(t: Turn): C.Entry<Result>
    requires Answerable(t)
  {
    C.Entry(LayaAnswer(t).value.result, t.answered, Some(LayaAnswer(t).value.source))
  }

  /** The same turn with prompt number `k`. */
  function Asking(t: Turn, k: nat): Turn {
    t.(prompt := C.Name(k))
  }

  /**
   * The two calls for prompt 0 begin; one finishes; prompt 1 is asked and answered; the other finishes; the rest
   * follow.
   */
  function Overlapping(t: Turn, n: nat): seq<Event>
    requires 2 <= n
  {
    if n == 2 then
      [Begin(Asking(t, 0), None), Begin(Asking(t, 0), None), Finish(0, {}),
       Begin(Asking(t, 1), None), Finish(1, {}), Finish(0, {})]
    else Overlapping(t, n - 1) + [Begin(Asking(t, n - 1), None), Finish(0, {})]
  }

  lemma BeginAsks(s: Sys, t: Turn, k: nat)
    requires Answerable(t) && !C.Holds(Slots(s), C.Name(k))
    ensures AfterBegin(s, Asking(t, k), None)
            == Sys(s.ops + [C.Ask(k, Entry(t))], s.pending + [Pending(Asking(t, k), None)])
  {
    hide C.Run, C.Name;
  }

  lemma FinishStores(s: Sys, t: Turn, k: nat, i: nat)
    requires Answerable(t) && i < |s.pending| && s.pending[i] == Pending(Asking(t, k), None)
    ensures AfterFinish(s, i, {})
            == Sys(s.ops + [C.Store(k, Entry(t))], s.pending[..i] + s.pending[i + 1..])
  {
    hide C.Run, C.Name;
  }

  /** One call on its own, for a prompt not yet held. */
  lemma CallAppends(es: seq<Event>, t: Turn, k: nat)
    requires Answerable(t) && After(es).pending == [] && !C.Holds(Slots(After(es)), C.Name(k))
    ensures After(es + [Begin(Asking(t, k), None), Finish(0, {})])
            == Sys(After(es).ops + [C.Ask(k, Entry(t)), C.Store(k, Entry(t))], [])
  {
    hide C.Run, C.Name, AfterBegin, AfterFinish, Answerable, Asking, Entry, C.Ask, C.Store, C.Holds;
    var begun := es + [Begin(Asking(t, k), None)];
    assert es + [Begin(Asking(t, k), None), Finish(0, {})] == begun + [Finish(0, {})];
    AfterNext(es, Begin(Asking(t, k), None));
    AfterNext(begun, Finish(0, {}));
    BeginAsks(After(es), t, k);
    assert After(begun).pending == [Pending(Asking(t, k), None)];
    FinishStores(After(begun), t, k, 0);
  }

  lemma NotHeld(s: seq<C.Slot<Result>>, n: nat)
    requires C.Named(s, n)
    ensures !C.Holds(s, C.Name(n))
  {
    hide C.Name;
    C.NotYetHeld(s, n);
  }

  lemma Fresh()
    ensures After([]) == Sys([], []) && Slots(Sys([], [])) == []
  {
  }

  lemma FirstAsks(t: Turn)
    requires Answerable(t)
    ensures After([Begin(Asking(t, 0), None), Begin(Asking(t, 0), None)])
            == Sys([C.Ask(0, Entry(t)), C.Ask(0, Entry(t))], [Pending(Asking(t, 0), None), Pending(Asking(t, 0), None)])
  {
    hide C.Run, C.Name, AfterBegin, Answerable, Asking, Entry;
    var e, begin, p := Entry(t), Begin(Asking(t, 0), None), Pending(Asking(t, 0), None);
    Fresh();
    C.FirstAsk(e, C.MAX_CLASSIFY_CACHE);
    BeginAsks(Sys([], []), t, 0);
    assert [] + [C.Ask(0, e)] == [C.Ask(0, e)] && [] + [p] == [p] && [] + [begin] == [begin];
    AfterNext([], begin);
    BeginAsks(After([begin]), t, 0);
    AfterNext([begin], begin);
    assert [begin] + [begin] == [begin, begin];
  }

  lemma OverlappingStart(t: Turn)
    requires Answerable(t)
    ensures After(Overlapping(t, 2)) == Sys(C.Refill(2, Entry(t)), [])
  {
    hide C.Run, C.Name, AfterBegin, AfterFinish, Answerable, Asking, Entry;
    var e := Entry(t);
    var p0, p1 := Pending(Asking(t, 0), None), Pending(Asking(t, 1), None);
    var e2 := [Begin(Asking(t, 0), None), Begin(Asking(t, 0), None)];
    var e3 := e2 + [Finish(0, {})];
    var e4 := e3 + [Begin(Asking(t, 1), None)];
    var e5 := e4 + [Finish(1, {})];
    assert Overlapping(t, 2) == e5 + [Finish(0, {})];
    FirstAsks(t);
    AfterNext(e2, Finish(0, {}));
    FinishStores(After(e2), t, 0, 0);
    assert After(e3) == Sys([C.Ask(0, e)] + [C.Ask(0, e), C.Store(0, e)], [p0]);
    C.FirstAsk(e, C.MAX_CLASSIFY_CACHE);
    C.CallNew([C.Ask(0, e)], 0, 0, e, C.MAX_CLASSIFY_CACHE);
    NotHeld(Slots(After(e3)), 1);
    AfterNext(e3, Begin(Asking(t, 1), None));
    BeginAsks(After(e3), t, 1);
    AfterNext(e4, Finish(1, {}));
    FinishStores(After(e4), t, 1, 1);
    assert After(e5).pending == [p0];
    AfterNext(e5, Finish(0, {}));
    FinishStores(After(e5), t, 0, 0);
    assert After(Overlapping(t, 2)).ops == C.Refill(2, e);
  }

  lemma {:induction false} OverlappingRuns(t: Turn, n: nat)
    requires Answerable(t) && 2 <= n <= C.MAX_CLASSIFY_CACHE
    ensures After(Overlapping(t, n)) == Sys(C.Refill(n, Entry(t)), [])
  {
    hide C.Run, C.Name, After, Answerable, Asking, Entry;
    if n == 2 {
      OverlappingStart(t);
    } else {
      OverlappingRuns(t, n - 1);
      C.RefillRun(n - 1, Entry(t), C.MAX_CLASSIFY_CACHE);
      NotHeld(Slots(After(Overlapping(t, n - 1))), n - 1);
      CallAppends(Overlapping(t, n - 1), t, n - 1);
    }
  }

  /**
   * Two overlapping calls for one prompt: afterwards the full map evicts prompt 0 next, which was used after prompt 1.
   */
  lemma OverlapEvictsEarly(t: Turn)
    requires Answerable(t)
    ensures var sys := After(Overlapping(t, C.MAX_CLASSIFY_CACHE));
            var s := Slots(sys);
            && |s| == C.MAX_CLASSIFY_CACHE && sys.pending == []
            && C.Used(sys.ops, s[1].prompt, C.MAX_CLASSIFY_CACHE) < C.Used(sys.ops, s[0].prompt, C.MAX_CLASSIFY_CACHE)
  {
    hide C.Run, C.Refill, C.Used, Overlapping, After, Answerable, Entry;
    OverlappingRuns(t, C.MAX_CLASSIFY_CACHE);
    C.OverwrittenKeyIsEvictedEarly(Entry(t));
  }
}
