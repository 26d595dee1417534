/**
 * src/content-classifier.ts: the legs classifyPrompt tries in turn. Everything the network, the daemon, the registry
 * or a regular expression decides is part of a Turn; the previous turn's category is not, and is passed beside it.
 */
module ClassifierChain {
  import opened Seqs
  import C = ClassifyCache

  const CONTINUATION_MAX_WORDS: nat := 4
  const MIN_CONFIDENCE: real := 0.5

  datatype Category = Simple | CodeSimple | Standard | CodeComplex | Design | Planning | Continue

  datatype Result =
    | Categorised(category: Category, reason: string, confidence: Option<real>)
    | Hint(target: string, reason: string)

  /** `fromContext`: the result is in contextDerived. */
  datatype Answer = Answer(result: Result, fromContext: bool, source: string)

  /** What asking one model comes to. */
  datatype Reply =
    | Unusable
    | NoSchema
    | Skipped
    | Valid(category: Category, reason: string, confidence: Option<real>)
    | ReadyHint(hint: Result)
    | RawHint(usable: Option<Result>)
    | UnknownCategory(text: Option<string>, given: Option<real>)

  datatype Laya = Laya(enabled: bool, active: bool, checkpoint: string, result: Option<Result>)

  datatype Compaction =
    | NoCompaction
    | Compacting(lastModel: Option<string>, limited: bool, freeTier: bool, metaRouter: bool, fits: bool)

  /** `excluded`: the refs cfg.exclude rejects as excluded or paid; None without cfg.exclude. */
  datatype Turn = Turn(
    prompt: string, words: nat, directHint: Option<Result>, compaction: Compaction, contextBlock: bool,
    started: int, answered: int, laya: Laya,
    allowCloud: bool, probed: seq<string>, discovered: seq<string>, freeModels: seq<string>, pinned: Option<string>,
    excluded: Option<set<string>>, cloud: string -> Reply, hintMarker: bool,
    primary: Option<string>, fallback: Option<string>, wedged: bool, available: bool, local: string -> Reply,
    allowStatic: bool, staticResult: Result)

  // ---- Specification ----

  /** applyConfidenceGate */
  function Gate(category: Category, reason: string, confidence: Option<real>, last: Option<Category>, source: string)
    : Answer
  {
    if confidence.None? || confidence.value >= MIN_CONFIDENCE then
      Answer(Categorised(category, reason, confidence), false, source)
    else
      Answer(
        Categorised(
          if last.Some? then last.value else Continue,
          if last.Some? then "Low confidence: using prior context" else "Low confidence: falling back",
          confidence),
        true, source)
  }

  /** What one cloud candidate contributes; None moves on to the next. */
  function CloudAnswer(t: Turn, ref: string, last: Option<Category>): Option<Answer> {
    match t.cloud(ref)
    case Valid(category, reason, confidence) => Some(Gate(category, reason, confidence, last, "cloud:" + ref))
    case ReadyHint(hint) => Some(Answer(hint, false, "cloud:" + ref))
    case RawHint(usable) =>
      if t.hintMarker && usable.Some? then Some(Answer(usable.value, false, "cloud:" + ref)) else None
    case _ => None
  }

  /** The first list that has something to offer: probed, discovered, free. */
  function Offered(t: Turn): seq<string> {
    if t.probed != [] then t.probed else if t.discovered != [] then t.discovered else t.freeModels
  }

  /** An empty pin is none. */
  function Pin(t: Turn): set<string> {
    if t.pinned.Some? && t.pinned.value != "" then {t.pinned.value} else {}
  }

  function Excluded(t: Turn): set<string> {
    if t.excluded.Some? then t.excluded.value else {}
  }

  /** The refs tryCloud goes through, in order. */
  function Candidates(t: Turn): seq<string> {
    Without((if Pin(t) == {} then [] else [t.pinned.value]) + Without(Offered(t), Pin(t)), Excluded(t))
  }

  /** tryCloud from candidate `k` on. */
  function CloudLeg(t: Turn, last: Option<Category>, k: nat): Option<Answer>
    requires k <= |Candidates(t)|
    decreases |Candidates(t)| - k
  {
    if !t.allowCloud || k == |Candidates(t)| then None
    else
      var a := CloudAnswer(t, Candidates(t)[k], last);
      if a.Some? then a else CloudLeg(t, last, k + 1)
  }

  /** tryClassify: what one local model contributes; None is an exception. */
  function LocalAnswer(t: Turn, model: string, last: Option<Category>): Option<Answer> {
    var source := "ollama:" + model;
    match t.local(model)
    case Valid(category, reason, confidence) => Some(Gate(category, reason, confidence, last, source))
    case ReadyHint(hint) => Some(Answer(hint, false, source))
    case RawHint(usable) =>
      if usable.Some? then Some(Answer(usable.value, false, source))
      else Some(Answer(Categorised(Continue, "Empty or malformed HINT target from LLM", Some(0.5)), false, source))
    case UnknownCategory(text, given) =>
      if text.Some?
      then Some(Answer(Categorised(Continue, text.value, if given.Some? then given else Some(0.0)), false, source))
      else None
    case _ => None
  }

  function RetryTarget(t: Turn): Option<string> {
    if t.fallback.Some? && t.fallback != t.primary then t.fallback else None
  }

  /** tryOllama, with the set of models marked as rejecting structured output. */
  function LocalLeg(t: Turn, last: Option<Category>, marked: set<string>): Option<Answer> {
    if t.primary.None? || t.wedged || !t.available then None
    else
      var first := if t.primary.value in marked then None else LocalAnswer(t, t.primary.value, last);
      if first.Some? || RetryTarget(t).None? then first else LocalAnswer(t, RetryTarget(t).value, last)
  }

  function MarkedAfter(t: Turn, marked: set<string>): set<string> {
    if t.primary.Some? && !t.wedged && t.available && t.primary.value !in marked && t.local(t.primary.value).NoSchema?
    then marked + {t.primary.value} else marked
  }

  /** The answer of a model, cloud before local; None falls through to the static leg. */
  function ModelAnswer(t: Turn, last: Option<Category>, marked: set<string>): Option<Answer> {
    var cloud := CloudLeg(t, last, 0);
    if cloud.Some? then cloud else LocalLeg(t, last, marked)
  }

  function LayaAnswer(t: Turn): Option<Answer> {
    if t.laya.enabled && t.laya.active && t.laya.result.Some?
    then Some(Answer(t.laya.result.value, false, "laya:" + t.laya.checkpoint)) else None
  }

  function StaticAnswer(t: Turn): Answer {
    if t.allowStatic then Answer(t.staticResult, false, "static")
    else Answer(Categorised(Continue, "Ollama unavailable, static classifier disabled", Some(0.0)), false, "fallback")
  }

  /** The deterministic early returns; None goes on to the cache and the models. */
  function EarlyAnswer(t: Turn, last: Option<Category>): Option<Answer> {
    if t.directHint.Some? then Some(Answer(t.directHint.value, false, "hint"))
    else if t.compaction.Compacting? then
      var c := t.compaction;
      if c.lastModel.Some? && !c.limited && !c.freeTier && !c.metaRouter && c.fits
      then Some(Answer(Hint(c.lastModel.value, "Model continuity during compaction"), false, "compaction"))
      else Some(Answer(Categorised(CodeComplex, "Compaction", Some(0.9)), false, "compaction"))
    else if last.Some? && t.words <= CONTINUATION_MAX_WORDS
    then
      var result := Categorised(last.value, "Short prompt: inheriting previous task context", Some(0.85));
      Some(Answer(result, false, "momentum"))
    else None
  }

  /** What the legs after the cache produce. */
  function ChainAnswer(t: Turn, last: Option<Category>, marked: set<string>): Answer {
    if LayaAnswer(t).Some? then LayaAnswer(t).value
    else if ModelAnswer(t, last, marked).Some? then ModelAnswer(t, last, marked).value
    else StaticAnswer(t)
  }

  function Cached(t: Turn, slots: seq<C.Slot<Result>>): Option<C.Entry<Result>> {
    if t.contextBlock then None else C.Lookup(slots, t.prompt, t.started)
  }

  /** The result of a call that needs no model, before anything is awaited. */
  function Begun(t: Turn, last: Option<Category>, slots: seq<C.Slot<Result>>): Option<Result> {
    if EarlyAnswer(t, last).Some? then Some(EarlyAnswer(t, last).value.result)
    else if Cached(t, slots).Some? then Some(Cached(t, slots).value.result)
    else None
  }

  function SlotsBegun(t: Turn, last: Option<Category>, slots: seq<C.Slot<Result>>): seq<C.Slot<Result>> {
    if EarlyAnswer(t, last).Some? || t.contextBlock then slots else C.AfterGet(slots, t.prompt, t.started)
  }

  /** What a call that went on to the models hands to the cache. */
  function Handed(t: Turn, last: Option<Category>, marked: set<string>): Option<Answer> {
    if t.contextBlock then None
    else if LayaAnswer(t).Some? then LayaAnswer(t)
    else ModelAnswer(t, last, marked)
  }

  function SlotsFinished(t: Turn, last: Option<Category>, marked: set<string>, slots: seq<C.Slot<Result>>)
    : seq<C.Slot<Result>>
  {
    var a := Handed(t, last, marked);
    if a.None? then slots
    else
      C.AfterSet(slots, t.prompt, a.value.result, a.value.fromContext, t.answered, Some(a.value.source),
                 C.MAX_CLASSIFY_CACHE)
  }

  /** The result of a call no other call overlaps. */
  function Uncounted(t: Turn, last: Option<Category>, marked: set<string>, slots: seq<C.Slot<Result>>): Result {
    if Begun(t, last, slots).Some? then Begun(t, last, slots).value else ChainAnswer(t, last, marked).result
  }

  function SlotsAfter(t: Turn, last: Option<Category>, marked: set<string>, slots: seq<C.Slot<Result>>)
    : seq<C.Slot<Result>>
  {
    var begun := SlotsBegun(t, last, slots);
    if Begun(t, last, slots).Some? then begun else SlotsFinished(t, last, marked, begun)
  }

  /** inheritPreviousCategory */
  function Inherit(result: Result, last: Option<Category>): Result {
    if result.Categorised? && result.category == Continue && last.Some? && last.value != Continue
    then result.(category := last.value, reason := "Continue classification: inheriting previous task category")
    else result
  }

  // ---- The chain as the code runs it ----

  class Classifier {
    const cache: C.Cache<Result>
    var marked: set<string>

    constructor ()
      ensures fresh(cache) && cache.slots == [] && marked == {}
    {
      cache := new C.Cache();
      marked := {};
    }

    method CloudCandidates(t: Turn) returns (refs: seq<string>)
      ensures refs == Candidates(t)
    {
      refs := t.probed;
      if |refs| == 0 { refs := t.discovered; }
      if |refs| == 0 { refs := t.freeModels; }
      if t.pinned.Some? && t.pinned.value != "" {
        refs := [t.pinned.value] + Without(refs, {t.pinned.value});
      } else {
        WithoutNothing(refs, {});
        assert refs == [] + refs;
      }
      if t.excluded.Some? {
        refs := Without(refs, t.excluded.value);
      } else {
        WithoutNothing(refs, {});
      }
      assert t.pinned.Some? && t.pinned.value != "" ==> t.pinned.value in Pin(t);
    }

    method TryCloud(t: Turn, last: Option<Category>) returns (r: Option<Answer>)
      ensures r == CloudLeg(t, last, 0)
    {
      hide Candidates;
      if !t.allowCloud { return None; }
      var refs := CloudCandidates(t);
      for k := 0 to |refs|
        invariant CloudLeg(t, last, 0) == CloudLeg(t, last, k)
      {
        var ref := refs[k];
        match t.cloud(ref) {
          case Skipped => continue;
          case Unusable => continue;
          case NoSchema => continue;
          case UnknownCategory(_, _) => continue;
          case ReadyHint(hint) => return Some(Answer(hint, false, "cloud:" + ref));
          case RawHint(usable) =>
            if !t.hintMarker || usable.None? { continue; }
            return Some(Answer(usable.value, false, "cloud:" + ref));
          case Valid(category, reason, confidence) =>
            return Some(Gate(category, reason, confidence, last, "cloud:" + ref));
        }
      }
      r := None;
    }

    method TryOllama(t: Turn, last: Option<Category>) returns (r: Option<Answer>)
      modifies this
      ensures r == LocalLeg(t, last, old(marked)) && marked == MarkedAfter(t, old(marked))
    {
      r := None;
      if t.primary.None? || t.wedged || !t.available { return; }
      var primary := t.primary.value;
      var retryTarget := RetryTarget(t);
      if primary in marked {
        if retryTarget.Some? { r := LocalAnswer(t, retryTarget.value, last); }
        return;
      }
      r := LocalAnswer(t, primary, last);
      if r.None? {
        if t.local(primary).NoSchema? { marked := marked + {primary}; }
        if retryTarget.Some? { r := LocalAnswer(t, retryTarget.value, last); }
      }
    }

    method ClassifyViaLlmChain(t: Turn, last: Option<Category>) returns (r: Result)
      modifies this, cache
      ensures var a := ModelAnswer(t, last, old(marked));
              && r == (if a.Some? then a.value.result else StaticAnswer(t).result)
              && cache.slots ==
                 (if a.None? || t.contextBlock then old(cache.slots)
                  else C.AfterSet(old(cache.slots), t.prompt, a.value.result, a.value.fromContext, t.answered,
                                  Some(a.value.source), C.MAX_CLASSIFY_CACHE))
      ensures marked == (if CloudLeg(t, last, 0).Some? then old(marked) else MarkedAfter(t, old(marked)))
    {
      var found := TryCloud(t, last);
      if found.None? { found := TryOllama(t, last); }
      if found.Some? {
        var a := found.value;
        if !t.contextBlock {
          cache.ClassifyCacheSet(t.prompt, a.result, a.fromContext, false, t.answered, Some(a.source));
        }
        return a.result;
      }
      return StaticAnswer(t).result;
    }

    /** classifyPromptUncounted up to its first await. */
    method BeginCall(t: Turn, last: Option<Category>) returns (r: Option<Result>)
      modifies cache
      ensures r == Begun(t, last, old(cache.slots))
      ensures cache.slots == SlotsBegun(t, last, old(cache.slots))
    {
      hide EarlyAnswer, C.AfterGet, C.Lookup;
      var early := EarlyAnswer(t, last);
      if early.Some? { return Some(early.value.result); }
      if !t.contextBlock {
        var cached := cache.ClassifyCacheGet(t.prompt, t.started);
        if cached.Some? { return Some(cached.value.result); }
      }
      r := None;
    }

    /** The rest of it; other calls may have run since, so that the cache and the marks may have changed. */
    method FinishCall(t: Turn, last: Option<Category>) returns (r: Result)
      modifies this, cache
      ensures r == ChainAnswer(t, last, old(marked)).result
      ensures cache.slots == SlotsFinished(t, last, old(marked), old(cache.slots))
    {
      hide ModelAnswer, MarkedAfter, StaticAnswer, C.Put, C.Evict;
      if t.laya.enabled && t.laya.active && t.laya.result.Some? {
        if !t.contextBlock {
          cache.ClassifyCacheSet(
            t.prompt, t.laya.result.value, false, false, t.answered, Some("laya:" + t.laya.checkpoint));
        }
        return t.laya.result.value;
      }
      r := ClassifyViaLlmChain(t, last);
    }

    method ClassifyPromptUncounted(t: Turn, last: Option<Category>) returns (r: Result)
      modifies this, cache
      ensures r == Uncounted(t, last, old(marked), old(cache.slots))
      ensures cache.slots == SlotsAfter(t, last, old(marked), old(cache.slots))
    {
      hide Begun, SlotsBegun, ChainAnswer, SlotsFinished;
      var begun := BeginCall(t, last);
      if begun.Some? { return begun.value; }
      r := FinishCall(t, last);
    }

    method ClassifyPrompt(t: Turn, last: Option<Category>) returns (r: Result)
      modifies this, cache
      ensures r == Inherit(Uncounted(t, last, old(marked), old(cache.slots)), last)
      ensures cache.slots == SlotsAfter(t, last, old(marked), old(cache.slots))
    {
      var raw := ClassifyPromptUncounted(t, last);
      r := Inherit(raw, last);
    }
  }

  // ---- Which refs tryCloud asks ----

  /** Excluded refs are never asked; every other offered ref is, and a pinned one once, before all others. */
  lemma CandidatesAre(t: Turn, ref: string)
    ensures ref in Candidates(t) <==> (ref in Offered(t) || ref in Pin(t)) && ref !in Excluded(t)
    ensures ref in Pin(t) && ref !in Excluded(t) ==> Candidates(t)[0] == ref && ref !in Candidates(t)[1..]
  {
    hide Offered;
    var rest := Without(Offered(t), Pin(t));
    WithoutIs(Offered(t), Pin(t), ref);
    WithoutIs(rest, Excluded(t), ref);
    if Pin(t) != {} {
      var refs := [t.pinned.value] + rest;
      WithoutIs(refs, Excluded(t), ref);
      WithoutSum([t.pinned.value], rest, Excluded(t));
      WithoutOne(t.pinned.value, Excluded(t));
    } else {
      assert [] + rest == rest;
    }
  }

  /** The cloud leg answers with the first candidate that has an answer, and fails only if none has. */
  lemma {:induction false} CloudLegIsFirst(t: Turn, last: Option<Category>, k: nat)
    requires t.allowCloud && k <= |Candidates(t)|
    ensures CloudLeg(t, last, k).None? ==>
              forall j :: k <= j < |Candidates(t)| ==> CloudAnswer(t, Candidates(t)[j], last).None?
    ensures CloudLeg(t, last, k).Some? ==>
              exists j :: k <= j < |Candidates(t)| && FirstAnswer(t, last, k, j)
                          && CloudLeg(t, last, k) == CloudAnswer(t, Candidates(t)[j], last)
    decreases |Candidates(t)| - k
  {
    hide Candidates, CloudAnswer;
    if k < |Candidates(t)| {
      if CloudAnswer(t, Candidates(t)[k], last).Some? {
        assert FirstAnswer(t, last, k, k);
      } else {
        CloudLegIsFirst(t, last, k + 1);
        if CloudLeg(t, last, k).Some? {
          var j :| k + 1 <= j < |Candidates(t)| && FirstAnswer(t, last, k + 1, j)
                   && CloudLeg(t, last, k + 1) == CloudAnswer(t, Candidates(t)[j], last);
          assert FirstAnswer(t, last, k, j);
        }
      }
    }
  }

  ghost predicate FirstAnswer(t: Turn, last: Option<Category>, k: nat, j: nat) {
    && k <= j < |Candidates(t)| && CloudAnswer(t, Candidates(t)[j], last).Some?
    && forall i :: k <= i < j ==> CloudAnswer(t, Candidates(t)[i], last).None?
  }

  /** No excluded ref ever answers, wherever it came from. */
  lemma ExcludedNeverAnswers(t: Turn, last: Option<Category>)
    ensures CloudLeg(t, last, 0).Some? ==>
              exists ref :: ref !in Excluded(t) && CloudLeg(t, last, 0) == CloudAnswer(t, ref, last)
  {
    hide Candidates, CloudAnswer;
    if CloudLeg(t, last, 0).Some? {
      CloudLegIsFirst(t, last, 0);
      var j :| 0 <= j < |Candidates(t)| && FirstAnswer(t, last, 0, j)
               && CloudLeg(t, last, 0) == CloudAnswer(t, Candidates(t)[j], last);
      CandidatesAre(t, Candidates(t)[j]);
    }
  }

  // ---- What one caller's context can and cannot reach ----

  /** An answer that is not context-derived does not depend on the previous category; being derived does not either. */
  ghost predicate Agree(a: Option<Answer>, b: Option<Answer>) {
    && a.Some? == b.Some?
    && (a.Some? ==> a.value.fromContext == b.value.fromContext && (!a.value.fromContext ==> a == b))
  }

  lemma {:induction false} CloudAgrees(t: Turn, x: Option<Category>, y: Option<Category>, k: nat)
    requires k <= |Candidates(t)|
    ensures Agree(CloudLeg(t, x, k), CloudLeg(t, y, k))
    decreases |Candidates(t)| - k
  {
    hide Candidates;
    if k < |Candidates(t)| {
      CloudAgrees(t, x, y, k + 1);
    }
  }

  lemma ModelsAgree(t: Turn, x: Option<Category>, y: Option<Category>, marked: set<string>)
    ensures Agree(ModelAnswer(t, x, marked), ModelAnswer(t, y, marked))
  {
    CloudAgrees(t, x, y, 0);
  }

  /** The one value a call may cache, whoever asks and whatever is already cached. */
  function Storable(t: Turn, marked: set<string>): Option<Answer> {
    if t.contextBlock then None
    else if LayaAnswer(t).Some? then LayaAnswer(t)
    else
      var a := ModelAnswer(t, None, marked);
      if a.Some? && !a.value.fromContext then a else None
  }

  /**
   * What a call writes never depends on the previous category: it is the turn's storable value, and nothing if there
   * is none.
   */
  lemma StoredIsContextFree(t: Turn, last: Option<Category>, marked: set<string>, slots: seq<C.Slot<Result>>)
    ensures SlotsFinished(t, last, marked, slots) ==
            var a := Storable(t, marked);
            if a.None? then slots
            else
              C.AfterSet(slots, t.prompt, a.value.result, false, t.answered, Some(a.value.source), C.MAX_CLASSIFY_CACHE)
  {
    hide ModelAnswer, C.Put, C.Evict;
    ModelsAgree(t, last, None, marked);
  }

  /** Two calls that differ in the previous category leave the same cache behind, once both go to the models. */
  lemma ConversationsStoreTheSame(
    t: Turn, x: Option<Category>, y: Option<Category>, marked: set<string>, slots: seq<C.Slot<Result>>)
    ensures SlotsFinished(t, x, marked, slots) == SlotsFinished(t, y, marked, slots)
  {
    hide SlotsFinished, Storable;
    StoredIsContextFree(t, x, marked, slots);
    StoredIsContextFree(t, y, marked, slots);
  }

  // ---- A conversation that feeds its categories back ----

  /** One turn of a conversation, with whatever the cache and the marks are by then. */
  datatype Moment = Moment(turn: Turn, marked: set<string>, slots: seq<C.Slot<Result>>)

  function Answered(m: Moment, last: Option<Category>): Result {
    Inherit(Uncounted(m.turn, last, m.marked, m.slots), last)
  }

  /** The category the next turn sees: hints leave it alone. */
  function Next(m: Moment, last: Option<Category>): Option<Category> {
    var r := Answered(m, last);
    if r.Categorised? then Some(r.category) else last
  }

  function LastAfter(ms: seq<Moment>, n: nat): Option<Category>
    requires n <= |ms|
  {
    if n == 0 then None else Next(ms[n - 1], LastAfter(ms, n - 1))
  }

  /** Once a turn has a category other than continue, no later turn is categorised continue. */
  lemma {:induction false} NeverContinueAgain(ms: seq<Moment>, i: nat, j: nat)
    requires i <= j < |ms|
    requires var r := Answered(ms[i], LastAfter(ms, i)); r.Categorised? && r.category != Continue
    ensures LastAfter(ms, j + 1).Some? && LastAfter(ms, j + 1) != Some(Continue)
    ensures var r := Answered(ms[j], LastAfter(ms, j)); r.Categorised? ==> r.category != Continue
    decreases j
  {
    hide Uncounted;
    if i < j { NeverContinueAgain(ms, i, j - 1); }
  }

}
