/** What a classification answers and caches (src/content-classifier.ts), read off the replies of the models asked. */
module ClassifierAnswers {
  import opened Seqs
  import opened ClassifierChain
  import C = ClassifyCache

  // ---- who is asked, in order, and whose reply can be used ----

  datatype Asked = Cloud(ref: string) | Local(model: string)

  function CloudAsked(refs: seq<string>): seq<Asked> {
    seq(|refs|, k requires 0 <= k < |refs| => Cloud(refs[k]))
  }

  /** The primary unless it is known to reject structured output, then a different fallback. */
  function LocalAsked(t: Turn, marked: set<string>): seq<Asked> {
    if t.primary.None? || t.wedged || !t.available then []
    else
      (if t.primary.value in marked then [] else [Local(t.primary.value)])
      + (if t.fallback.Some? && t.fallback.value != t.primary.value then [Local(t.fallback.value)] else [])
  }

  function Order(t: Turn, marked: set<string>): seq<Asked> {
    (if t.allowCloud then CloudAsked(Candidates(t)) else []) + LocalAsked(t, marked)
  }

  function ReplyOf(t: Turn, a: Asked): Reply {
    match a
    case Cloud(ref) => t.cloud(ref)
    case Local(model) => t.local(model)
  }

  function SourceOf(a: Asked): string {
    match a
    case Cloud(ref) => "cloud:" + ref
    case Local(model) => "ollama:" + model
  }

  /** A cloud model's hint needs a marker in the prompt; a local model's malformed reply is turned into an answer. */
  predicate Usable(t: Turn, a: Asked) {
    match ReplyOf(t, a)
    case Valid(_, _, _) => true
    case ReadyHint(_) => true
    case RawHint(usable) => a.Local? || (t.hintMarker && usable.Some?)
    case UnknownCategory(text, _) => a.Local? && text.Some?
    case _ => false
  }

  ghost predicate FirstUsable(t: Turn, marked: set<string>, k: nat) {
    FirstIn(t, Order(t, marked), k)
  }

  ghost predicate NoneUsable(t: Turn, marked: set<string>) {
    forall k :: 0 <= k < |Order(t, marked)| ==> !Usable(t, Order(t, marked)[k])
  }

  /** A reply is trusted without a confidence or with one of at least one half. */
  predicate Trusted(confidence: Option<real>) {
    confidence.None? || confidence.value >= 0.5
  }

  /** What a usable reply comes to; None where it is replaced by the previous category. */
  function Meaning(t: Turn, a: Asked): Option<Result> {
    match ReplyOf(t, a)
    case Valid(category, reason, confidence) =>
      if Trusted(confidence) then Some(Categorised(category, reason, confidence)) else None
    case ReadyHint(hint) => Some(hint)
    case RawHint(usable) =>
      if usable.Some? then usable
      else Some(Categorised(Continue, "Empty or malformed HINT target from LLM", Some(0.5)))
    case UnknownCategory(text, given) =>
      if text.Some? then Some(Categorised(Continue, text.value, if given.Some? then given else Some(0.0))) else None
    case _ => None
  }

  // ---- one reply ----

  /** The answer made of one model's reply agrees with what the reply means. */
  ghost predicate Made(t: Turn, a: Asked, last: Option<Category>, answer: Option<Answer>) {
    && (answer.Some? <==> Usable(t, a))
    && (answer.Some? ==>
          && answer.value.source == SourceOf(a)
          && match Meaning(t, a)
             case Some(result) => answer.value.result == result && !answer.value.fromContext
             case None =>
               && answer.value.fromContext && answer.value.result.Categorised?
               && answer.value.result.category == (if last.Some? then last.value else Continue)
               && answer.value.result.reason ==
                  (if last.Some? then "Low confidence: using prior context" else "Low confidence: falling back")
               && ReplyOf(t, a).Valid? && answer.value.result.confidence == ReplyOf(t, a).confidence)
  }

  lemma CloudReply(t: Turn, ref: string, last: Option<Category>)
    ensures Made(t, Cloud(ref), last, CloudAnswer(t, ref, last))
  {
  }

  lemma LocalReply(t: Turn, model: string, last: Option<Category>)
    ensures Made(t, Local(model), last, LocalAnswer(t, model, last))
  {
  }

  // ---- the first usable reply ----

  /** From candidate `k` on, `j` is the first with a usable reply. */
  ghost predicate FirstCloud(t: Turn, refs: seq<string>, k: nat, j: nat) {
    k <= j < |refs| && Usable(t, Cloud(refs[j])) && forall i :: k <= i < j ==> !Usable(t, Cloud(refs[i]))
  }

  ghost predicate FirstIn(t: Turn, order: seq<Asked>, j: nat) {
    j < |order| && Usable(t, order[j]) && forall i :: 0 <= i < j ==> !Usable(t, order[i])
  }

  lemma {:induction false} CloudFirst(t: Turn, last: Option<Category>, refs: seq<string>, k: nat)
    requires t.allowCloud && refs == Candidates(t) && k <= |refs|
    ensures CloudLeg(t, last, k).None? ==> forall j :: k <= j < |refs| ==> !Usable(t, Cloud(refs[j]))
    ensures forall j: nat | FirstCloud(t, refs, k, j) :: Made(t, Cloud(refs[j]), last, CloudLeg(t, last, k))
    decreases |refs| - k
  {
    hide Candidates, CloudAnswer, Usable, Made;
    if k < |refs| {
      CloudReply(t, refs[k], last);
      assert CloudAnswer(t, refs[k], last).Some? <==> Usable(t, Cloud(refs[k])) by {
        MadeIsUsable(t, Cloud(refs[k]), last, CloudAnswer(t, refs[k], last));
      }
      CloudFirst(t, last, refs, k + 1);
    }
  }

  lemma MadeIsUsable(t: Turn, a: Asked, last: Option<Category>, answer: Option<Answer>)
    requires Made(t, a, last, answer)
    ensures answer.Some? <==> Usable(t, a)
  {
  }

  lemma LocalFirst(t: Turn, last: Option<Category>, marked: set<string>)
    ensures var order := LocalAsked(t, marked);
            forall j: nat | FirstIn(t, order, j) :: Made(t, order[j], last, LocalLeg(t, last, marked))
  {
    hide LocalAnswer, Usable, Made;
    var order := LocalAsked(t, marked);
    if t.primary.Some? {
      LocalReply(t, t.primary.value, last);
      MadeIsUsable(t, Local(t.primary.value), last, LocalAnswer(t, t.primary.value, last));
    }
    if t.fallback.Some? {
      LocalReply(t, t.fallback.value, last);
      MadeIsUsable(t, Local(t.fallback.value), last, LocalAnswer(t, t.fallback.value, last));
    }
    forall j: nat | FirstIn(t, order, j) ensures Made(t, order[j], last, LocalLeg(t, last, marked)) {
      if j > 0 { assert !Usable(t, order[0]); }
    }
  }

  lemma OrderAt(t: Turn, marked: set<string>, j: nat)
    requires j < |Order(t, marked)|
    ensures var n := if t.allowCloud then |Candidates(t)| else 0;
            if j < n then t.allowCloud && Order(t, marked)[j] == Cloud(Candidates(t)[j])
            else j - n < |LocalAsked(t, marked)| && Order(t, marked)[j] == LocalAsked(t, marked)[j - n]
  {
    hide Candidates, LocalAsked;
  }

  /**
   * The models' answer is made of the first usable reply, in the order they are asked, and missing if there is
   * none.
   */
  lemma ModelAnswerIsFirst(t: Turn, last: Option<Category>, marked: set<string>, k: nat)
    requires FirstUsable(t, marked, k)
    ensures Made(t, Order(t, marked)[k], last, ModelAnswer(t, last, marked))
    ensures ModelAnswer(t, last, marked).Some?
  {
    var refs := Candidates(t);
    var n := if t.allowCloud then |refs| else 0;
    hide Candidates, LocalAsked, LocalLeg, Usable, Made, Order;
    OrderAt(t, marked, k);
    forall j | 0 <= j < k ensures !Usable(t, Order(t, marked)[j]) {
    }
    if t.allowCloud { CloudFirst(t, last, refs, 0); }
    LocalFirst(t, last, marked);
    if k < n {
      forall j | 0 <= j < k ensures !Usable(t, Cloud(refs[j])) { OrderAt(t, marked, j); }
    } else {
      forall j | 0 <= j < n ensures !Usable(t, Cloud(refs[j])) { OrderAt(t, marked, j); }
      CloudGivesUp(t, last, refs);
      LocalPlaces(t, marked, k, n);
    }
    MadeIsUsable(t, Order(t, marked)[k], last, ModelAnswer(t, last, marked));
  }

  lemma LocalPlaces(t: Turn, marked: set<string>, k: nat, n: nat)
    requires n == (if t.allowCloud then |Candidates(t)| else 0) && n <= k < |Order(t, marked)|
    requires forall j :: 0 <= j < k ==> !Usable(t, Order(t, marked)[j])
    ensures k - n < |LocalAsked(t, marked)| && LocalAsked(t, marked)[k - n] == Order(t, marked)[k]
    ensures forall i :: 0 <= i < k - n ==> !Usable(t, LocalAsked(t, marked)[i])
  {
    hide Candidates, LocalAsked, Usable;
    forall i | 0 <= i < k - n ensures !Usable(t, LocalAsked(t, marked)[i]) {
      assert Order(t, marked)[n + i] == LocalAsked(t, marked)[i];
    }
  }

  lemma CloudGivesUp(t: Turn, last: Option<Category>, refs: seq<string>)
    requires refs == Candidates(t) && (t.allowCloud ==> forall j :: 0 <= j < |refs| ==> !Usable(t, Cloud(refs[j])))
    ensures CloudLeg(t, last, 0).None?
  {
    if t.allowCloud { NoCloud(t, last, refs, 0); }
  }

  lemma {:induction false} NoCloud(t: Turn, last: Option<Category>, refs: seq<string>, k: nat)
    requires refs == Candidates(t) && k <= |refs| && forall j :: 0 <= j < |refs| ==> !Usable(t, Cloud(refs[j]))
    ensures CloudLeg(t, last, k).None?
    decreases |refs| - k
  {
    hide Candidates, CloudAnswer, Usable, Made;
    if k < |refs| {
      CloudReply(t, refs[k], last);
      MadeIsUsable(t, Cloud(refs[k]), last, CloudAnswer(t, refs[k], last));
      NoCloud(t, last, refs, k + 1);
    }
  }

  lemma NoModelAnswers(t: Turn, last: Option<Category>, marked: set<string>)
    requires NoneUsable(t, marked)
    ensures ModelAnswer(t, last, marked).None?
  {
    var refs := Candidates(t);
    hide Candidates, LocalAsked, LocalLeg, Usable, Made;
    var n := if t.allowCloud then |refs| else 0;
    if t.allowCloud {
      forall j | 0 <= j < |refs| ensures !Usable(t, Cloud(refs[j])) {
        assert Order(t, marked)[j] == Cloud(refs[j]);
      }
    }
    CloudGivesUp(t, last, refs);
    forall i | 0 <= i < |LocalAsked(t, marked)| ensures !Usable(t, LocalAsked(t, marked)[i]) {
      assert Order(t, marked)[n + i] == LocalAsked(t, marked)[i];
    }
    NoLocal(t, last, marked);
  }

  lemma NoLocal(t: Turn, last: Option<Category>, marked: set<string>)
    requires forall i :: 0 <= i < |LocalAsked(t, marked)| ==> !Usable(t, LocalAsked(t, marked)[i])
    ensures LocalLeg(t, last, marked).None?
  {
    hide LocalAnswer, Usable, Made;
    if t.primary.Some? {
      LocalReply(t, t.primary.value, last);
      MadeIsUsable(t, Local(t.primary.value), last, LocalAnswer(t, t.primary.value, last));
      assert t.primary.value !in marked && !t.wedged && t.available ==>
          LocalAsked(t, marked)[0] == Local(t.primary.value);
    }
    if t.fallback.Some? {
      LocalReply(t, t.fallback.value, last);
      MadeIsUsable(t, Local(t.fallback.value), last, LocalAnswer(t, t.fallback.value, last));
      assert t.primary.Some? && !t.wedged && t.available && t.fallback.value != t.primary.value ==>
        LocalAsked(t, marked)[|LocalAsked(t, marked)| - 1] == Local(t.fallback.value);
    }
  }

  // ---- the result of a call and what the cache holds afterwards ----

  /** The prompt is answered from the cache with this result for five minutes from `at`. */
  ghost predicate CachedFor(slots: seq<C.Slot<Result>>, prompt: string, result: Result, at: int, source: string) {
    forall now :: now - at <= 5 * 60 * 1000 ==> C.Lookup(slots, prompt, now) == Some(C.Entry(result, at, Some(source)))
  }

  lemma SetIsCached(slots: seq<C.Slot<Result>>, prompt: string, result: Result, at: int, source: string, cap: nat)
    ensures CachedFor(C.AfterSet(slots, prompt, result, false, at, Some(source), cap), prompt, result, at, source)
  {
    hide C.Evict;
    var before := C.Evict(slots, cap);
    var entry := C.Entry(result, at, Some(source));
    var after := C.Put(before, prompt, entry);
    var i := C.Find(before, prompt);
    assert i < |after| && after[i] == C.Slot(prompt, entry);
    assert forall j :: 0 <= j < i ==> after[j] == before[j];
    var f := C.Find(after, prompt);
    assert f == i;
  }

  /** A Laya stage that is on, acts and has a result. */
  predicate LayaActs(t: Turn) {
    t.laya.enabled && t.laya.active && t.laya.result.Some?
  }

  /**
   * A call that goes to the models: the first usable reply decides. A trusted one is the result and, without a
   * context block, what the cache answers with from then on; an untrusted one is replaced by the previous category,
   * or continue, and the cache stays as it is.
   */
  lemma FirstUsableReplyDecides(
    t: Turn, last: Option<Category>, marked: set<string>, slots: seq<C.Slot<Result>>, k: nat)
    requires !LayaActs(t) && FirstUsable(t, marked, k)
    ensures var a, result, after :=
              Order(t, marked)[k], ChainAnswer(t, last, marked).result, SlotsFinished(t, last, marked, slots);
            && (Meaning(t, a).Some? ==> result == Meaning(t, a).value)
            && (Meaning(t, a).Some? && !t.contextBlock ==>
                  CachedFor(after, t.prompt, result, t.answered, SourceOf(a)))
            && (Meaning(t, a).None? ==>
                  && result.Categorised? && result.category == (if last.Some? then last.value else Continue)
                  && ReplyOf(t, a).Valid? && result.confidence == ReplyOf(t, a).confidence)
            && (Meaning(t, a).None? || t.contextBlock ==> after == slots)
  {
    hide ModelAnswer, Order, Meaning, CachedFor;
    ModelAnswerIsFirst(t, last, marked, k);
    var answer := ModelAnswer(t, last, marked).value;
    SetIsCached(slots, t.prompt, answer.result, t.answered, answer.source, C.MAX_CLASSIFY_CACHE);
  }

  /** With no usable reply the call falls back without touching the cache. */
  lemma NoUsableReplyFallsBack(t: Turn, last: Option<Category>, marked: set<string>, slots: seq<C.Slot<Result>>)
    requires !LayaActs(t) && NoneUsable(t, marked)
    ensures SlotsFinished(t, last, marked, slots) == slots
    ensures var result := ChainAnswer(t, last, marked).result;
            if t.allowStatic then result == t.staticResult
            else result.Categorised? && result.category == Continue && result.confidence == Some(0.0)
  {
    hide ModelAnswer;
    NoModelAnswers(t, last, marked);
  }

  /** A Laya stage that acts decides before any model, whatever the confidence. */
  lemma LayaDecides(t: Turn, last: Option<Category>, marked: set<string>, slots: seq<C.Slot<Result>>)
    requires LayaActs(t)
    ensures ChainAnswer(t, last, marked).result == t.laya.result.value
    ensures if t.contextBlock then SlotsFinished(t, last, marked, slots) == slots
            else CachedFor(SlotsFinished(t, last, marked, slots), t.prompt, t.laya.result.value, t.answered,
                           "laya:" + t.laya.checkpoint)
  {
    hide CachedFor;
    SetIsCached(slots, t.prompt, t.laya.result.value, t.answered, "laya:" + t.laya.checkpoint, C.MAX_CLASSIFY_CACHE);
  }

  /**
   * The compaction fits into the model the conversation used last, which is neither cooling down nor free nor a
   * router.
   */
  predicate KeepsModel(c: Compaction) {
    c.Compacting? && c.lastModel.Some? && !c.limited && !c.freeTier && !c.metaRouter && c.fits
  }

  /**
   * The legs that need neither cache nor model, in their order: a hint at the start of the prompt; a compaction, by the
   * last model if it can hold it and as complex code otherwise; a prompt of at most four words after a category.
   */
  lemma EarlyLegs(t: Turn, last: Option<Category>, marked: set<string>, slots: seq<C.Slot<Result>>)
    ensures var result := Uncounted(t, last, marked, slots);
            if t.directHint.Some? then result == t.directHint.value
            else if t.compaction.Compacting? then
              if KeepsModel(t.compaction) then result.Hint? && result.target == t.compaction.lastModel.value
              else result.Categorised? && result.category == CodeComplex
            else last.Some? && t.words <= 4 ==> result.Categorised? && result.category == last.value
    ensures t.directHint.Some? || t.compaction.Compacting? || (last.Some? && t.words <= 4) ==>
              SlotsAfter(t, last, marked, slots) == slots && Begun(t, last, slots).Some?
  {
  }

  /** Past those legs a cached result is used as it stands, and without one the call goes to the models. */
  lemma CacheBeforeModels(t: Turn, last: Option<Category>, marked: set<string>, slots: seq<C.Slot<Result>>)
    requires t.directHint.None? && t.compaction.NoCompaction? && (last.None? || t.words > 4)
    ensures var hit := if t.contextBlock then None else C.Lookup(slots, t.prompt, t.started);
            var result := Uncounted(t, last, marked, slots);
            if hit.Some? then
              result == hit.value.result && SlotsAfter(t, last, marked, slots) == C.AfterGet(slots, t.prompt, t.started)
            else result == ChainAnswer(t, last, marked).result && Begun(t, last, slots).None?
  {
    hide ChainAnswer, C.Lookup, C.AfterGet;
  }

  /** A continue takes over the previous category if that is another one; every other result is returned as it is. */
  lemma ContinueIsReplaced(result: Result, last: Option<Category>)
    ensures var r := Inherit(result, last);
            if result.Categorised? && result.category == Continue && last.Some? && last != Some(Continue)
            then r.Categorised? && r.category == last.value && r.confidence == result.confidence
            else r == result
  {
  }

  // ---- the cloud candidates and the marks ----

  /** The list the candidates come from: probed, else discovered, else the free models of the config. */
  ghost predicate Source(t: Turn, list: seq<string>) {
    && (|t.probed| > 0 ==> list == t.probed)
    && (|t.probed| == 0 && |t.discovered| > 0 ==> list == t.discovered)
    && (|t.probed| == 0 && |t.discovered| == 0 ==> list == t.freeModels)
  }

  /** A pin that is not empty goes first and out of its place; excluded refs, the pin among them, go altogether. */
  lemma CandidatesInOrder(t: Turn, list: seq<string>)
    requires Source(t, list)
    ensures var pinned := t.pinned.Some? && |t.pinned.value| > 0;
            var out := if t.excluded.Some? then t.excluded.value else {};
            Candidates(t) ==
              (if pinned && t.pinned.value !in out then [t.pinned.value] else [])
              + Without(list, if pinned then out + {t.pinned.value} else out)
  {
    var out := if t.excluded.Some? then t.excluded.value else {};
    OfferedIs(t, list);
    hide Source, Offered, Without;
    WithoutTwice(list, Pin(t), out);
    if t.pinned.Some? && |t.pinned.value| > 0 {
      assert Pin(t) == {t.pinned.value};
      PinnedFirst(t.pinned.value, Without(list, Pin(t)), out);
      assert Pin(t) + out == out + {t.pinned.value};
    } else {
      assert Pin(t) == {} && {} + out == out;
      NothingInFront(Without(list, Pin(t)));
      NothingInFront(Without(list, out));
    }
  }

  lemma OfferedIs(t: Turn, list: seq<string>)
    requires Source(t, list)
    ensures Offered(t) == list
  {
  }

  lemma NothingInFront(s: seq<string>)
    ensures [] + s == s
  {
  }

  lemma PinnedFirst(pin: string, rest: seq<string>, out: set<string>)
    ensures Without([pin] + rest, out) == (if pin in out then [] else [pin]) + Without(rest, out)
  {
    WithoutSum([pin], rest, out);
    WithoutOne(pin, out);
  }

  lemma {:induction false} WithoutTwice(s: seq<string>, a: set<string>, b: set<string>)
    ensures Without(Without(s, a), b) == Without(s, a + b)
  {
    if s != [] {
      var n := |s| - 1;
      var kept := Without(s[..n], a);
      WithoutTwice(s[..n], a, b);
      WithoutOne(s[n], b);
      WithoutSum(kept, [s[n]], b);
      assert Without(s, a) == if s[n] in a then kept else kept + [s[n]];
      assert Without(kept, b) + [] == Without(kept, b);
    }
  }

  /**
   * The one model a local leg can newly mark: its primary, asked because not yet marked, when it rejects the
   * schema.
   */
  lemma MarksOnlyItsPrimary(t: Turn, marked: set<string>, model: string)
    ensures model in MarkedAfter(t, marked) <==>
            model in marked ||
            (LocalAsked(t, marked) != [] && LocalAsked(t, marked)[0] == Local(model) && t.primary == Some(model) &&
             t.local(model) == NoSchema)
  {
  }
}
