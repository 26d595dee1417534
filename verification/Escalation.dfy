/**
 The session escalation of src/escalation.ts: a synchronous frustration streak that races with one
 asynchronous loop-detection call, over any interleaving of turns, verdicts, failures and resets.
 */
module Escalation {
  import opened Seqs

  datatype Level = Standard | CodeComplex | Planning

  const STREAK_THRESHOLD: nat := 3
  const MAX_HISTORY: nat := 10

  datatype TurnRecord = TurnRecord(prompt: string, response: string)

  /** The instance fields of SessionEscalation. */
  datatype State = State(
    level: Level, history: seq<TurnRecord>, turnCount: nat, inFlight: bool, session: nat, streak: nat, pending: bool)

  /** What the continuation of one dispatched call holds; `at` is the event that dispatched it. */
  datatype Call = Call(already: bool, levelAt: Level, sessionAt: nat, recent: seq<TurnRecord>, at: nat)

  const INITIAL: State := State(Standard, [], 0, false, 0, 0, false)

  function Rank(l: Level): nat {
    match l case Standard => 0 case CodeComplex => 1 case Planning => 2
  }

  function NextLevel(l: Level): Level {
    match l case Standard => CodeComplex case CodeComplex => Planning case Planning => Planning
  }

  function Last(n: nat, s: seq<TurnRecord>): seq<TurnRecord> {
    if |s| <= n then s else s[|s| - n..]
  }

  /** The streak check on the user's half of an exchange. */
  function StreakCheck(s: State, hasText: bool, frustrated: bool): State {
    if !hasText then s
    else if !frustrated then s.(streak := 0)
    else if s.streak + 1 < STREAK_THRESHOLD then s.(streak := s.streak + 1)
    else
      var up := NextLevel(s.level);
      s.(level := up, streak := 0, pending := s.pending || up != s.level)
  }

  function Remember(s: State, rec: TurnRecord): State {
    s.(history := Last(MAX_HISTORY, s.history + [rec]), turnCount := s.turnCount + 1)
  }

  predicate Due(s: State) { s.turnCount >= 2 && (s.turnCount - 2) % 3 == 0 }

  /** _checkAndEscalate: at most one call in flight; dispatching consumes the pending flag. */
  function Check(s: State, model: bool, at: nat): (State, Option<Call>) {
    if !model || s.inFlight then (s, None)
    else (s.(pending := false, inFlight := true), Some(Call(s.pending, s.level, s.session, Last(2, s.history), at)))
  }

  function AfterTurn(s: State, rec: TurnRecord, hasText: bool, frustrated: bool, model: bool, at: nat)
    : (State, Option<Call>)
  {
    var s1 := StreakCheck(Remember(s, rec), hasText, frustrated);
    if Due(s1) then Check(s1, model, at) else (s1, None)
  }

  predicate Applies(s: State, c: Call, shouldEscalate: bool) {
    shouldEscalate && !c.already && s.level == c.levelAt && s.session == c.sessionAt
  }

  function Resolve(s: State, c: Call, shouldEscalate: bool): State {
    s.(inFlight := false, level := if Applies(s, c, shouldEscalate) then NextLevel(s.level) else s.level)
  }

  function Reject(s: State): State { s.(inFlight := false) }

  function AfterReset(s: State): State {
    State(Standard, [], 0, s.inFlight, s.session + 1, 0, false)
  }

  /** The class, its fields updated in place. */
  class SessionEscalation {
    var level: Level
    var history: seq<TurnRecord>
    var turnCount: nat
    var llmInFlight: bool
    var sessionId: nat
    var frustrationStreak: nat
    var streakEscalatedPending: bool

    ghost function Snapshot(): State
      reads this
    {
      State(level, history, turnCount, llmInFlight, sessionId, frustrationStreak, streakEscalatedPending)
    }

    constructor ()
      ensures Snapshot() == INITIAL
    {
      level, history, turnCount, llmInFlight := Standard, [], 0, false;
      sessionId, frustrationStreak, streakEscalatedPending := 0, 0, false;
    }

    method Reset()
      modifies this
      ensures Snapshot() == AfterReset(old(Snapshot()))
    {
      level, history, turnCount := Standard, [], 0;
      sessionId := sessionId + 1;
      frustrationStreak, streakEscalatedPending := 0, false;
    }

    /** The returned call is the promise that this turn dispatched, if any. */
    method RecordTurn(rec: TurnRecord, hasText: bool, frustrated: bool, model: bool, at: nat)
      returns (call: Option<Call>)
      requires |history| <= MAX_HISTORY
      modifies this
      ensures |history| <= MAX_HISTORY
      ensures (Snapshot(), call) == AfterTurn(old(Snapshot()), rec, hasText, frustrated, model, at)
    {
      hide StreakCheck, Check;
      history := history + [rec];
      if |history| > MAX_HISTORY { history := history[1..]; }
      turnCount := turnCount + 1;
      assert Snapshot() == Remember(old(Snapshot()), rec);
      CountStreak(hasText, frustrated);
      call := None;
      if turnCount >= 2 && (turnCount - 2) % 3 == 0 { call := CheckAndEscalate(model, at); }
    }

    method CountStreak(hasText: bool, frustrated: bool)
      modifies this
      ensures history == old(history)
      ensures Snapshot() == StreakCheck(old(Snapshot()), hasText, frustrated)
    {
      if hasText {
        if frustrated {
          frustrationStreak := frustrationStreak + 1;
          if frustrationStreak >= STREAK_THRESHOLD {
            var prev := level;
            level := NextLevel(level);
            frustrationStreak := 0;
            if prev != level { streakEscalatedPending := true; }
          }
        } else {
          frustrationStreak := 0;
        }
      }
    }

    method CheckAndEscalate(model: bool, at: nat) returns (call: Option<Call>)
      modifies this
      ensures history == old(history)
      ensures (Snapshot(), call) == Check(old(Snapshot()), model, at)
    {
      var recent := Last(2, history);
      if !model || llmInFlight { return None; }
      var already := streakEscalatedPending;
      streakEscalatedPending := false;
      llmInFlight := true;
      return Some(Call(already, level, sessionId, recent, at));
    }

    method OnVerdict(call: Call, shouldEscalate: bool)
      modifies this
      ensures Snapshot() == Resolve(old(Snapshot()), call, shouldEscalate)
    {
      llmInFlight := false;
      if shouldEscalate && !call.already && level == call.levelAt && sessionId == call.sessionAt {
        level := NextLevel(level);
      }
    }

    method OnFailure()
      modifies this
      ensures Snapshot() == Reject(old(Snapshot()))
    {
      llmInFlight := false;
    }
  }

  // ---- whole runs: events, outstanding calls and a trace ----

  datatype Event =
    | Turn(rec: TurnRecord, hasText: bool, frustrated: bool, model: bool)
    | Verdict(call: nat, shouldEscalate: bool)
    | Failure(call: nat)
    | NewSession

  /** What one event did. `llmUp` names the event that dispatched the call behind an LLM escalation. */
  datatype Obs = Obs(
    turn: Option<TurnRecord>, frustratedTurn: bool, positive: bool, reset: bool,
    streakUp: bool, dispatched: bool, llmUp: Option<nat>)

  const NOTHING: Obs := Obs(None, false, false, false, false, false, None)

  datatype Sys = Sys(st: State, calls: seq<Call>, trace: seq<Obs>)

  function Step(y: Sys, e: Event): (y': Sys)
    ensures |y'.trace| == |y.trace| + 1 && y'.trace[..|y.trace|] == y.trace
  {
    var at := |y.trace|;
    match e
    case Turn(rec, hasText, frustrated, model) =>
      var (s', c) := AfterTurn(y.st, rec, hasText, frustrated, model, at);
      Sys(s', y.calls + (if c.Some? then [c.value] else []),
          y.trace + [NOTHING.(turn := Some(rec), frustratedTurn := hasText && frustrated,
                              streakUp := s'.level != y.st.level, dispatched := c.Some?)])
    case Verdict(i, should) =>
      if i >= |y.calls| then y.(trace := y.trace + [NOTHING])
      else
        var s' := Resolve(y.st, y.calls[i], should);
        Sys(s', y.calls[..i] + y.calls[i + 1..],
            y.trace + [NOTHING.(positive := should,
                                llmUp := if s'.level != y.st.level then Some(y.calls[i].at) else None)])
    case Failure(i) =>
      if i >= |y.calls| then y.(trace := y.trace + [NOTHING])
      else Sys(Reject(y.st), y.calls[..i] + y.calls[i + 1..], y.trace + [NOTHING])
    case NewSession => Sys(AfterReset(y.st), y.calls, y.trace + [NOTHING.(reset := true)])
  }

  function Run(y: Sys, es: seq<Event>): Sys
    decreases |es|
  {
    if es == [] then y else Run(Step(y, es[0]), es[1..])
  }

  const START: Sys := Sys(INITIAL, [], [])

  // ---- what the trace says since the last reset ----

  function TurnsSince(t: seq<Obs>): seq<TurnRecord> {
    if t == [] || t[|t| - 1].reset then []
    else TurnsSince(t[..|t| - 1]) + (if t[|t| - 1].turn.Some? then [t[|t| - 1].turn.value] else [])
  }

  function FrustratedSince(t: seq<Obs>): nat {
    if t == [] || t[|t| - 1].reset then 0
    else FrustratedSince(t[..|t| - 1]) + (if t[|t| - 1].frustratedTurn then 1 else 0)
  }

  function PositiveSince(t: seq<Obs>): nat {
    if t == [] || t[|t| - 1].reset then 0
    else PositiveSince(t[..|t| - 1]) + (if t[|t| - 1].positive then 1 else 0)
  }

  function StreakUpsSince(t: seq<Obs>): nat {
    if t == [] || t[|t| - 1].reset then 0
    else StreakUpsSince(t[..|t| - 1]) + (if t[|t| - 1].streakUp then 1 else 0)
  }

  function LlmUpsSince(t: seq<Obs>): nat {
    if t == [] || t[|t| - 1].reset then 0
    else LlmUpsSince(t[..|t| - 1]) + (if t[|t| - 1].llmUp.Some? then 1 else 0)
  }

  // ---- the invariants ----

  /** The level counts the escalations since the reset, and each of them is paid for. */
  ghost predicate Paid(y: Sys) {
    && Rank(y.st.level) == StreakUpsSince(y.trace) + LlmUpsSince(y.trace)
    && 3 * StreakUpsSince(y.trace) + y.st.streak <= FrustratedSince(y.trace)
    && LlmUpsSince(y.trace) <= PositiveSince(y.trace)
    && y.st.streak < STREAK_THRESHOLD
  }

  ghost predicate Ring(y: Sys) {
    y.st.history == Last(MAX_HISTORY, TurnsSince(y.trace)) && y.st.turnCount == |TurnsSince(y.trace)|
  }

  ghost predicate NoReset(t: seq<Obs>, lo: int, hi: int) {
    forall k :: 0 <= k < |t| && lo < k <= hi ==> !t[k].reset
  }

  ghost predicate NoDispatch(t: seq<Obs>, lo: int, hi: int) {
    forall k :: 0 <= k < |t| && lo <= k < hi ==> !t[k].dispatched
  }

  /** A streak escalation at `j` in the session of `hi` that no call dispatched before `hi` has answered. */
  ghost predicate Unanswered(t: seq<Obs>, j: int, hi: int) {
    0 <= j < |t| && j <= hi && t[j].streakUp && NoReset(t, j, hi) && NoDispatch(t, j, hi)
  }

  ghost predicate PendingMeans(y: Sys) {
    forall j :: Unanswered(y.trace, j, |y.trace|) ==> y.st.pending
  }

  ghost predicate CallFacts(y: Sys, c: Call) {
    && c.at < |y.trace| && y.trace[c.at].dispatched
    && c.sessionAt <= y.st.session
    && (c.sessionAt == y.st.session ==>
          && NoReset(y.trace, c.at, |y.trace|)
          && Rank(c.levelAt) <= Rank(y.st.level)
          && (forall j :: c.at < j < |y.trace| && y.trace[j].streakUp ==> Rank(c.levelAt) < Rank(y.st.level)))
    && (!c.already ==> forall j :: !Unanswered(y.trace, j, c.at))
  }

  /** An LLM escalation at `i` from the call dispatched at `d` is neither stale nor stacked. */
  ghost predicate LegalLlmUp(t: seq<Obs>, i: int, d: int) {
    && 0 <= d < i < |t| && t[d].dispatched
    && NoReset(t, d, i)
    && (forall j :: d < j <= i ==> !t[j].streakUp)
    && (forall j :: !Unanswered(t, j, d))
  }

  ghost predicate Inv(y: Sys) {
    && |y.calls| <= 1 && (y.st.inFlight <==> |y.calls| == 1)
    && (forall c :: c in y.calls ==> CallFacts(y, c))
    && PendingMeans(y)
    && (forall i :: 0 <= i < |y.trace| && y.trace[i].llmUp.Some? ==> LegalLlmUp(y.trace, i, y.trace[i].llmUp.value))
  }

  lemma TurnKeepsPaid(y: Sys, e: Event)
    requires e.Turn? && Paid(y)
    ensures Paid(Step(y, e))
  {
  }

  lemma StepKeepsPaid(y: Sys, e: Event)
    requires Paid(y)
    ensures Paid(Step(y, e))
  {
    var y' := Step(y, e);
    assert y'.trace[..|y'.trace| - 1] == y.trace;
    if e.Turn? { TurnKeepsPaid(y, e); }
  }

  lemma StepKeepsRing(y: Sys, e: Event)
    requires Ring(y)
    ensures Ring(Step(y, e))
  {
    hide TurnsSince, StreakCheck, Check;
    var y' := Step(y, e);
    var n := |y.trace|;
    assert y'.trace[..|y'.trace| - 1] == y.trace;
    TurnsNext(y'.trace);
    StreakKeepsHistory(y, e);
  }

  lemma TurnsNext(t: seq<Obs>)
    requires t != []
    ensures var o := t[|t| - 1];
            TurnsSince(t) == if o.reset then []
                             else if o.turn.Some? then TurnsSince(t[..|t| - 1]) + [o.turn.value]
                             else TurnsSince(t[..|t| - 1])
  {
  }

  lemma StreakKeepsHistory(y: Sys, e: Event)
    ensures var y' := Step(y, e);
            && y'.st.history ==
               (if e.Turn? then Last(MAX_HISTORY, y.st.history + [e.rec])
                else if e.NewSession? then [] else y.st.history)
            && y'.st.turnCount == if e.Turn? then y.st.turnCount + 1 else if e.NewSession? then 0 else y.st.turnCount
  {
  }

  /** Judgements about the old part of the trace survive one more event. */
  lemma TraceGrows(t: seq<Obs>, t': seq<Obs>, j: int, hi: int)
    requires |t'| == |t| + 1 && t'[..|t|] == t && hi < |t|
    ensures Unanswered(t', j, hi) <==> Unanswered(t, j, hi)
    ensures NoReset(t', j, hi) <==> NoReset(t, j, hi)
  {
  }

  lemma OldUpsStayLegal(y: Sys, e: Event, i: int)
    requires 0 <= i < |y.trace| && y.trace[i].llmUp.Some? && LegalLlmUp(y.trace, i, y.trace[i].llmUp.value)
    ensures LegalLlmUp(Step(y, e).trace, i, y.trace[i].llmUp.value)
  {
    var t, t', d := y.trace, Step(y, e).trace, y.trace[i].llmUp.value;
    forall k | 0 <= k < |t| ensures t'[k] == t[k] { assert t'[..|t|][k] == t[k]; }
    TraceGrows(t, t', d, i);
    forall j ensures !Unanswered(t', j, d) { TraceGrows(t, t', j, d); }
  }

  lemma CallSurvives(y: Sys, e: Event, c: Call)
    requires CallFacts(y, c)
    ensures CallFacts(Step(y, e), c)
  {
    var y' := Step(y, e);
    var t, t' := y.trace, y'.trace;
    forall k | 0 <= k < |t| ensures t'[k] == t[k] { assert t'[..|t|][k] == t[k]; }
    forall j ensures Unanswered(t', j, c.at) <==> Unanswered(t, j, c.at) { TraceGrows(t, t', j, c.at); }
    assert Rank(y.st.level) <= Rank(y'.st.level) || e.NewSession?;
  }

  lemma StepKeepsPending(y: Sys, e: Event)
    requires PendingMeans(y)
    ensures PendingMeans(Step(y, e))
  {
    var y' := Step(y, e);
    var t, t' := y.trace, y'.trace;
    var n := |t|;
    forall k | 0 <= k < n ensures t'[k] == t[k] { assert t'[..n][k] == t[k]; }
    forall j | Unanswered(t', j, |t'|) ensures y'.st.pending {
      if j < n {
        assert !t'[n].reset && !t'[n].dispatched;
        assert Unanswered(t, j, n);
      }
    }
  }

  lemma DispatchedCallFacts(y: Sys, e: Event)
    requires PendingMeans(y) && e.Turn? && Step(y, e).trace[|y.trace|].dispatched
    ensures |Step(y, e).calls| == |y.calls| + 1 && CallFacts(Step(y, e), Step(y, e).calls[|y.calls|])
    ensures !y.st.inFlight && Step(y, e).st.inFlight
  {
    var y' := Step(y, e);
    var t, t', n := y.trace, y'.trace, |y.trace|;
    var c := y'.calls[|y.calls|];
    forall k | 0 <= k < n ensures t'[k] == t[k] { assert t'[..n][k] == t[k]; }
    if !c.already {
      forall j ensures !Unanswered(t', j, n) {
        if Unanswered(t', j, n) && j < n { assert Unanswered(t, j, n); }
      }
    }
  }

  lemma VerdictIsLegal(y: Sys, e: Event)
    requires Inv(y) && e.Verdict? && e.call < |y.calls| && Step(y, e).trace[|y.trace|].llmUp.Some?
    ensures LegalLlmUp(Step(y, e).trace, |y.trace|, Step(y, e).trace[|y.trace|].llmUp.value)
  {
    var y' := Step(y, e);
    var t, t', n := y.trace, y'.trace, |y.trace|;
    var c := y.calls[e.call];
    assert c in y.calls && CallFacts(y, c);
    forall k | 0 <= k < n ensures t'[k] == t[k] { assert t'[..n][k] == t[k]; }
    assert Applies(y.st, c, e.shouldEscalate);
    forall j ensures !Unanswered(t', j, c.at) { TraceGrows(t, t', j, c.at); }
  }

  /** Calls only enter with a dispatching turn and leave one by one; only a verdict escalates through them. */
  lemma CallsAfter(y: Sys, e: Event)
    requires |y.calls| <= 1 && (y.st.inFlight <==> |y.calls| == 1)
    ensures var y' := Step(y, e);
            var o := y'.trace[|y.trace|];
            && |y'.calls| <= 1 && (y'.st.inFlight <==> |y'.calls| == 1)
            && (o.dispatched <==> |y'.calls| > |y.calls|)
            && (o.dispatched ==> e.Turn?)
            && (forall c :: c in y'.calls ==> c in y.calls || (o.dispatched && c == y'.calls[|y.calls|]))
            && (o.llmUp.Some? ==> e.Verdict? && e.call < |y.calls|)
  {
  }

  lemma StepKeepsInv(y: Sys, e: Event)
    requires Inv(y)
    ensures Inv(Step(y, e))
  {
    hide Step, CallFacts, LegalLlmUp, PendingMeans;
    var y' := Step(y, e);
    var n := |y.trace|;
    CallsAfter(y, e);
    StepKeepsPending(y, e);
    if y'.trace[n].dispatched { DispatchedCallFacts(y, e); }
    forall c | c in y'.calls ensures CallFacts(y', c) {
      if c in y.calls { CallSurvives(y, e, c); }
    }
    forall i | 0 <= i < |y'.trace| && y'.trace[i].llmUp.Some?
      ensures LegalLlmUp(y'.trace, i, y'.trace[i].llmUp.value)
    {
      if i < n {
        assert y'.trace[..n][i] == y.trace[i];
        OldUpsStayLegal(y, e, i);
      } else {
        VerdictIsLegal(y, e);
      }
    }
  }

  lemma {:induction false} RunKeepsInv(y: Sys, es: seq<Event>)
    requires Inv(y) && Paid(y) && Ring(y)
    ensures Inv(Run(y, es)) && Paid(Run(y, es)) && Ring(Run(y, es))
    decreases |es|
  {
    if es != [] {
      StepKeepsInv(y, es[0]);
      StepKeepsPaid(y, es[0]);
      StepKeepsRing(y, es[0]);
      RunKeepsInv(Step(y, es[0]), es[1..]);
    }
  }

  lemma ReachableInv(es: seq<Event>)
    ensures var y := Run(START, es); Inv(y) && Paid(y) && Ring(y)
  {
    RunKeepsInv(START, es);
  }

  // ---- the theorems ----

  /** At most one call is in flight, whatever the interleaving, resets included. */
  lemma AtMostOneCallInFlight(es: seq<Event>)
    ensures |Run(START, es).calls| <= 1
    ensures Run(START, es).st.inFlight <==> |Run(START, es).calls| == 1
  {
    ReachableInv(es);
  }

  /**
   Every LLM escalation comes from a call of the same session, dispatched after the latest streak
   escalation and not the first one dispatched after it.
   */
  lemma LlmEscalationsAreFresh(es: seq<Event>, i: nat)
    requires i < |Run(START, es).trace| && Run(START, es).trace[i].llmUp.Some?
    ensures LegalLlmUp(Run(START, es).trace, i, Run(START, es).trace[i].llmUp.value)
  {
    ReachableInv(es);
  }

  /** The level never exceeds what the user's frustration and the positive verdicts since the reset pay for. */
  lemma LevelIsPaidFor(es: seq<Event>)
    ensures var y := Run(START, es);
      Rank(y.st.level) <= FrustratedSince(y.trace) / 3 + PositiveSince(y.trace)
  {
    ReachableInv(es);
    var y := Run(START, es);
    assert StreakUpsSince(y.trace) <= FrustratedSince(y.trace) / 3;
  }

  /** Between resets the level only rises, one rank at a time, and only by a streak or an LLM escalation. */
  lemma LevelOnlyRises(y: Sys, e: Event)
    ensures var y' := Step(y, e);
      var o := y'.trace[|y.trace|];
      && (o.reset ==> y'.st.level == Standard)
      && (!o.reset ==>
            Rank(y'.st.level) == Rank(y.st.level) + (if o.streakUp then 1 else 0) + (if o.llmUp.Some? then 1 else 0))
  {
  }

  /** A verdict on a call dispatched before a reset leaves the level alone. */
  lemma StaleVerdictIsIgnored(es: seq<Event>, call: nat, should: bool)
    requires call < |Run(START, es).calls|
    requires exists k :: Run(START, es).calls[call].at < k < |Run(START, es).trace| && Run(START, es).trace[k].reset
    ensures Step(Run(START, es), Verdict(call, should)).st.level == Run(START, es).st.level
  {
    ReachableInv(es);
    var y := Run(START, es);
    assert CallFacts(y, y.calls[call]);
  }

  /** The ring holds the last ten turns of the session and a dispatched call sees exactly the last two. */
  lemma CallSeesLastTwoTurns(es: seq<Event>, rec: TurnRecord, hasText: bool, frustrated: bool, model: bool)
    ensures var y := Run(START, es);
      var y' := Step(y, Turn(rec, hasText, frustrated, model));
      && y'.st.history == Last(10, TurnsSince(y'.trace))
      && (y'.trace[|y.trace|].dispatched ==>
            && |y'.calls| == 1 && y'.calls[0].recent == Last(2, TurnsSince(y'.trace))
            && |TurnsSince(y'.trace)| % 3 == 2)
  {
    hide Run, TurnsSince;
    ReachableInv(es);
    var y := Run(START, es);
    var e := Turn(rec, hasText, frustrated, model);
    StepKeepsRing(y, e);
    CallsAfter(y, e);
    DispatchSees(y, e);
    var all := TurnsSince(Step(y, e).trace);
    assert Last(2, Last(MAX_HISTORY, all)) == Last(2, all);
  }

  lemma DispatchSees(y: Sys, e: Event)
    requires e.Turn?
    ensures var y' := Step(y, e);
            y'.trace[|y.trace|].dispatched ==>
              && |y'.calls| == |y.calls| + 1
              && y'.calls[|y.calls|].recent == Last(2, y'.st.history)
              && y'.st.turnCount % 3 == 2
  {
  }
}
