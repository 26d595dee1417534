/** src/escalation.ts: exactly when the level rises, read off the events alone. */
module EscalationRuns {
  import opened Escalation
  import opened Seqs

  // ---- the streak ----

  /**
   * How many frustrated user turns end the events in a row: a clean turn with text or a reset ends the row, turns
   * without text and answers of the model do not count.
   */
  function InARow(es: seq<Event>): nat {
    if es == [] then 0
    else
      var before := es[..|es| - 1];
      match es[|es| - 1]
      case NewSession => 0
      case Turn(_, hasText, frustrated, _) =>
        if !hasText then InARow(before) else if frustrated then InARow(before) + 1 else 0
      case _ => InARow(before)
  }

  lemma {:induction false} RunNext(y: Sys, es: seq<Event>, e: Event)
    ensures Run(y, es + [e]) == Step(Run(y, es), e)
    decreases |es|
  {
    hide Step;
    if es == [] {
      assert es + [e] == [e] && [e][1..] == [];
      assert Run(Step(y, e), []) == Step(y, e);
    } else {
      assert (es + [e])[1..] == es[1..] + [e];
      RunNext(Step(y, es[0]), es[1..], e);
    }
  }

  lemma StreakAfterTurn(s: State, rec: TurnRecord, hasText: bool, frustrated: bool, model: bool, at: nat)
    requires s.streak < 3
    ensures var s' := AfterTurn(s, rec, hasText, frustrated, model, at).0;
            && s'.streak == (if !hasText then s.streak else if frustrated then (s.streak + 1) % 3 else 0)
            && s'.level == if hasText && frustrated && s.streak == 2 then NextLevel(s.level) else s.level
  {
  }

  lemma {:induction false} StreakIsRow(es: seq<Event>)
    ensures Run(START, es).st.streak == InARow(es) % 3
  {
    if es != [] {
      var before, e := es[..|es| - 1], es[|es| - 1];
      StreakIsRow(before);
      assert es == before + [e];
      RunNext(START, before, e);
      var y := Run(START, before);
      if e.Turn? { StreakAfterTurn(y.st, e.rec, e.hasText, e.frustrated, e.model, |y.trace|); }
    }
  }

  /**
   * A turn raises the level exactly when it is a frustrated one with text that completes three in a row, or six, or
   * nine, and the level is not the highest; and then by one rank.
   */
  lemma StreakEscalatesIff(es: seq<Event>, rec: TurnRecord, hasText: bool, frustrated: bool, model: bool)
    ensures var e := Turn(rec, hasText, frustrated, model);
            var before, after := Run(START, es).st.level, Run(START, es + [e]).st.level;
            && (after != before <==>
                hasText && frustrated && before != Planning && InARow(es + [e]) > 0 && InARow(es + [e]) % 3 == 0)
            && (after != before ==>
                if before == Standard then after == CodeComplex else before == CodeComplex && after == Planning)
  {
    var e := Turn(rec, hasText, frustrated, model);
    var y := Run(START, es);
    hide Run;
    StreakIsRow(es);
    RunNext(START, es, e);
    assert (es + [e])[..|es|] == es;
    StreakAfterTurn(y.st, rec, hasText, frustrated, model, |y.trace|);
  }

  // ---- the loop-detection call ----

  /** The converse halves of the facts about outstanding calls and the pending flag. */
  ghost predicate Exact(y: Sys) {
    && (y.st.pending ==> exists j :: Unanswered(y.trace, j, |y.trace|))
    && (forall c :: c in y.calls ==> CallExact(y, c))
  }

  ghost predicate CallExact(y: Sys, c: Call) {
    && c.at < |y.trace|
    && (c.already ==> exists j :: Unanswered(y.trace, j, c.at))
    && (NoReset(y.trace, c.at, |y.trace|) ==> c.sessionAt == y.st.session)
    && (NoReset(y.trace, c.at, |y.trace|) && NoStreakSince(y.trace, c.at) ==> c.levelAt == y.st.level)
  }

  /** No streak has raised the level after event `d`. */
  ghost predicate NoStreakSince(t: seq<Obs>, d: int) {
    forall k :: 0 <= k < |t| && d < k ==> !t[k].streakUp
  }

  lemma OldTrace(y: Sys, e: Event)
    ensures forall k :: 0 <= k < |y.trace| ==> Step(y, e).trace[k] == y.trace[k]
  {
    var t' := Step(y, e).trace;
    forall k | 0 <= k < |y.trace| ensures t'[k] == y.trace[k] { assert t'[..|y.trace|][k] == t'[k]; }
  }

  /** One more event: what was unanswered stays so unless the event dispatches a call or starts a session. */
  lemma UnansweredNext(y: Sys, e: Event, j: int)
    requires Unanswered(y.trace, j, |y.trace|)
    ensures var o := Step(y, e).trace[|y.trace|];
            && (!o.reset ==> Unanswered(Step(y, e).trace, j, |y.trace|))
            && (!o.reset && !o.dispatched ==> Unanswered(Step(y, e).trace, j, |y.trace| + 1))
  {
    OldTrace(y, e);
    hide Step;
  }

  /** What a turn does to the pending flag, and what the call it dispatches holds. */
  lemma TurnFlag(y: Sys, e: Event)
    requires e.Turn?
    ensures var y', n := Step(y, e), |y.trace|;
            var o := y'.trace[n];
            && !o.reset && (o.streakUp <==> y'.st.level != y.st.level) && y'.st.session == y.st.session
            && (y'.st.pending <==> (y.st.pending || o.streakUp) && !o.dispatched)
            && (if o.dispatched
                then
                  && |y'.calls| == |y.calls| + 1 && y'.calls[..|y.calls|] == y.calls
                  && var c := y'.calls[|y.calls|];
                     && c.at == n && c.levelAt == y'.st.level && c.sessionAt == y'.st.session
                     && (c.already <==> y.st.pending || o.streakUp)
                else y'.calls == y.calls)
  {
  }

  lemma OtherFlag(y: Sys, e: Event)
    requires !e.Turn?
    ensures var y', n := Step(y, e), |y.trace|;
            var o := y'.trace[n];
            && !o.streakUp && !o.dispatched && (o.reset <==> e.NewSession?)
            && (y'.st.pending <==> y.st.pending && !e.NewSession?)
            && (|y.calls| <= 1 ==> y'.calls == y.calls || y'.calls == [])
            && (y'.calls == y.calls && y.calls != [] && !e.NewSession? ==>
                  y'.st.level == y.st.level && y'.st.session == y.st.session)
  {
  }

  lemma OldCallStaysExact(y: Sys, e: Event, c: Call)
    requires CallExact(y, c) && c in y.calls && c in Step(y, e).calls && |y.calls| <= 1
    ensures CallExact(Step(y, e), c)
  {
    OldTrace(y, e);
    if e.Turn? { TurnFlag(y, e); } else { OtherFlag(y, e); }
    hide Step;
    var t, t', n := y.trace, Step(y, e).trace, |y.trace|;
    if c.already {
      var j :| Unanswered(t, j, c.at);
      assert Unanswered(t', j, c.at);
    }
    if NoReset(t', c.at, |t'|) {
      assert !t'[n].reset && NoReset(t, c.at, n);
      if NoStreakSince(t', c.at) { assert !t'[n].streakUp && NoStreakSince(t, c.at); }
    }
  }

  lemma StepKeepsExact(y: Sys, e: Event)
    requires Exact(y) && |y.calls| <= 1
    ensures Exact(Step(y, e))
  {
    var y', n := Step(y, e), |y.trace|;
    if e.Turn? { TurnFlag(y, e); } else { OtherFlag(y, e); }
    OldTrace(y, e);
    hide Step, CallExact;
    if y.st.pending {
      var j :| Unanswered(y.trace, j, n);
      UnansweredNext(y, e, j);
    }
    if y'.trace[n].streakUp {
      assert Unanswered(y'.trace, n, n) && (!y'.trace[n].dispatched ==> Unanswered(y'.trace, n, n + 1));
    }
    forall c | c in y'.calls ensures CallExact(y', c) {
      if c in y.calls {
        OldCallStaysExact(y, e, c);
      } else {
        assert y'.trace[n].dispatched && c == y'.calls[|y.calls|];
        NewCallIsExact(y', c, n);
      }
    }
  }

  lemma NewCallIsExact(y: Sys, c: Call, n: int)
    requires 0 <= n < |y.trace| && |y.trace| == n + 1
    requires c.at == n && c.levelAt == y.st.level && c.sessionAt == y.st.session
    requires c.already ==> exists j :: Unanswered(y.trace, j, n)
    ensures CallExact(y, c)
  {
  }

  lemma {:induction false} RunKeepsExact(es: seq<Event>)
    ensures Exact(Run(START, es))
  {
    if es != [] {
      hide Exact;
      var before, e := es[..|es| - 1], es[|es| - 1];
      RunKeepsExact(before);
      assert es == before + [e];
      RunNext(START, before, e);
      AtMostOneCallInFlight(before);
      StepKeepsExact(Run(START, before), e);
    }
  }

  /**
   A verdict on the outstanding call raises the level exactly when it is positive, the level is not the highest, and
   since the call's dispatch no session began and no streak escalated, and the call was not the first one dispatched
   after a streak escalation; and then by one rank.
   */
  lemma VerdictEscalatesIff(es: seq<Event>, should: bool)
    requires Run(START, es).calls != []
    ensures var y := Run(START, es);
            var after, d := Step(y, Verdict(0, should)).st.level, y.calls[0].at;
            && (after != y.st.level <==>
                && should && y.st.level != Planning
                && NoReset(y.trace, d, |y.trace|) && NoStreakSince(y.trace, d)
                && forall j :: !Unanswered(y.trace, j, d))
            && (after != y.st.level ==>
                if y.st.level == Standard then after == CodeComplex else y.st.level == CodeComplex && after == Planning)
  {
    RunKeepsExact(es);
    ReachableInv(es);
    var y := Run(START, es);
    hide Run;
    var c := y.calls[0];
    assert c in y.calls && CallExact(y, c) && CallFacts(y, c);
    if c.sessionAt == y.st.session && c.levelAt == y.st.level {
      assert NoStreakSince(y.trace, c.at);
    }
  }

  /**
   * A turn dispatches a call exactly when a model is there, none is in flight, and it is turn 2, 5, 8 ... of its
   * session.
   */
  lemma DispatchesIff(es: seq<Event>, rec: TurnRecord, hasText: bool, frustrated: bool, model: bool)
    ensures var y := Run(START, es);
            var y' := Step(y, Turn(rec, hasText, frustrated, model));
            |y'.calls| > |y.calls| <==> model && y.calls == [] && |TurnsSince(y.trace)| % 3 == 1
  {
    ReachableInv(es);
    var y := Run(START, es);
    hide Run;
    TurnCount(y.st, rec, hasText, frustrated);
  }

  lemma TurnCount(s: State, rec: TurnRecord, hasText: bool, frustrated: bool)
    ensures var s1 := StreakCheck(Remember(s, rec), hasText, frustrated);
            s1.turnCount == s.turnCount + 1 && s1.inFlight == s.inFlight && (Due(s1) <==> s.turnCount % 3 == 1)
  {
  }
}
