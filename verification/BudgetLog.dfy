/**
 * The spend counter of src/budget-pacing.ts over the usage log src/cache.ts keeps: the log is cut to the last 30 days,
 * a budget window can be longer.
 */
module BudgetLog {
  import opened BudgetPacing
  import opened Calendar
  import opened Refs
  import opened Seqs
  import I = InstanceLog

  /** What addUsageLogEntry keeps. */
  function Kept(log: seq<UsageEntry>, cutoff: int): seq<UsageEntry> {
    if log == [] then []
    else
      var n := |log| - 1;
      Kept(log[..n], cutoff) + (if log[n].ts > cutoff then [log[n]] else [])
  }

  /** Some ref of the provider adds to its counter. */
  ghost predicate Chargeable(unit: Unit, provider: string, cost: string -> Option<real>) {
    exists ref :: Charges(unit, provider, cost, ref)
  }

  ghost predicate Charges(unit: Unit, provider: string, cost: string -> Option<real>, ref: string) {
    Provider(ref) == provider && (unit == Tokens || (cost(ref).Some? && cost(ref).value != 0.0))
  }

  ghost predicate CutIsHarmless(unit: Unit, provider: string, from: int, cutoff: int, cost: string -> Option<real>) {
    forall log :: Total(Kept(log, cutoff), unit, provider, from, cost) == Total(log, unit, provider, from, cost)
  }

  lemma ChargeMeans(e: UsageEntry, unit: Unit, provider: string, from: int, cost: string -> Option<real>)
    ensures Charge(e, unit, provider, from, cost) != 0.0 ==> from <= e.ts && Charges(unit, provider, cost, e.ref)
    ensures from <= e.ts && e.tokens == 1 && Charges(unit, provider, cost, e.ref) ==>
              Charge(e, unit, provider, from, cost) != 0.0
  {
  }

  lemma TotalNext(
    log: seq<UsageEntry>, e: UsageEntry, unit: Unit, provider: string, from: int, cost: string -> Option<real>)
    ensures Total(log + [e], unit, provider, from, cost)
            == Total(log, unit, provider, from, cost) + Charge(e, unit, provider, from, cost)
  {
    assert (log + [e])[..|log|] == log;
  }

  lemma KeptNext(log: seq<UsageEntry>, e: UsageEntry, cutoff: int)
    ensures Kept(log + [e], cutoff) == if e.ts > cutoff then Kept(log, cutoff) + [e] else Kept(log, cutoff)
  {
    assert (log + [e])[..|log|] == log;
  }

  lemma {:induction false} KeptTotal(
    log: seq<UsageEntry>, unit: Unit, provider: string, from: int, cutoff: int, cost: string -> Option<real>)
    requires cutoff < from || !Chargeable(unit, provider, cost)
    ensures Total(Kept(log, cutoff), unit, provider, from, cost) == Total(log, unit, provider, from, cost)
  {
    if log == [] {
      assert Kept(log, cutoff) == log;
    } else {
      hide Charge, Charges, Total, Kept;
      var before, e := log[..|log| - 1], log[|log| - 1];
      KeptTotal(before, unit, provider, from, cutoff, cost);
      ChargeMeans(e, unit, provider, from, cost);
      TotalNext(before, e, unit, provider, from, cost);
      TotalNext(Kept(before, cutoff), e, unit, provider, from, cost);
      assert log == before + [e];
      KeptNext(before, e, cutoff);
    }
  }

  /** The counter over the cut log is the counter over the full one, for every log, exactly when the cut is in time. */
  lemma CutIsHarmlessIff(unit: Unit, provider: string, from: int, cutoff: int, cost: string -> Option<real>)
    ensures CutIsHarmless(unit, provider, from, cutoff, cost) <==>
            cutoff < from || !Chargeable(unit, provider, cost)
  {
    hide Charge, Charges;
    if cutoff < from || !Chargeable(unit, provider, cost) {
      forall log
        ensures Total(Kept(log, cutoff), unit, provider, from, cost) == Total(log, unit, provider, from, cost)
      {
        KeptTotal(log, unit, provider, from, cutoff, cost);
      }
    } else {
      var ref :| Charges(unit, provider, cost, ref);
      var e := UsageEntry(from, ref, 1);
      ChargeMeans(e, unit, provider, from, cost);
      assert Kept([e], cutoff) == [];
      assert Total([e], unit, provider, from, cost) == Charge(e, unit, provider, from, cost);
    }
  }

  /**
   * A window has 31 days or at most 30, and is as long as its first month if that month and the next have the reset
   * day.
   */
  lemma WindowLength(now: int, resetDay: int, offset: int)
    requires 1 <= resetDay <= 31 && !TwoDigitYear(now, resetDay, offset)
    ensures var length := WindowEnd(now, resetDay, offset) - WindowStart(now, resetDay, offset);
            length == 31 * MS_PER_DAY || length <= 30 * MS_PER_DAY
    ensures resetDay <= 28 ==>
              WindowEnd(now, resetDay, offset) - WindowStart(now, resetDay, offset)
              == MonthLength(WindowMonth(now, resetDay, offset)) * MS_PER_DAY
  {
    hide WindowStart, WindowEnd, WindowMonth, TwoDigitYear, FirstDay, MonthLength;
    var month := WindowMonth(now, resetDay, offset);
    WindowIs(now, resetDay, offset);
    NextMonth(month);
    NextMonth(month + 1);
  }

  /**
   * With the log cut to the 30 days before `now`, the counter is right for every log exactly while the window's last
   * day has not begun, or the window is shorter than 31 days, or nothing of the provider is charged at all.
   */
  lemma CounterOutlivesTheLogIff(b: Budget, provider: string, now: int, offset: int, cost: string -> Option<real>)
    requires Valid(b) && !TwoDigitYear(now, b.resetDay, offset)
    ensures var start, end := WindowStart(now, b.resetDay, offset), WindowEnd(now, b.resetDay, offset);
            CutIsHarmless(b.unit, provider, start, now - I.THIRTY_DAYS_MS, cost) <==>
            now < end - MS_PER_DAY || end - start < 31 * MS_PER_DAY || !Chargeable(b.unit, provider, cost)
  {
    hide WindowStart, WindowEnd, TwoDigitYear, CutIsHarmless, Chargeable;
    CutIsHarmlessIff(b.unit, provider, WindowStart(now, b.resetDay, offset), now - I.THIRTY_DAYS_MS, cost);
    WindowLength(now, b.resetDay, offset);
    WindowHoldsNowIff(now, b.resetDay, offset);
  }
}
