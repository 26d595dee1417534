/** src/budget-pacing.ts: monthly budget windows, the linear pace target and the spend counter. */
module BudgetPacing {
  import opened Calendar
  import opened Refs
  import opened Seqs

  function Min(a: int, b: int): int {
    if a <= b then a else b
  }

  /** clamp(y, m): the reset day of a month, at most its last day, at local midnight. */
  function Clamp(year: int, month: int, resetDay: int, offset: int): int {
    var last := DateOf(DayAt(NewDate(year, month + 1, 0, 0, offset), offset));
    NewDate(year, month, Min(resetDay, last), 0, offset)
  }

  /** budgetWindowStart. */
  function WindowStart(now: int, resetDay: int, offset: int): int {
    var today := MonthAt(now, offset);
    var thisMonth := Clamp(today / 12, today % 12, resetDay, offset);
    if thisMonth <= now then thisMonth
    else
      var prev := MonthAt(NewDate(today / 12, today % 12 - 1, 1, 0, offset), offset);
      Clamp(prev / 12, prev % 12, resetDay, offset)
  }

  /** budgetWindowEnd. */
  function WindowEnd(now: int, resetDay: int, offset: int): int {
    var start := MonthAt(WindowStart(now, resetDay, offset), offset);
    var last := DateOf(DayAt(NewDate(start / 12, start % 12 + 2, 0, 0, offset), offset));
    NewDate(start / 12, start % 12 + 1, Min(resetDay, last), 0, offset)
  }

  // ---- What a window should be ----

  /** Local midnight of the reset day, or of the last day of a shorter month. */
  predicate IsReset(t: int, resetDay: int, offset: int) {
    && TimeOfDay(t, offset) == 0
    && DateOf(DayAt(t, offset)) == Min(resetDay, MonthLength(MonthAt(t, offset)))
  }

  function ResetDayOf(month: int, resetDay: int): int {
    FirstDay(month) + Min(resetDay, MonthLength(month)) - 1
  }

  function ResetAt(month: int, resetDay: int, offset: int): int {
    ResetDayOf(month, resetDay) * MS_PER_DAY - offset
  }

  /** The month whose reset opens the window holding `now`. */
  function WindowMonth(now: int, resetDay: int, offset: int): int {
    var today := MonthAt(now, offset);
    if ResetAt(today, resetDay, offset) <= now then today else today - 1
  }

  /**
   * The instants for which the Date constructor misreads a year it is given: the years 0 to 99, and the first days
   * of the year 100, whose window opens in the year 99.
   */
  predicate TwoDigitYear(now: int, resetDay: int, offset: int) {
    YEAR_0 <= DayAt(now, offset) < YEAR_100 + resetDay - 1
  }

  lemma TwoDigitYearMeans(now: int, resetDay: int, offset: int)
    requires 1 <= resetDay <= 31
    ensures TwoDigitYear(now, resetDay, offset) <==>
            var year := MonthAt(now, offset) / 12;
            0 <= year <= 99 || (year == 100 && WindowMonth(now, resetDay, offset) / 12 == 99)
  {
    hide MonthLength, FirstDay, MonthOf, DayAt;
    var day, month := DayAt(now, offset), MonthAt(now, offset);
    MisreadYears(day);
    FirstDayIs(1200, 100, 0);
    JanuaryIsLong();
    if month == 1200 {
      DayBounds(now, offset);
      assert ResetDayOf(1200, resetDay) == YEAR_100 + resetDay - 1;
    } else if month > 1200 {
      JanuaryIsOver(day, month);
    }
  }

  lemma JanuaryIsLong()
    ensures MonthLength(1200) == 31
  {
  }

  lemma JanuaryIsOver(day: int, month: int)
    requires FirstDay(month) <= day && 1200 < month
    ensures YEAR_100 + 31 <= day
  {
    FirstDayIs(1200, 100, 0);
    hide FirstDay;
    NextMonth(1200);
    MonthsApart(1201, month);
    JanuaryIsLong();
  }

  lemma ResetDayInMonth(month: int, resetDay: int)
    requires 1 <= resetDay
    ensures FirstDay(month) <= ResetDayOf(month, resetDay) < FirstDay(month + 1)
    ensures MonthOf(ResetDayOf(month, resetDay)) == month
  {
    NextMonth(month);
    MonthIsUnique(month, ResetDayOf(month, resetDay));
  }

  lemma MonthAtReset(month: int, resetDay: int, offset: int)
    requires 1 <= resetDay
    ensures MonthAt(ResetAt(month, resetDay, offset), offset) == month
    ensures IsReset(ResetAt(month, resetDay, offset), resetDay, offset)
  {
    hide FirstDay, MonthLength, MonthOf;
    InstantFields(ResetDayOf(month, resetDay), 0, offset);
    ResetDayInMonth(month, resetDay);
  }

  lemma ResetIsOfItsMonth(t: int, resetDay: int, offset: int)
    requires IsReset(t, resetDay, offset)
    ensures t == ResetAt(MonthAt(t, offset), resetDay, offset)
  {
    assert DayAt(t, offset) == ResetDayOf(MonthAt(t, offset), resetDay);
  }

  lemma ResetsIncrease(a: int, b: int, resetDay: int, offset: int)
    requires 1 <= resetDay && a < b
    ensures ResetAt(a, resetDay, offset) < ResetAt(b, resetDay, offset)
  {
    ResetDayInMonth(a, resetDay);
    ResetDayInMonth(b, resetDay);
    MonthsApart(a + 1, b);
    assert ResetDayOf(a, resetDay) < ResetDayOf(b, resetDay);
  }

  /** A later month resets after `now`, an earlier one before it. */
  lemma ResetsAround(now: int, month: int, resetDay: int, offset: int)
    requires 1 <= resetDay
    ensures MonthAt(now, offset) < month ==> now < ResetAt(month, resetDay, offset)
    ensures month < MonthAt(now, offset) ==> ResetAt(month, resetDay, offset) < now
  {
    hide FirstDay, MonthLength;
    var today := MonthAt(now, offset);
    DayBounds(now, offset);
    ResetDayInMonth(month, resetDay);
    if today < month {
      MonthsApart(today + 1, month);
      assert DayAt(now, offset) + 1 <= ResetDayOf(month, resetDay);
    } else if month < today {
      MonthsApart(month + 1, today);
      assert ResetDayOf(month, resetDay) + 1 <= DayAt(now, offset);
    }
  }

  lemma WindowMonthHolds(now: int, resetDay: int, offset: int)
    requires 1 <= resetDay
    ensures ResetAt(WindowMonth(now, resetDay, offset), resetDay, offset) <= now
    ensures now < ResetAt(WindowMonth(now, resetDay, offset) + 1, resetDay, offset)
  {
    hide ResetAt, MonthAt;
    var today := MonthAt(now, offset);
    ResetsAround(now, today - 1, resetDay, offset);
    ResetsAround(now, today + 1, resetDay, offset);
  }

  lemma WindowMonthIsUnique(now: int, month: int, resetDay: int, offset: int)
    requires 1 <= resetDay
    requires ResetAt(month, resetDay, offset) <= now < ResetAt(month + 1, resetDay, offset)
    ensures WindowMonth(now, resetDay, offset) == month
  {
    hide ResetAt, WindowMonth;
    WindowMonthHolds(now, resetDay, offset);
    var other := WindowMonth(now, resetDay, offset);
    if other < month {
      if other + 1 < month { ResetsIncrease(other + 1, month, resetDay, offset); }
    } else if month < other {
      if month + 1 < other { ResetsIncrease(month + 1, other, resetDay, offset); }
    }
  }

  // ---- What the code computes ----

  lemma LastOfMonth(year: int, month: int, offset: int)
    ensures DateOf(DayAt(NewDate(year, month + 1, 0, 0, offset), offset)) == MonthLength(12 * FullYear(year) + month)
  {
    hide FirstDay, MonthLength, DayAt, DateOf, FullYear;
    InstantFields(MakeDay(FullYear(year), month + 1, 0), 0, offset);
    DayZero(12 * FullYear(year) + month);
  }

  lemma ClampIsReset(year: int, month: int, resetDay: int, offset: int)
    ensures Clamp(year, month, resetDay, offset) == ResetAt(12 * FullYear(year) + month, resetDay, offset)
  {
    LastOfMonth(year, month, offset);
  }

  lemma FirstOfMonth(year: int, month: int, offset: int)
    ensures MonthAt(NewDate(year, month, 1, 0, offset), offset) == 12 * FullYear(year) + month
  {
    hide FirstDay, MonthLength, DayAt, FullYear;
    InstantFields(MakeDay(FullYear(year), month, 1), 0, offset);
    NextMonth(12 * FullYear(year) + month);
    FieldsRoundTrip(FullYear(year), month, 1);
  }

  /** The month the code reads back from a month's year and number. */
  function ReadBack(month: int): int {
    12 * FullYear(month / 12) + month % 12
  }

  lemma ReadBackIff(month: int)
    ensures ReadBack(month) == month <==> !(0 <= month / 12 <= 99)
    ensures ReadBack(month) != month ==> ReadBack(month) == month + 22_800
  {
  }

  lemma StartIs(now: int, resetDay: int, offset: int)
    requires 1 <= resetDay
    ensures var today := ReadBack(MonthAt(now, offset));
            WindowStart(now, resetDay, offset) ==
            ResetAt(if ResetAt(today, resetDay, offset) <= now then today else ReadBack(today - 1), resetDay, offset)
  {
    hide ResetAt, MonthAt, NewDate, Clamp;
    var month := MonthAt(now, offset);
    ClampIsReset(month / 12, month % 12, resetDay, offset);
    FirstOfMonth(month / 12, month % 12 - 1, offset);
    var prev := 12 * FullYear(month / 12) + (month % 12 - 1);
    ClampIsReset(prev / 12, prev % 12, resetDay, offset);
  }

  lemma EndIs(now: int, resetDay: int, offset: int, month: int)
    requires 1 <= resetDay
    requires WindowStart(now, resetDay, offset) == ResetAt(month, resetDay, offset)
    ensures WindowEnd(now, resetDay, offset) == ResetAt(ReadBack(month) + 1, resetDay, offset)
  {
    hide FirstDay, MonthLength, MonthAt, DateOf, DayAt, WindowStart;
    MonthAtReset(month, resetDay, offset);
    LastOfMonth(month / 12, month % 12 + 1, offset);
  }

  /** Outside the misread years the window is the one the reset instants bound. */
  lemma WindowIs(now: int, resetDay: int, offset: int)
    requires 1 <= resetDay <= 31 && !TwoDigitYear(now, resetDay, offset)
    ensures WindowStart(now, resetDay, offset) == ResetAt(WindowMonth(now, resetDay, offset), resetDay, offset)
    ensures WindowEnd(now, resetDay, offset) == ResetAt(WindowMonth(now, resetDay, offset) + 1, resetDay, offset)
  {
    hide ResetAt, MonthAt, WindowStart, WindowEnd, ReadBack;
    TwoDigitYearMeans(now, resetDay, offset);
    var month := WindowMonth(now, resetDay, offset);
    StartIs(now, resetDay, offset);
    ReadBackIff(MonthAt(now, offset));
    ReadBackIff(MonthAt(now, offset) - 1);
    EndIs(now, resetDay, offset, month);
  }

  lemma MisreadWindow(now: int, resetDay: int, offset: int)
    requires 1 <= resetDay <= 31 && TwoDigitYear(now, resetDay, offset)
    ensures now < WindowStart(now, resetDay, offset)
  {
    hide ResetAt, MonthAt, WindowStart, WindowEnd, ReadBack;
    TwoDigitYearMeans(now, resetDay, offset);
    var today := MonthAt(now, offset);
    StartIs(now, resetDay, offset);
    ReadBackIff(today);
    ReadBackIff(today - 1);
    ReadBackIff(ReadBack(today) - 1);
    ResetsAround(now, ReadBack(today), resetDay, offset);
    ResetsAround(now, ReadBack(ReadBack(today) - 1), resetDay, offset);
  }

  /** The window holds `now` exactly when no two-digit year is involved. */
  lemma WindowHoldsNowIff(now: int, resetDay: int, offset: int)
    requires 1 <= resetDay <= 31
    ensures WindowStart(now, resetDay, offset) <= now < WindowEnd(now, resetDay, offset)
            <==> !TwoDigitYear(now, resetDay, offset)
  {
    hide ResetAt, WindowMonth, WindowStart, WindowEnd, TwoDigitYear;
    if TwoDigitYear(now, resetDay, offset) {
      MisreadWindow(now, resetDay, offset);
    } else {
      WindowIs(now, resetDay, offset);
      WindowMonthHolds(now, resetDay, offset);
    }
  }

  /** The start is the latest reset instant up to `now` and the end the earliest one after it. */
  lemma WindowIsBetweenResets(now: int, resetDay: int, offset: int, t: int)
    requires 1 <= resetDay <= 31 && !TwoDigitYear(now, resetDay, offset)
    ensures IsReset(WindowStart(now, resetDay, offset), resetDay, offset)
    ensures IsReset(WindowEnd(now, resetDay, offset), resetDay, offset)
    ensures IsReset(t, resetDay, offset) ==>
              t <= WindowStart(now, resetDay, offset) || WindowEnd(now, resetDay, offset) <= t
  {
    hide ResetAt, WindowMonth, WindowStart, WindowEnd, TwoDigitYear, IsReset, MonthAt;
    var month := WindowMonth(now, resetDay, offset);
    WindowIs(now, resetDay, offset);
    MonthAtReset(month, resetDay, offset);
    MonthAtReset(month + 1, resetDay, offset);
    if IsReset(t, resetDay, offset) {
      var own := MonthAt(t, offset);
      ResetIsOfItsMonth(t, resetDay, offset);
      if own < month { ResetsIncrease(own, month, resetDay, offset); }
      if month + 1 < own { ResetsIncrease(month + 1, own, resetDay, offset); }
    }
  }

  /** Every instant of a window maps to that window, and its end opens the next one. */
  lemma WindowsTile(now: int, t: int, resetDay: int, offset: int)
    requires 1 <= resetDay <= 31 && !TwoDigitYear(now, resetDay, offset) && !TwoDigitYear(t, resetDay, offset)
    ensures WindowStart(now, resetDay, offset) <= t < WindowEnd(now, resetDay, offset) ==>
              WindowStart(t, resetDay, offset) == WindowStart(now, resetDay, offset) &&
              WindowEnd(t, resetDay, offset) == WindowEnd(now, resetDay, offset)
    ensures t == WindowEnd(now, resetDay, offset) ==> WindowStart(t, resetDay, offset) == t
  {
    hide ResetAt, WindowMonth, WindowStart, WindowEnd, TwoDigitYear;
    var month := WindowMonth(now, resetDay, offset);
    WindowIs(now, resetDay, offset);
    WindowIs(t, resetDay, offset);
    if WindowStart(now, resetDay, offset) <= t < WindowEnd(now, resetDay, offset) {
      WindowMonthIsUnique(t, month, resetDay, offset);
    }
    if t == WindowEnd(now, resetDay, offset) {
      ResetsIncrease(month + 1, month + 2, resetDay, offset);
      WindowMonthIsUnique(t, month + 1, resetDay, offset);
    }
  }

  // ---- Pace and spend ----

  datatype Unit = Usd | Tokens

  /** A budget that passed validBudget. */
  datatype Budget = Budget(amount: real, unit: Unit, resetDay: int)

  datatype UsageEntry = UsageEntry(ts: int, ref: string, tokens: int)

  ghost predicate Valid(b: Budget) {
    b.amount > 0.0 && 1 <= b.resetDay <= 31
  }

  /** linearPaceTarget, over exact numbers. */
  function PaceTarget(b: Budget, now: int, offset: int): real {
    var start := WindowStart(now, b.resetDay, offset);
    var span := WindowEnd(now, b.resetDay, offset) - start;
    if span <= 0 then b.amount
    else
      var fraction := (now - start) as real / span as real;
      b.amount * (if fraction <= 0.0 then 0.0 else if fraction >= 1.0 then 1.0 else fraction)
  }

  predicate IsAheadOfPace(b: Budget, used: real, now: int, offset: int) {
    used > PaceTarget(b, now, offset)
  }

  lemma Scale(amount: real, a: int, b: int, span: int)
    requires amount > 0.0 && 0 <= a <= b < span
    ensures 0.0 <= amount * (a as real / span as real) <= amount * (b as real / span as real) < amount
    ensures a < b ==> amount * (a as real / span as real) < amount * (b as real / span as real)
  {
    var x, y := a as real / span as real, b as real / span as real;
    Fraction(0, a, span);
    Fraction(a, b, span);
    Fraction(b, span, span);
    Times(amount, x, y);
    Times(amount, y, 1.0);
  }

  lemma Fraction(a: int, b: int, span: int)
    requires 0 <= a <= b && 0 < span
    ensures 0.0 <= a as real / span as real <= b as real / span as real
    ensures a < b ==> a as real / span as real < b as real / span as real
    ensures span as real / span as real == 1.0
  {
    var x, y := a as real / span as real, b as real / span as real;
    assert x * span as real == a as real && y * span as real == b as real;
    if y <= x { Times(span as real, if y < 0.0 then 0.0 else y, x); }
  }

  lemma Times(amount: real, x: real, y: real)
    requires amount > 0.0 && 0.0 <= x <= y
    ensures 0.0 <= amount * x <= amount * y
    ensures x < y ==> amount * x < amount * y
  {
    assert amount * y - amount * x == amount * (y - x);
  }

  /** Inside a window the target starts at 0, grows strictly and stays below the amount. */
  lemma TargetGrows(b: Budget, now: int, later: int, offset: int)
    requires Valid(b) && !TwoDigitYear(now, b.resetDay, offset) && !TwoDigitYear(later, b.resetDay, offset)
    requires now <= later < WindowEnd(now, b.resetDay, offset)
    ensures 0.0 <= PaceTarget(b, now, offset) <= PaceTarget(b, later, offset) < b.amount
    ensures now < later ==> PaceTarget(b, now, offset) < PaceTarget(b, later, offset)
    ensures PaceTarget(b, now, offset) == 0.0 <==> now == WindowStart(now, b.resetDay, offset)
  {
    hide WindowStart, WindowEnd, TwoDigitYear;
    var start, end := WindowStart(now, b.resetDay, offset), WindowEnd(now, b.resetDay, offset);
    WindowHoldsNowIff(now, b.resetDay, offset);
    WindowsTile(now, later, b.resetDay, offset);
    TargetInside(b, now, offset, start, end);
    TargetInside(b, later, offset, start, end);
    Scale(b.amount, now - start, later - start, end - start);
    Scale(b.amount, 0, now - start, end - start);
  }

  lemma TargetInside(b: Budget, now: int, offset: int, start: int, end: int)
    requires start == WindowStart(now, b.resetDay, offset) && end == WindowEnd(now, b.resetDay, offset)
    requires start <= now < end
    ensures PaceTarget(b, now, offset) == b.amount * ((now - start) as real / (end - start) as real)
  {
    hide WindowStart, WindowEnd;
    var fraction := (now - start) as real / (end - start) as real;
    assert 0.0 <= fraction < 1.0;
  }

  // ---- providerSpend ----

  /** What one entry adds to the counter of `provider` since `from`; `cost` is the price per million tokens. */
  function Charge(e: UsageEntry, unit: Unit, provider: string, from: int, cost: string -> Option<real>): real {
    if e.ts < from || Provider(e.ref) != provider then 0.0
    else if unit == Tokens then e.tokens as real
    else if cost(e.ref).Some? then e.tokens as real * cost(e.ref).value / 1_000_000.0
    else 0.0
  }

  function Total(log: seq<UsageEntry>, unit: Unit, provider: string, from: int, cost: string -> Option<real>): real {
    if log == [] then 0.0
    else Total(log[..|log| - 1], unit, provider, from, cost) + Charge(log[|log| - 1], unit, provider, from, cost)
  }

  method ProviderSpend(
    b: Budget, provider: string, log: seq<UsageEntry>, now: int, offset: int, cost: string -> Option<real>)
    returns (sum: real)
    ensures sum == Total(log, b.unit, provider, WindowStart(now, b.resetDay, offset), cost)
  {
    hide WindowStart;
    var windowStart := WindowStart(now, b.resetDay, offset);
    sum := 0.0;
    for i := 0 to |log|
      invariant sum == Total(log[..i], b.unit, provider, windowStart, cost)
    {
      var e := log[i];
      assert log[..i + 1][..i] == log[..i];
      if e.ts < windowStart { continue; }
      if Provider(e.ref) != provider { continue; }
      if b.unit == Tokens {
        sum := sum + e.tokens as real;
      } else {
        var price := cost(e.ref);
        if price.Some? { sum := sum + e.tokens as real * price.value / 1_000_000.0; }
      }
    }
    assert log[..|log|] == log;
  }

  lemma {:induction false} TotalSum(
    a: seq<UsageEntry>, b: seq<UsageEntry>, unit: Unit, provider: string, from: int, cost: string -> Option<real>)
    ensures Total(a + b, unit, provider, from, cost)
            == Total(a, unit, provider, from, cost) + Total(b, unit, provider, from, cost)
  {
    if b == [] {
      assert a + b == a;
    } else {
      assert (a + b)[..|a + b| - 1] == a + b[..|b| - 1];
      TotalSum(a, b[..|b| - 1], unit, provider, from, cost);
    }
  }

  /**
   * What one entry adds to a log: nothing if it is older than the window or of another provider; its tokens under a
   * token budget; its tokens times the price per million under a dollar budget, or nothing if the price is unknown.
   */
  lemma EntryAdds(
    log: seq<UsageEntry>, e: UsageEntry, unit: Unit, provider: string, id: string, from: int,
    cost: string -> Option<real>)
    requires '/' !in provider
    ensures var before, after := Total(log, unit, provider, from, cost), Total(log + [e], unit, provider, from, cost);
            && (e.ts < from || Provider(e.ref) != provider ==> after == before)
            && (e.ts >= from && e.ref == provider + "/" + id ==>
                  match (unit, cost(e.ref))
                  case (Tokens, _) => after == before + e.tokens as real
                  case (Usd, Some(price)) => (after - before) * 1_000_000.0 == e.tokens as real * price
                  case (Usd, None) => after == before)
  {
    ProviderIs(provider, id);
    assert [e][..0] == [];
    assert Total([e], unit, provider, from, cost) == Charge(e, unit, provider, from, cost);
    TotalSum(log, [e], unit, provider, from, cost);
  }

  /** Entries that charge nothing leave the counter alone. */
  lemma {:induction false} IdleEntries(
    log: seq<UsageEntry>, extra: seq<UsageEntry>, unit: Unit, provider: string, from: int, cost: string -> Option<real>)
    requires forall e :: e in extra ==> Charge(e, unit, provider, from, cost) == 0.0
    ensures Total(log + extra, unit, provider, from, cost) == Total(log, unit, provider, from, cost)
  {
    if extra == [] {
      assert log + extra == log;
    } else {
      var n := |extra| - 1;
      IdleEntries(log, extra[..n], unit, provider, from, cost);
      assert (log + extra)[..|log + extra| - 1] == log + extra[..n];
      assert extra[n] in extra;
    }
  }

  /** A provider that is not ahead of its pace and then spends nothing is not ahead until the window ends. */
  lemma IdleProviderStaysBehind(
    b: Budget, provider: string, log: seq<UsageEntry>, extra: seq<UsageEntry>, now: int, later: int, offset: int,
    cost: string -> Option<real>)
    requires Valid(b) && !TwoDigitYear(now, b.resetDay, offset) && !TwoDigitYear(later, b.resetDay, offset)
    requires now <= later < WindowEnd(now, b.resetDay, offset)
    requires forall e :: e in extra ==> Provider(e.ref) != provider || e.ts < WindowStart(now, b.resetDay, offset)
    requires !IsAheadOfPace(b, Total(log, b.unit, provider, WindowStart(now, b.resetDay, offset), cost), now, offset)
    ensures !IsAheadOfPace(b, Total(log + extra, b.unit, provider, WindowStart(later, b.resetDay, offset), cost),
            later, offset)
  {
    hide WindowStart, WindowEnd, TwoDigitYear, PaceTarget;
    WindowHoldsNowIff(now, b.resetDay, offset);
    WindowsTile(now, later, b.resetDay, offset);
    IdleEntries(log, extra, b.unit, provider, WindowStart(now, b.resetDay, offset), cost);
    TargetGrows(b, now, later, offset);
  }

  /** Whatever was spent before the window ended, the next window opens with nothing spent and nobody ahead. */
  lemma NextWindowOpensEven(
    b: Budget, provider: string, log: seq<UsageEntry>, now: int, offset: int, cost: string -> Option<real>)
    requires Valid(b) && !TwoDigitYear(now, b.resetDay, offset)
    requires !TwoDigitYear(WindowEnd(now, b.resetDay, offset), b.resetDay, offset)
    requires forall e :: e in log ==> e.ts < WindowEnd(now, b.resetDay, offset)
    ensures var t := WindowEnd(now, b.resetDay, offset);
            var spent := Total(log, b.unit, provider, WindowStart(t, b.resetDay, offset), cost);
            spent == 0.0 && !IsAheadOfPace(b, spent, t, offset)
  {
    hide WindowStart, WindowEnd, TwoDigitYear, PaceTarget;
    var t := WindowEnd(now, b.resetDay, offset);
    WindowsTile(now, t, b.resetDay, offset);
    WindowHoldsNowIff(t, b.resetDay, offset);
    IdleEntries([], log, b.unit, provider, t, cost);
    assert [] + log == log;
    TargetGrows(b, t, t, offset);
  }

  // ---- pacedProviders and its memo ----

  const MEMO_TTL_MS: int := 30_000

  /** `cfg` and `log` stand for the identities of the two objects the memo compares. */
  datatype Memo = Memo(cfg: nat, log: nat, at: int, paced: set<string>)

  /** One call, with the valid budgets of its config and what its log holds by then. */
  datatype Call = Call(cfg: nat, log: nat, budgets: map<string, Budget>, entries: seq<UsageEntry>, now: int)

  /** The setting that does not change between calls. */
  datatype Setting = Setting(offset: int, cost: string -> Option<real>)

  function Spend(c: Call, provider: string, s: Setting): real
    requires provider in c.budgets
  {
    var b := c.budgets[provider];
    Total(c.entries, b.unit, provider, WindowStart(c.now, b.resetDay, s.offset), s.cost)
  }

  function Paced(c: Call, s: Setting): set<string> {
    set p | p in c.budgets && Spend(c, p, s) > 0.0 && IsAheadOfPace(c.budgets[p], Spend(c, p, s), c.now, s.offset)
  }

  predicate Usable(memo: Option<Memo>, c: Call) {
    && memo.Some? && memo.value.cfg == c.cfg && memo.value.log == c.log
    && c.now - memo.value.at < MEMO_TTL_MS && c.now >= memo.value.at
  }

  function Answer(memo: Option<Memo>, c: Call, s: Setting): set<string> {
    if Usable(memo, c) then memo.value.paced else Paced(c, s)
  }

  function MemoAfter(memo: Option<Memo>, c: Call, s: Setting): Option<Memo> {
    if Usable(memo, c) then memo else Some(Memo(c.cfg, c.log, c.now, Paced(c, s)))
  }

  class Pacer {
    var memo: Option<Memo>

    constructor ()
      ensures memo == None
    {
      memo := None;
    }

    method PacedProviders(c: Call, s: Setting) returns (r: set<string>)
      modifies this
      ensures r == Answer(old(memo), c, s) && memo == MemoAfter(old(memo), c, s)
    {
      if memo.Some? && memo.value.cfg == c.cfg && memo.value.log == c.log
         && c.now - memo.value.at < MEMO_TTL_MS && c.now >= memo.value.at {
        return memo.value.paced;
      }
      r := {};
      var todo := c.budgets.Keys;
      while todo != {}
        modifies {}
        invariant todo <= c.budgets.Keys
        invariant forall p :: p in r <==> p in c.budgets && p !in todo && p in Paced(c, s)
        decreases todo
      {
        hide Paced;
        var p :| p in todo;
        var ahead := IsPaced(c, p, s);
        if ahead { r := r + {p}; }
        todo := todo - {p};
      }
      assert r == Paced(c, s);
      memo := Some(Memo(c.cfg, c.log, c.now, r));
    }

    static method IsPaced(c: Call, provider: string, s: Setting) returns (ahead: bool)
      requires provider in c.budgets
      ensures ahead <==> provider in Paced(c, s)
    {
      hide WindowStart, PaceTarget, Total;
      var b := c.budgets[provider];
      var spend := ProviderSpend(b, provider, c.entries, c.now, s.offset, s.cost);
      ahead := spend > 0.0 && IsAheadOfPace(b, spend, c.now, s.offset);
    }
  }

  function MemoAt(calls: seq<Call>, n: nat, s: Setting): Option<Memo>
    requires n <= |calls|
  {
    if n == 0 then None else MemoAfter(MemoAt(calls, n - 1, s), calls[n - 1], s)
  }

  /** The memo was filled by an earlier call, with the exact set of that call. */
  lemma {:induction false} MemoComesFrom(calls: seq<Call>, n: nat, s: Setting)
    requires n <= |calls| && MemoAt(calls, n, s).Some?
    ensures exists j :: 0 <= j < n &&
              MemoAt(calls, n, s).value == Memo(calls[j].cfg, calls[j].log, calls[j].now, Paced(calls[j], s))
  {
    hide Paced;
    if Usable(MemoAt(calls, n - 1, s), calls[n - 1]) {
      MemoComesFrom(calls, n - 1, s);
    } else {
      assert MemoAt(calls, n, s).value
          == Memo(calls[n - 1].cfg, calls[n - 1].log, calls[n - 1].now, Paced(calls[n - 1], s));
    }
  }

  /**
   * In every run of calls each answer is the exact paced set of that call or of an earlier one with the same config
   * and log objects, less than 30 seconds before it, however the log has grown since.
   */
  lemma AnswerIsRecent(calls: seq<Call>, i: nat, s: Setting)
    requires i < |calls|
    ensures exists j :: 0 <= j <= i && Answer(MemoAt(calls, i, s), calls[i], s) == Paced(calls[j], s) &&
              calls[j].cfg == calls[i].cfg && calls[j].log == calls[i].log &&
              0 <= calls[i].now - calls[j].now < MEMO_TTL_MS
  {
    hide Paced;
    if Usable(MemoAt(calls, i, s), calls[i]) {
      MemoComesFrom(calls, i, s);
    } else {
      assert Answer(MemoAt(calls, i, s), calls[i], s) == Paced(calls[i], s);
    }
  }

  lemma PacedMeans(c: Call, s: Setting, provider: string)
    requires provider in c.budgets
    ensures var b := c.budgets[provider];
            var spent := Total(c.entries, b.unit, provider, WindowStart(c.now, b.resetDay, s.offset), s.cost);
            provider in Paced(c, s) <==> spent > 0.0 && spent > PaceTarget(b, c.now, s.offset)
  {
    hide WindowStart, Total, PaceTarget;
  }

  /**
   * A provider is paced exactly when it has spent more than the part of its amount that corresponds to the part of the
   * window that has passed.
   */
  lemma PacedIs(c: Call, s: Setting, provider: string)
    requires provider in c.budgets && Valid(c.budgets[provider])
    requires !TwoDigitYear(c.now, c.budgets[provider].resetDay, s.offset)
    ensures var b := c.budgets[provider];
            var start, end := WindowStart(c.now, b.resetDay, s.offset), WindowEnd(c.now, b.resetDay, s.offset);
            provider in Paced(c, s) <==>
            Total(c.entries, b.unit, provider, start, s.cost) * (end - start) as real
            > b.amount * (c.now - start) as real
  {
    hide WindowStart, WindowEnd, TwoDigitYear, Total, PaceTarget;
    var b := c.budgets[provider];
    var start, end := WindowStart(c.now, b.resetDay, s.offset), WindowEnd(c.now, b.resetDay, s.offset);
    PacedMeans(c, s, provider);
    hide Paced;
    WindowHoldsNowIff(c.now, b.resetDay, s.offset);
    TargetInside(b, c.now, s.offset, start, end);
    Crosswise(Total(c.entries, b.unit, provider, start, s.cost), b.amount, c.now - start, end - start);
  }

  lemma Crosswise(spent: real, amount: real, passed: int, length: int)
    requires amount > 0.0 && 0 <= passed < length
    ensures var target := amount * (passed as real / length as real);
            spent > 0.0 && spent > target <==> spent * length as real > amount * passed as real
  {
    var f := passed as real / length as real;
    assert f * length as real == passed as real;
    Fraction(0, passed, length);
    Times(amount, 0.0, f);
    assert (amount * f) * length as real == amount * passed as real;
    Scaled(spent, amount * f, length as real);
  }

  lemma Scaled(x: real, y: real, k: real)
    requires k > 0.0
    ensures x > y <==> x * k > y * k
  {
    assert x * k - y * k == (x - y) * k;
  }

  /**
   * Calls with the same objects less than 30 seconds after the memo was filled get its answer without looking at
   * the log.
   */
  lemma MemoSpares(calls: seq<Call>, i: nat, s: Setting)
    requires 0 < i < |calls| && calls[i].cfg == calls[i - 1].cfg && calls[i].log == calls[i - 1].log
    requires MemoAt(calls, i, s).Some? && 0 <= calls[i].now - MemoAt(calls, i, s).value.at < 30_000
    ensures Answer(MemoAt(calls, i, s), calls[i], s) == Answer(MemoAt(calls, i - 1, s), calls[i - 1], s)
    ensures MemoAt(calls, i + 1, s) == MemoAt(calls, i, s)
  {
    hide Paced;
  }
}
