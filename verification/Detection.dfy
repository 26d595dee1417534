/** src/detection.ts: the arithmetic behind "resets 7pm", "resets 9:52:44 PM" and the free-tier midnight. */
module Detection {
  import opened Seqs
  import opened Calendar

  const WEEK: int := 7 * MS_PER_DAY

  /** The year a formatter in the en-US locale shows: there is no year 0. */
  function ShownYear(year: int): int {
    if year >= 1 then year else 1 - year
  }

  function ClockMs(hour: int, minute: int, second: int): int {
    ((hour * 60 + minute) * 60 + second) * 1000
  }

  /** zonedTimeToUtcMs: guess that the fields are UTC, format the guess in the zone, subtract the difference. */
  function ZonedTimeToUtc(year: int, month: int, day: int, hour: int, minute: int, offset: int): int {
    var guess := NewDate(year, month - 1, day, ClockMs(hour, minute, 0), 0);
    var shown := MonthAt(guess, offset);
    var date := DateOf(DayAt(guess, offset));
    var seconds := TimeOfDay(guess, offset) / 1000;
    var guessedLocalAsUtc := NewDate(ShownYear(shown / 12), shown % 12, date, seconds * 1000, 0);
    guess + (guess - guessedLocalAsUtc)
  }

  /** parseInformalZonedReset after text matching: "<hour>[:<minute>] am|pm (<zone>)". */
  function InformalReset(now: int, hourRaw: nat, minute: nat, pm: bool, offset: int): Option<int> {
    var hour := hourRaw % 12 + if pm then 12 else 0;
    var today := MonthAt(now, offset);
    var date := DateOf(DayAt(now, offset));
    var first := ZonedTimeToUtc(ShownYear(today / 12), today % 12 + 1, date, hour, minute, offset);
    var ms := if first <= now
              then ZonedTimeToUtc(ShownYear(today / 12), today % 12 + 1, date + 1, hour, minute, offset) else first;
    if ms <= now || ms > now + WEEK then None else Some(ms)
  }

  datatype Half = Am | Pm | Unmarked

  function Hour24(hour: nat, half: Half): nat {
    match half
    case Pm => hour % 12 + 12
    case Am => hour % 12
    case Unmarked => hour
  }

  /** parseTimeOnlyReset after text matching: "resets <hour>:<minute>[:<second>] [am|pm]". */
  function TimeOnlyReset(now: int, hourRaw: nat, minute: nat, second: nat, half: Half, offset: int): Option<int> {
    var hour := Hour24(hourRaw, half);
    if hour > 23 || minute > 59 || second > 59 then None
    else
      var today := MonthAt(now, offset);
      var candidate :=
        NewDate(today / 12, today % 12, DateOf(DayAt(now, offset)), ClockMs(hour, minute, second), offset);
      var ms := if candidate <= now then candidate + MS_PER_DAY else candidate;
      if ms <= now || ms > now + WEEK then None else Some(ms)
  }

  /** The branches of nextUtcMidnightMs: the candidate and what is returned. */
  function MidnightCandidate(now: int): int {
    var today := MonthAt(now, 0);
    NewDate(today / 12, today % 12, DateOf(DayAt(now, 0)) + 1, 0, 0)
  }

  function NextUtcMidnight(now: int): int {
    var next := MidnightCandidate(now);
    if next > now then next else next + MS_PER_DAY
  }

  // ---- The reference: the next instant a clock shows a reading ----

  ghost predicate IsNextShowing(t: int, now: int, reading: int, offset: int) {
    && now < t
    && TimeOfDay(t, offset) == reading
    && forall u :: now < u < t ==> TimeOfDay(u, offset) != reading
  }

  /** Date.now() counts from 1970, and no zone is a day away from UTC. */
  ghost predicate Clock(now: int, offset: int) {
    0 <= now && -MS_PER_DAY < offset < MS_PER_DAY && offset % 1000 == 0
  }

  /** Today if the reading is still ahead, else tomorrow. */
  lemma NextShowing(now: int, reading: int, offset: int)
    requires 0 <= reading < MS_PER_DAY
    ensures var today := DayAt(now, offset) * MS_PER_DAY + reading - offset;
            var next := if today > now then today else today + MS_PER_DAY;
            IsNextShowing(next, now, reading, offset) && next <= now + MS_PER_DAY
  {
  }

  lemma NextShowingIsUnique(a: int, b: int, now: int, reading: int, offset: int)
    requires IsNextShowing(a, now, reading, offset) && IsNextShowing(b, now, reading, offset)
    ensures a == b
  {
  }

  // ---- Reading dates back ----

  lemma YearsFromEpoch(day: int)
    requires -31 <= day
    ensures MonthOf(day) / 12 >= 1969
  {
    hide FirstDay;
    var month := MonthOf(day);
    EpochMonth();
    NextMonth(EPOCH_MONTH - 1);
    if month + 1 < EPOCH_MONTH { MonthsApart(month + 1, EPOCH_MONTH - 1); }
    DecemberIsLong();
  }

  lemma DecemberIsLong()
    ensures MonthLength(EPOCH_MONTH - 1) == 31
  {
  }

  /** A date rebuilt from the fields of `day` lands `later` days on, across month and year ends. */
  lemma Rebuilt(day: int, later: int, time: int, offset: int)
    ensures var month := MonthOf(day);
            FullYear(month / 12) == month / 12 ==>
              NewDate(month / 12, month % 12, DateOf(day) + later, time, offset)
                  == (day + later) * MS_PER_DAY + time - offset
  {
    hide FirstDay, FullYear;
  }

  /** What the formatter shows for `guess`, read as UTC, is `guess` moved by the offset. */
  lemma ShownIs(guess: int, offset: int)
    requires MonthAt(guess, offset) / 12 >= 100
    requires TimeOfDay(guess, offset) / 1000 * 1000 == TimeOfDay(guess, offset)
    ensures var shown := MonthAt(guess, offset);
            NewDate(ShownYear(shown / 12), shown % 12, DateOf(DayAt(guess, offset)),
                    TimeOfDay(guess, offset) / 1000 * 1000, 0) == guess + offset
  {
    hide DateOf, NewDate, DayAt, TimeOfDay, MonthOf;
    Rebuilt(DayAt(guess, offset), 0, TimeOfDay(guess, offset), 0);
    DayAndTime(guess, offset);
  }

  lemma DayAndTime(t: int, offset: int)
    ensures DayAt(t, offset) * MS_PER_DAY + TimeOfDay(t, offset) == t + offset
  {
  }

  lemma ZonedIs(year: int, month: int, day: int, hour: int, minute: int, offset: int)
    requires offset % 1000 == 0
    requires FullYear(year) == year
    requires MonthAt(MakeDay(year, month - 1, day) * MS_PER_DAY + ClockMs(hour, minute, 0), offset) / 12 >= 100
    ensures ZonedTimeToUtc(year, month, day, hour, minute, offset)
            == MakeDay(year, month - 1, day) * MS_PER_DAY + ClockMs(hour, minute, 0) - offset
  {
    hide MakeDay, DateOf, ClockMs, MonthAt, TimeOfDay, DayAt, FullYear, ShownYear;
    var guess := MakeDay(year, month - 1, day) * MS_PER_DAY + ClockMs(hour, minute, 0);
    assert guess == NewDate(year, month - 1, day, ClockMs(hour, minute, 0), 0);
    hide NewDate;
    WholeSeconds(hour, minute, MakeDay(year, month - 1, day), offset);
    ShownIs(guess, offset);
  }

  lemma WholeSeconds(hour: int, minute: int, day: int, offset: int)
    requires offset % 1000 == 0
    ensures var guess := day * MS_PER_DAY + ClockMs(hour, minute, 0);
            TimeOfDay(guess, offset) / 1000 * 1000 == TimeOfDay(guess, offset)
  {
    var seconds := day * 86_400 + (hour * 60 + minute) * 60 + offset / 1000;
    assert day * MS_PER_DAY + ClockMs(hour, minute, 0) + offset == 1000 * seconds;
    ThousandsOfDay(seconds);
  }

  lemma ThousandsOfDay(seconds: int)
    ensures (1000 * seconds) % MS_PER_DAY == 1000 * (seconds % 86_400)
  {
    var days, rest := seconds / 86_400, seconds % 86_400;
    assert 1000 * seconds == MS_PER_DAY * days + 1000 * rest && 0 <= 1000 * rest < MS_PER_DAY;
  }

  lemma ZonedDayIsNear(day: int, time: int, offset: int)
    requires 0 <= time && -MS_PER_DAY < offset
    ensures DayAt(day * MS_PER_DAY + time, offset) >= day - 1
  {
  }

  lemma ShownYearIsLate(day: int, month: int, time: int, offset: int)
    requires MonthOf(day) == month && month / 12 >= 101
    requires 0 <= time && -MS_PER_DAY < offset
    ensures MonthAt(day * MS_PER_DAY + time, offset) / 12 >= 100
  {
    hide MonthOf, DayAt;
    ZonedDayIsNear(day, time, offset);
    DayBefore(day, month);
    MonthGrows(day - 1, DayAt(day * MS_PER_DAY + time, offset));
    Twelve(month, MonthAt(day * MS_PER_DAY + time, offset));
  }

  lemma Twelve(a: int, b: int)
    requires a - 1 <= b
    ensures a / 12 - 1 <= b / 12
  {
  }

  /** In years past 100 the instant found shows exactly the requested date and time in the zone. */
  lemma ZonedReadsBack(year: int, month: int, date: int, hour: int, minute: int, offset: int)
    requires 101 <= year && 1 <= month <= 12 && 0 <= hour <= 23 && 0 <= minute <= 59
    requires -MS_PER_DAY < offset < MS_PER_DAY && offset % 1000 == 0
    requires 1 <= date <= MonthLength(12 * year + (month - 1))
    ensures var t := ZonedTimeToUtc(year, month, date, hour, minute, offset);
            && MonthAt(t, offset) == 12 * year + (month - 1)
            && DateOf(DayAt(t, offset)) == date
            && TimeOfDay(t, offset) == ClockMs(hour, minute, 0)
  {
    hide MakeDay, DateOf, ZonedTimeToUtc, MonthLength, MonthAt, DayAt, TimeOfDay, ClockMs;
    var day := MakeDay(year, month - 1, date);
    FieldsRoundTrip(year, month - 1, date);
    ClockTime(hour, minute);
    ShownYearIsLate(day, 12 * year + (month - 1), ClockMs(hour, minute, 0), offset);
    ZonedIs(year, month, date, hour, minute, offset);
    InstantFields(day, ClockMs(hour, minute, 0), offset);
    var t := ZonedTimeToUtc(year, month, date, hour, minute, offset);
    assert DayAt(t, offset) == day;
    MonthAtDay(t, offset);
  }

  lemma MonthAtDay(t: int, offset: int)
    ensures MonthAt(t, offset) == MonthOf(DayAt(t, offset))
  {
  }

  lemma ClockTime(hour: int, minute: int)
    requires 0 <= hour <= 23 && 0 <= minute <= 99
    ensures 0 <= ClockMs(hour, minute, 0) < 2 * MS_PER_DAY
    ensures minute <= 59 ==> ClockMs(hour, minute, 0) < MS_PER_DAY
  {
  }

  lemma MonthGrows(a: int, b: int)
    requires a <= b
    ensures MonthOf(a) <= MonthOf(b)
  {
    hide FirstDay;
    if MonthOf(b) < MonthOf(a) { MonthsApart(MonthOf(b) + 1, MonthOf(a)); }
  }

  lemma DayBefore(day: int, month: int)
    requires MonthOf(day) == month
    ensures month - 1 <= MonthOf(day - 1) <= month
  {
    hide FirstDay, MonthLength;
    NextMonth(month - 1);
    if day - 1 < FirstDay(month) { MonthIsUnique(month - 1, day - 1); } else { MonthIsUnique(month, day - 1); }
  }

  // ---- Main results ----

  lemma InformalIs(now: int, hourRaw: nat, minute: nat, pm: bool, offset: int)
    requires Clock(now, offset) && minute <= 99
    ensures var asked := ClockMs(hourRaw % 12 + if pm then 12 else 0, minute, 0);
            var today := DayAt(now, offset) * MS_PER_DAY + asked - offset;
            InformalReset(now, hourRaw, minute, pm, offset) == Some(if today <= now then today + MS_PER_DAY else today)
  {
    hide DateOf, ZonedTimeToUtc, MonthOf, ClockMs, DayAt, ShownYear;
    var hour := hourRaw % 12 + if pm then 12 else 0;
    var day := DayAt(now, offset);
    ClockTime(hour, minute);
    NowDay(now, offset);
    DayBounds(now, offset);
    FieldsZoned(day, 0, hour, minute, offset);
    FieldsZoned(day, 1, hour, minute, offset);
  }

  lemma NowDay(now: int, offset: int)
    requires Clock(now, offset)
    ensures -1 <= DayAt(now, offset)
  {
  }

  lemma FieldsZoned(day: int, later: int, hour: int, minute: int, offset: int)
    requires -1 <= day && 0 <= later <= 1 && 0 <= hour <= 23 && 0 <= minute <= 99
    requires -MS_PER_DAY < offset < MS_PER_DAY && offset % 1000 == 0
    ensures var month := MonthOf(day);
            ZonedTimeToUtc(ShownYear(month / 12), month % 12 + 1, DateOf(day) + later, hour, minute, offset)
            == (day + later) * MS_PER_DAY + ClockMs(hour, minute, 0) - offset
  {
    hide ZonedTimeToUtc, MakeDay, DateOf, ClockMs, DayAt, MonthOf;
    var month := MonthOf(day);
    ClockTime(hour, minute);
    YearsFromEpoch(day);
    RebuiltDay(day, later);
    var guess := (day + later) * MS_PER_DAY + ClockMs(hour, minute, 0);
    ZonedDayIsNear(day + later, ClockMs(hour, minute, 0), offset);
    YearsFromEpoch(DayAt(guess, offset));
    ZonedIs(month / 12, month % 12 + 1, DateOf(day) + later, hour, minute, offset);
  }

  lemma RebuiltDay(day: int, later: int)
    ensures MakeDay(MonthOf(day) / 12, MonthOf(day) % 12, DateOf(day) + later) == day + later
  {
    hide FirstDay;
  }

  /**
   * The informal reset is the next instant the zone shows the reading, at most a day away, exactly when the asked
   * minutes stay within the day or that spill-over past midnight is already behind the zone's clock.
   */
  lemma InformalIsNextIff(now: int, hourRaw: nat, minute: nat, pm: bool, offset: int)
    requires Clock(now, offset) && minute <= 99
    ensures var asked := ClockMs(hourRaw % 12 + if pm then 12 else 0, minute, 0);
            var r := InformalReset(now, hourRaw, minute, pm, offset);
            && r.Some?
            && (IsNextShowing(r.value, now, asked % MS_PER_DAY, offset)
                <==> asked < MS_PER_DAY || asked - MS_PER_DAY <= TimeOfDay(now, offset))
            && (r.value <= now + MS_PER_DAY <==> asked < MS_PER_DAY || asked - MS_PER_DAY <= TimeOfDay(now, offset))
  {
    hide InformalReset;
    var asked := ClockMs(hourRaw % 12 + if pm then 12 else 0, minute, 0);
    assert 0 <= asked < 2 * MS_PER_DAY;
    InformalIs(now, hourRaw, minute, pm, offset);
    SpillOver(now, asked, offset);
  }

  lemma SpillOver(now: int, asked: int, offset: int)
    requires 0 <= asked < 2 * MS_PER_DAY
    ensures var today := DayAt(now, offset) * MS_PER_DAY + asked - offset;
            var r := if today <= now then today + MS_PER_DAY else today;
            && (IsNextShowing(r, now, asked % MS_PER_DAY, offset)
                <==> asked < MS_PER_DAY || asked - MS_PER_DAY <= TimeOfDay(now, offset))
            && (r <= now + MS_PER_DAY <==> asked < MS_PER_DAY || asked - MS_PER_DAY <= TimeOfDay(now, offset))
  {
    var today := DayAt(now, offset) * MS_PER_DAY + asked - offset;
    var r := if today <= now then today + MS_PER_DAY else today;
    var reading := asked % MS_PER_DAY;
    assert reading == if asked < MS_PER_DAY then asked else asked - MS_PER_DAY;
    assert now == DayAt(now, offset) * MS_PER_DAY + TimeOfDay(now, offset) - offset;
    NextShowing(now, reading, offset);
    var t := DayAt(now, offset) * MS_PER_DAY + reading - offset;
    var next := if t > now then t else t + MS_PER_DAY;
    if IsNextShowing(r, now, reading, offset) { NextShowingIsUnique(r, next, now, reading, offset); }
    assert r == next <==> asked < MS_PER_DAY || asked - MS_PER_DAY <= TimeOfDay(now, offset);
  }

  /** Hours of a twelve-hour clock: 12 AM is midnight and 12 PM noon, hours past 12 wrap; without a half they stand. */
  lemma TwelveHourClock(hour: nat)
    ensures 1 <= hour <= 11 ==> Hour24(hour, Am) == hour && Hour24(hour, Pm) == hour + 12
    ensures Hour24(12, Am) == 0 && Hour24(12, Pm) == 12
    ensures Hour24(hour + 12, Am) == Hour24(hour, Am) && Hour24(hour + 12, Pm) == Hour24(hour, Pm)
    ensures Hour24(hour, Unmarked) == hour
  {
  }

  /** A bare time resolves exactly when it is a clock reading, and then to the next instant showing it. */
  lemma TimeOnlyIsNext(now: int, hourRaw: nat, minute: nat, second: nat, half: Half, offset: int)
    requires Clock(now, offset)
    ensures var reading := ClockMs(Hour24(hourRaw, half), minute, second);
            var r := TimeOnlyReset(now, hourRaw, minute, second, half, offset);
            && (r.Some? <==> Hour24(hourRaw, half) <= 23 && minute <= 59 && second <= 59)
            && (r.Some? ==> IsNextShowing(r.value, now, reading, offset) && r.value <= now + MS_PER_DAY)
  {
    hide IsNextShowing;
    hide DateOf, NewDate, MonthOf;
    if Hour24(hourRaw, half) <= 23 && minute <= 59 && second <= 59 {
      var day := DayAt(now, offset);
      var reading := ClockMs(Hour24(hourRaw, half), minute, second);
      assert 0 <= reading < MS_PER_DAY;
      YearsFromEpoch(day);
      Rebuilt(day, 0, reading, offset);
      NextShowing(now, reading, offset);
    }
  }

  lemma LaterYear(day: int)
    requires 0 <= MonthOf(day) / 12 <= 99
    ensures MidnightCandidate(day * MS_PER_DAY) > (day + 2) * MS_PER_DAY
  {
    hide FirstDay, DateOf;
    var month := MonthOf(day);
    InstantFields(day, 0, 0);
    MonthsApart(month + 1, month + 22_800);
    assert MidnightCandidate(day * MS_PER_DAY) == (FirstDay(month + 22_800) + DateOf(day)) * MS_PER_DAY;
  }

  lemma CandidateOfDay(now: int)
    ensures MidnightCandidate(now) == MidnightCandidate(DayAt(now, 0) * MS_PER_DAY)
  {
    InstantFields(DayAt(now, 0), 0, 0);
  }

  /**
   * The midnight found is always after `now`, so the fallback is never taken; it is the least multiple of a day
   * above `now` exactly outside the years 0 to 99.
   */
  lemma NextMidnightIff(now: int)
    ensures MidnightCandidate(now) > now
    ensures NextUtcMidnight(now) % MS_PER_DAY == 0
    ensures IsNextShowing(NextUtcMidnight(now), now, 0, 0) <==> !Misread(DayAt(now, 0))
  {
    hide DateOf, MonthOf, MidnightCandidate;
    var day := DayAt(now, 0);
    DayBounds(now, 0);
    CandidateOfDay(now);
    NextShowing(now, 0, 0);
    CandidateIsMidnight(now);
    MisreadYears(day);
    if Misread(day) {
      LaterYear(day);
      if IsNextShowing(NextUtcMidnight(now), now, 0, 0) {
        NextShowingIsUnique(NextUtcMidnight(now), (day + 1) * MS_PER_DAY, now, 0, 0);
      }
    } else {
      PlainCandidate(now);
    }
  }

  lemma CandidateIsMidnight(now: int)
    ensures MidnightCandidate(now) % MS_PER_DAY == 0
  {
    hide MakeDay, MonthOf, DateOf;
  }

  lemma PlainCandidate(now: int)
    requires !(0 <= MonthAt(now, 0) / 12 <= 99)
    ensures MidnightCandidate(now) == (DayAt(now, 0) + 1) * MS_PER_DAY
  {
    hide MonthOf, DateOf, NewDate;
    Rebuilt(DayAt(now, 0), 1, 0, 0);
  }
}
