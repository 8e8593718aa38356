/** What the slot generator guarantees: seven days in order, a strict
    30-minute cadence inside the 10:00-21:00 window, the fixed shape of every
    future day, and the start and emptiness rules of today. */
module SlotProperties {
  import opened SlotGenerator

  /** Number of grid points `start`, `start + 30`, ... strictly before 21:00. */
  function SlotCount(start: int): nat {
    if start >= ClosingMinute then 0
    else (ClosingMinute - start + SlotMinutes - 1) / SlotMinutes
  }

  /** Closed form of a day's enumeration: the k-th slot sits 30k minutes after
      the start. An independent reference for the loop-shaped `DaySlotsFrom`. */
  function Grid(day: int, start: int, carriedMs: int, fmt: Formatter): seq<Slot> {
    seq(SlotCount(start), k => MakeSlot(day, start + SlotMinutes * k, carriedMs, fmt))
  }

  /** The minutes of a slot list, in order. */
  function Minutes(slots: seq<Slot>): seq<int> {
    seq(|slots|, k requires 0 <= k < |slots| => slots[k].minute)
  }

  /** The slot minutes of a full business day: 10:00, 10:30, ..., 20:30. */
  function StandardDayMinutes(): seq<int> {
    seq(SlotCount(OpeningMinute), k => OpeningMinute + SlotMinutes * k)
  }

  predicate InWindow(minute: int) {
    OpeningMinute <= minute < ClosingMinute
  }

  /** The shape every generated day list has. */
  predicate WellFormedDay(slots: seq<Slot>, day: int) {
    && (forall k :: 0 <= k < |slots| ==>
          slots[k].day == day && InWindow(slots[k].minute) && slots[k].minute % SlotMinutes == 0)
    && (forall k :: 0 < k < |slots| ==> slots[k].minute == slots[k - 1].minute + SlotMinutes)
  }

  predicate WellFormedSchedule(schedule: seq<seq<Slot>>) {
    |schedule| == DaysShown && forall i :: 0 <= i < |schedule| ==> WellFormedDay(schedule[i], i)
  }

  /** The seconds and milliseconds of "now" never decide the loop test: the
      cursor is before the 21:00:00.000 boundary exactly when its minute is. */
  lemma BeforeCloseIgnoresCarry(minute: int, carriedMs: int)
    requires 0 <= carriedMs < MsPerMinute
    ensures BeforeClose(minute, carriedMs) <==> minute < ClosingMinute
  {
  }

  /** The loop-shaped enumeration equals its closed form. */
  lemma {:induction false} DaySlotsFromIsGrid(day: int, start: int, carriedMs: int, fmt: Formatter)
    requires 0 <= carriedMs < MsPerMinute
    ensures DaySlotsFrom(day, start, carriedMs, fmt) == Grid(day, start, carriedMs, fmt)
    decreases ClosingMinute - start
  {
    BeforeCloseIgnoresCarry(start, carriedMs);
    if start < ClosingMinute {
      DaySlotsFromIsGrid(day, start + SlotMinutes, carriedMs, fmt);
      var g := Grid(day, start, carriedMs, fmt);
      var rest := Grid(day, start + SlotMinutes, carriedMs, fmt);
      assert |g| == 1 + |rest|;
      assert g == [g[0]] + rest by {
        forall k | 0 <= k < |rest| ensures rest[k] == g[k + 1] {
          assert start + SlotMinutes + SlotMinutes * k == start + SlotMinutes * (k + 1);
        }
      }
    }
  }

  /** Every start a day can get lies on the half-hour grid, at or after
      opening; today's start is before closing exactly when the hour is
      before 20. */
  lemma DayStartOnGrid(now: Now, day: int)
    requires ValidNow(now)
    ensures OpeningMinute <= DayStart(now, day) && DayStart(now, day) % SlotMinutes == 0
    ensures day != 0 ==> DayStart(now, day) == OpeningMinute
    ensures day == 0 ==> (DayStart(now, day) < ClosingMinute <==> now.hour < 20)
  {
  }

  /** Each grid point of a day is on the half-hour, inside the window, and
      labelled with its day; consecutive points are 30 minutes apart. */
  lemma GridIsWellFormed(day: int, start: int, carriedMs: int, fmt: Formatter)
    requires OpeningMinute <= start && start % SlotMinutes == 0
    ensures WellFormedDay(Grid(day, start, carriedMs, fmt), day)
  {
    var g := Grid(day, start, carriedMs, fmt);
    forall k | 0 <= k < |g|
      ensures g[k].day == day && InWindow(g[k].minute) && g[k].minute % SlotMinutes == 0
    {
      assert g[k].minute == start + SlotMinutes * k;
    }
  }

  /** Facts about one day of a schedule, read off the closed form. */
  lemma DaySlotsAsGrid(now: Now, day: int, fmt: Formatter)
    requires ValidNow(now)
    ensures DaySlots(now, day, fmt) == Grid(day, DayStart(now, day), now.carriedMs, fmt)
    ensures WellFormedDay(DaySlots(now, day, fmt), day)
  {
    DaySlotsFromIsGrid(day, DayStart(now, day), now.carriedMs, fmt);
    DayStartOnGrid(now, day);
    GridIsWellFormed(day, DayStart(now, day), now.carriedMs, fmt);
  }

  /** The generator yields seven lists in day-offset order 0..6; every slot
      lies in [10:00, 21:00) on the half-hour, 30 minutes after its
      predecessor, carries the clock's seconds, and shows the formatter's
      rendering of its own hour and minute. */
  lemma ScheduleIsWellFormed(now: Now, fmt: Formatter)
    requires ValidNow(now)
    ensures WellFormedSchedule(Schedule(now, fmt))
    ensures forall i, k :: 0 <= i < DaysShown && 0 <= k < |Schedule(now, fmt)[i]| ==>
      var s := Schedule(now, fmt)[i][k];
      s.carriedMs == now.carriedMs && s.time == fmt(s.minute / MinutesPerHour, s.minute % MinutesPerHour)
  {
    var schedule := Schedule(now, fmt);
    forall i | 0 <= i < DaysShown
      ensures WellFormedDay(schedule[i], i)
      ensures forall k :: 0 <= k < |schedule[i]| ==>
        schedule[i][k].carriedMs == now.carriedMs &&
        schedule[i][k].time == fmt(schedule[i][k].minute / MinutesPerHour, schedule[i][k].minute % MinutesPerHour)
    {
      DaySlotsAsGrid(now, i, fmt);
    }
  }

  /** The cadence makes a day strictly increasing: slot k is exactly
      30 * (k - j) minutes after slot j. */
  lemma {:induction false} CadenceGivesOrder(slots: seq<Slot>, day: int)
    requires WellFormedDay(slots, day)
    ensures forall j, k :: 0 <= j <= k < |slots| ==>
      slots[k].minute == slots[j].minute + SlotMinutes * (k - j)
    ensures forall j, k :: 0 <= j < k < |slots| ==> slots[j].minute < slots[k].minute
  {
    if |slots| > 1 {
      var init := slots[..|slots| - 1];
      assert WellFormedDay(init, day);
      CadenceGivesOrder(init, day);
      var last := |slots| - 1;
      forall j | 0 <= j <= last
        ensures slots[last].minute == slots[j].minute + SlotMinutes * (last - j)
      {
        if j < last {
          assert init[j] == slots[j] && init[last - 1] == slots[last - 1];
        }
      }
    }
  }

  /** Every future day (offset 1..6) opens at 10:00 and holds exactly the 22
      slots 10:00, 10:30, ..., 20:30, whatever the clock says. */
  lemma FutureDayIsStandard(now: Now, day: int, fmt: Formatter)
    requires ValidNow(now) && 1 <= day < DaysShown
    ensures Minutes(Schedule(now, fmt)[day]) == StandardDayMinutes()
    ensures |Schedule(now, fmt)[day]| == 22
    ensures Schedule(now, fmt)[day][0].minute == 10 * MinutesPerHour
    ensures Schedule(now, fmt)[day][21].minute == 20 * MinutesPerHour + 30
  {
    DaySlotsAsGrid(now, day, fmt);
  }

  /** Today is empty exactly when the hour is 20 or later; otherwise its first
      slot is at hour `h > 10 ? h + 1 : 10` and minute `m > 30 ? 30 : 0`. */
  lemma TodayStart(now: Now, fmt: Formatter)
    requires ValidNow(now)
    ensures |Schedule(now, fmt)[0]| == 0 <==> now.hour >= 20
    ensures |Schedule(now, fmt)[0]| > 0 ==>
      Schedule(now, fmt)[0][0].minute ==
        (if now.hour > 10 then now.hour + 1 else 10) * MinutesPerHour + (if now.minute > 30 then 30 else 0)
  {
    DaySlotsAsGrid(now, 0, fmt);
    DayStartOnGrid(now, 0);
  }

  /** The slots of today are always a suffix of the standard day: the
      standard day with its first `(start - 10:00) / 30` slots dropped. */
  lemma TodayIsSuffixOfStandard(now: Now, fmt: Formatter)
    requires ValidNow(now)
    ensures var skipped := (DayStart(now, 0) - OpeningMinute) / SlotMinutes;
      Minutes(Schedule(now, fmt)[0]) ==
        StandardDayMinutes()[if skipped <= |StandardDayMinutes()| then skipped else |StandardDayMinutes()|..]
  {
    DaySlotsAsGrid(now, 0, fmt);
    DayStartOnGrid(now, 0);
    var start := DayStart(now, 0);
    var skipped := (start - OpeningMinute) / SlotMinutes;
    assert start == OpeningMinute + SlotMinutes * skipped;
    var std := StandardDayMinutes();
    var today := Minutes(Schedule(now, fmt)[0]);
    if skipped <= |std| {
      forall k | 0 <= k < |today| ensures today[k] == std[skipped..][k] {
        assert today[k] == start + SlotMinutes * k;
      }
    }
  }

  /** The examples of the start rule: 14:45 gives 15:30, 09:15 gives 10:00,
      10:45 gives 10:30, and 20:45 leaves today empty. */
  lemma TodayStartExamples(fmt: Formatter, carriedMs: int)
    requires 0 <= carriedMs < MsPerMinute
    ensures Schedule(Now(14, 45, carriedMs), fmt)[0][0].minute == 15 * MinutesPerHour + 30
    ensures Schedule(Now(9, 15, carriedMs), fmt)[0][0].minute == 10 * MinutesPerHour
    ensures Schedule(Now(10, 45, carriedMs), fmt)[0][0].minute == 10 * MinutesPerHour + 30
    ensures Schedule(Now(20, 45, carriedMs), fmt)[0] == []
  {
    TodayStart(Now(14, 45, carriedMs), fmt);
    TodayStart(Now(9, 15, carriedMs), fmt);
    TodayStart(Now(10, 45, carriedMs), fmt);
    TodayStart(Now(20, 45, carriedMs), fmt);
  }

  /** As written, today's first slot can lie before the clock reading: this
      happens exactly when the query falls in 10:01-10:59. No later slot of
      today is before the clock reading (at 10:30 the second slot is 10:30
      itself). */
  lemma TodayPastSlot(now: Now, fmt: Formatter)
    requires ValidNow(now)
    ensures var today := Schedule(now, fmt)[0];
      |today| > 0 && Instant(today[0]) < NowInstant(now) <==>
        now.hour == OpeningHour && now.minute > 0
    ensures var today := Schedule(now, fmt)[0];
      forall k :: 1 <= k < |today| ==> Instant(today[k]) >= NowInstant(now)
  {
    DaySlotsAsGrid(now, 0, fmt);
    DayStartOnGrid(now, 0);
    var today := Schedule(now, fmt)[0];
    forall k | 1 <= k < |today|
      ensures Instant(today[k]) >= NowInstant(now)
    {
      assert today[k].minute == DayStart(now, 0) + SlotMinutes * k;
      assert today[k].carriedMs == now.carriedMs;
    }
  }
}
