/** The seven-day slot generator of the appointments page (the second effect).

    A point in time within a day is a minute since that day's midnight plus a
    sub-minute remainder in milliseconds. The remainder is the seconds and
    milliseconds of the clock reading: `setHours` and `setMinutes` keep them, so
    every slot of a generation carries the same remainder as "now". Days are
    integer offsets from today. */
module SlotGenerator {

  const MinutesPerHour: int := 60
  const MsPerMinute: int := 60000
  /** Opening hour, also the hour a "today" query before it is moved up to. */
  const OpeningHour: int := 10
  /** Closing hour: the window of every day ends at 21:00:00.000. */
  const ClosingHour: int := 21
  /** Cadence of the slot cursor, and the minute a late query is rounded to. */
  const SlotMinutes: int := 30
  /** Number of day offsets generated: 0 (today) through 6. */
  const DaysShown: int := 7

  const OpeningMinute: int := OpeningHour * MinutesPerHour
  const ClosingMinute: int := ClosingHour * MinutesPerHour

  /** One clock reading: hour and minute of today, and the seconds and
      milliseconds folded into `carriedMs`. */
  datatype Now = Now(hour: int, minute: int, carriedMs: int)

  predicate ValidNow(now: Now) {
    0 <= now.hour <= 23 && 0 <= now.minute <= 59 && 0 <= now.carriedMs < MsPerMinute
  }

  /** One generated slot: its day offset, its minute since that day's midnight,
      the carried sub-minute milliseconds, and its displayed time. */
  datatype Slot = Slot(day: int, minute: int, carriedMs: int, time: string)

  /** The locale time formatter, seen as a function of (hour, minute). */
  type Formatter = (int, int) -> string

  /** The instant of a slot, in milliseconds since its day's midnight. */
  function Instant(s: Slot): int {
    s.minute * MsPerMinute + s.carriedMs
  }

  /** The instant of the clock reading, in milliseconds since today's midnight. */
  function NowInstant(now: Now): int {
    (now.hour * MinutesPerHour + now.minute) * MsPerMinute + now.carriedMs
  }

  /** The cursor test `currntDate < endTime`, on full millisecond instants. */
  predicate BeforeClose(minute: int, carriedMs: int) {
    minute * MsPerMinute + carriedMs < ClosingMinute * MsPerMinute
  }

  /** The hour the cursor of day `day` is set to before enumeration. */
  function StartHour(now: Now, day: int): int {
    if day == 0 then (if now.hour > OpeningHour then now.hour + 1 else OpeningHour)
    else OpeningHour
  }

  /** The minute the cursor of day `day` is set to before enumeration. */
  function StartMinuteOfHour(now: Now, day: int): int {
    if day == 0 then (if now.minute > SlotMinutes then SlotMinutes else 0)
    else 0
  }

  /** The first cursor position of day `day`, in minutes since its midnight;
      1440 or more means `setHours(24)` rolled the cursor into the next day. */
  function DayStart(now: Now, day: int): int {
    StartHour(now, day) * MinutesPerHour + StartMinuteOfHour(now, day)
  }

  /** The slot the loop pushes when the cursor stands at `minute`. */
  function MakeSlot(day: int, minute: int, carriedMs: int, fmt: Formatter): Slot {
    Slot(day, minute, carriedMs, fmt(minute / MinutesPerHour, minute % MinutesPerHour))
  }

  /** What the enumeration loop emits from cursor `minute` on: a slot, then
      the cursor advanced by 30 minutes, while the cursor is before closing. */
  function DaySlotsFrom(day: int, minute: int, carriedMs: int, fmt: Formatter): seq<Slot>
    decreases ClosingMinute * MsPerMinute - (minute * MsPerMinute + carriedMs)
  {
    if BeforeClose(minute, carriedMs) then
      [MakeSlot(day, minute, carriedMs, fmt)] + DaySlotsFrom(day, minute + SlotMinutes, carriedMs, fmt)
    else []
  }

  /** The slot list of day offset `day`. */
  function DaySlots(now: Now, day: int, fmt: Formatter): seq<Slot> {
    DaySlotsFrom(day, DayStart(now, day), now.carriedMs, fmt)
  }

  /** The whole schedule: one slot list per day offset 0..6, in that order. */
  function Schedule(now: Now, fmt: Formatter): seq<seq<Slot>> {
    seq(DaysShown, i => DaySlots(now, i, fmt))
  }

  /** The body of one iteration of the day loop: place the cursor on the
      day's start (today's start derives from the clock, later days open at
      10:00), then push a slot and advance 30 minutes while before closing. */
  method BuildDaySlots(now: Now, day: int, fmt: Formatter) returns (timeSlots: seq<Slot>)
    ensures timeSlots == DaySlots(now, day, fmt)
  {
    var hour, minute := now.hour, now.minute;
    if day == 0 {
      hour := if hour > OpeningHour then hour + 1 else OpeningHour;
      minute := if minute > SlotMinutes then SlotMinutes else 0;
    } else {
      hour := OpeningHour;
      minute := 0;
    }
    var cursor := hour * MinutesPerHour + minute;
    timeSlots := [];
    while BeforeClose(cursor, now.carriedMs)
      invariant timeSlots + DaySlotsFrom(day, cursor, now.carriedMs, fmt) == DaySlots(now, day, fmt)
      decreases ClosingMinute * MsPerMinute - (cursor * MsPerMinute + now.carriedMs)
    {
      timeSlots := timeSlots + [MakeSlot(day, cursor, now.carriedMs, fmt)];
      cursor := cursor + SlotMinutes;
    }
  }
}
