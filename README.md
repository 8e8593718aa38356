# Appointment slot generator and selection state

A model of the logic of the appointments page of a hospital appointment web
application (`src/pages/Appointments.jsx`). Three pieces are modelled:

- **Doctor lookup** (`Doctors`): the page shows the first doctor whose
  identifier equals the route's `docId`; a miss leaves the page without a
  doctor, so no schedule is generated and nothing is rendered.
- **Slot generator** (`SlotGenerator`, properties in `SlotProperties`): from
  one clock reading it rebuilds a seven-day schedule. Day 0 (today) starts at
  hour `h > 10 ? h + 1 : 10` and minute `m > 30 ? 30 : 0`; days 1..6 start at
  10:00. A cursor emits a slot and advances 30 minutes while it is before
  21:00. Times are minutes since the slot's own midnight plus the seconds and
  milliseconds of the clock reading, which `setHours`/`setMinutes` carry along;
  the loop test compares full millisecond instants, as `currntDate < endTime`
  does. A start of 1440 minutes or more stands for `setHours(24)` rolling into
  the next day, which leaves the day empty.
- **Page state** (`Appointments.AppointmentsPage`): the state hooks `docInfo`,
  `docSlots`, `slotIndex`, `slotTime` as fields of a class, the two effects and
  the two click handlers as methods. `Visit` is a client that shows what the
  contracts give: a picked time survives a day switch and a regeneration.

The inner `while` loop is the method `SlotGenerator.BuildDaySlots`, proved
equal to the function `DaySlots`; the outer `for` loop is
`AppointmentsPage.GenerateSlots`, proved to leave `docSlots == Schedule(now, fmt)`.
The loop-shaped `DaySlotsFrom` is proved equal to an independent closed form
`Grid` (slot k sits 30k minutes after the start), from which the properties
below follow.

Where the code and the design description of the system disagree, the model
follows the code:

- The design says a new schedule resets the selection to `(0, "")`. The code
  never does; `GenerateSlots` keeps `slotIndex` and `slotTime`.
- The design says seconds are zeroed and that a query at 10:00-10:59 starts
  at 10:00. The code keeps the seconds, and at 10:45 starts at 10:30.
  `TodayPastSlot` states exactly when today's first slot lies before the
  clock reading (10:01-10:59).

## Model

| member | source | states |
|---|---|---|
| Doctors.FindDoctor | src/pages/Appointments.jsx:19-22 | the result is some doctor exactly when some record has the identifier; it has that identifier and is the first such record in list order |
| SlotGenerator.BuildDaySlots | src/pages/Appointments.jsx:34-50 | the loop that places the cursor on the day's start and pushes a slot every 30 minutes before 21:00 returns exactly `DaySlots(now, day, fmt)` |
| Appointments.AppointmentsPage.constructor | src/pages/Appointments.jsx:11-14 | the initial state: no doctor, empty schedule, day 0, no time picked |
| Appointments.AppointmentsPage.LoadDoctor | src/pages/Appointments.jsx:19-22 | the shown doctor becomes the lookup result; schedule and selection unchanged |
| Appointments.AppointmentsPage.GenerateSlots | src/pages/Appointments.jsx:24-53 | without a doctor the schedule is unchanged; otherwise it becomes the seven-day `Schedule(now, fmt)`; the selection is never reset; the page invariant is kept |
| Appointments.AppointmentsPage.PickDay | src/pages/Appointments.jsx:104-106 | the highlighted day becomes the clicked index, taken from the rendered schedule, so it stays in 0..6; the picked time is unchanged |
| Appointments.AppointmentsPage.PickTime | src/pages/Appointments.jsx:117-119 | the picked time becomes the display time of the clicked slot of the highlighted day; the highlighted day is unchanged |
| SlotProperties.BeforeCloseIgnoresCarry | src/pages/Appointments.jsx:31-32 | the carried seconds and milliseconds never change the `< endTime` outcome: the test holds exactly when the cursor's minute is before 21:00 |
| SlotProperties.DaySlotsFromIsGrid | src/pages/Appointments.jsx:43-50 | the enumeration loop yields exactly the closed-form grid: slot k is at start + 30k, for as many k as lie before 21:00 |
| SlotProperties.DayStartOnGrid | src/pages/Appointments.jsx:34-39 | every day's start is at or after 10:00 and on the half hour; future days start at 10:00; today's start is before 21:00 exactly when the hour is below 20 |
| SlotProperties.GridIsWellFormed | src/pages/Appointments.jsx:43-50 | a grid from a half-hour start at or after 10:00 has every slot in [10:00, 21:00), on the half hour, labelled with its day, 30 minutes after its predecessor |
| SlotProperties.DaySlotsAsGrid | src/pages/Appointments.jsx:34-50 | each day list equals its closed form and is well formed |
| SlotProperties.ScheduleIsWellFormed | src/pages/Appointments.jsx:26-51 | the schedule holds exactly 7 lists in day-offset order 0..6, each well formed; every slot carries the clock's seconds and shows the formatter's rendering of its own hour and minute |
| SlotProperties.CadenceGivesOrder | src/pages/Appointments.jsx:43-50 | within a day slot k is exactly 30(k - j) minutes after slot j, so slot times strictly increase |
| SlotProperties.FutureDayIsStandard | src/pages/Appointments.jsx:37-50 | every day 1..6 holds exactly the 22 slots 10:00, 10:30, ..., 20:30, whatever the clock says |
| SlotProperties.TodayStart | src/pages/Appointments.jsx:34-36 | today is empty exactly when the hour is 20 or later; otherwise its first slot is at hour `h > 10 ? h + 1 : 10`, minute `m > 30 ? 30 : 0` |
| SlotProperties.TodayIsSuffixOfStandard | src/pages/Appointments.jsx:34-50 | today's slot minutes are the standard day with its first `(start - 10:00) / 30` slots dropped |
| SlotProperties.TodayStartExamples | src/pages/Appointments.jsx:34-36 | 14:45 gives 15:30, 09:15 gives 10:00, 10:45 gives 10:30, 20:45 gives an empty day |
| SlotProperties.TodayPastSlot | src/pages/Appointments.jsx:34-36 | today's first slot is before the clock reading exactly when the query is at 10:01-10:59; no later slot of today is before it |

## Left out

- Rendering (markup, CSS classes, weekday and day-of-month labels, the
  lower-casing of the time text): presentation only. Only the rendering guards
  that decide which buttons can be clicked (no doctor renders nothing; the time
  row shows the highlighted day) are modelled, as `VisibleTimes` and the
  preconditions of `PickDay`/`PickTime`.
- The image height matching through `offsetHeight`: a DOM measurement.
- `toLocaleTimeString`: locale-dependent foreign code, modelled as a
  formatter parameter of (hour, minute).
- Calendar arithmetic of `setDate` across month ends, and daylight-saving
  shifts: days are integer offsets; the same-date test is `day == 0`, which it
  is for offsets up to 6.
- React hook scheduling: the effects are methods the caller invokes when
  their dependencies change; the batched state updates of the generation
  effect are applied in order, so intermediate states are not observable.
- The clock and the route parameter are parameters; the shared doctor list
  and currency symbol come from the caller; the related-doctors component is
  not part of this model.
- The "Book an appointment" button: it has no handler.
