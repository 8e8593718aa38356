/** The state of the appointments page: the doctor shown, the generated
    schedule, and the day and time the visitor has picked. Each field is one
    state hook of the page; each method is one effect or click handler. */
module Appointments {
  import opened Doctors
  import opened SlotGenerator
  import opened SlotProperties

  class AppointmentsPage {
    /** The doctor found for the route's identifier (`docInfo`). */
    var docInfo: Option<Doctor>
    /** The generated schedule (`docSlots`): empty, or one list per day. */
    var docSlots: seq<seq<Slot>>
    /** The highlighted day offset (`slotIndex`). */
    var slotIndex: int
    /** The picked display time (`slotTime`); "" while nothing is picked. */
    var slotTime: string

    /** The schedule is empty or a well-formed seven-day schedule, and the
        highlighted day is one of the seven offsets. */
    ghost predicate Valid()
      reads this
    {
      && (docSlots == [] || WellFormedSchedule(docSlots))
      && 0 <= slotIndex < DaysShown
    }

    /** The page before any effect has run. */
    constructor ()
      ensures Valid()
      ensures docInfo == None && docSlots == [] && slotIndex == 0 && slotTime == ""
    {
      docInfo := None;
      docSlots := [];
      slotIndex := 0;
      slotTime := "";
    }

    /** The lookup effect: show the first doctor whose identifier is `docId`,
        or no doctor on a miss. Schedule and selection are left as they are. */
    method LoadDoctor(doctors: seq<Doctor>, docId: string)
      requires Valid()
      modifies this`docInfo
      ensures Valid()
      ensures docInfo == FindDoctor(doctors, docId)
      ensures docSlots == old(docSlots) && slotIndex == old(slotIndex) && slotTime == old(slotTime)
    {
      docInfo := FindDoctor(doctors, docId);
    }

    /** The generation effect: without a doctor nothing happens; otherwise the
        schedule is cleared and one day list per offset 0..6 is appended. The
        selection is not reset. */
    method GenerateSlots(now: Now, fmt: Formatter)
      requires Valid() && ValidNow(now)
      modifies this`docSlots
      ensures Valid()
      ensures docInfo.None? ==> docSlots == old(docSlots)
      ensures docInfo.Some? ==> docSlots == Schedule(now, fmt)
      ensures docInfo == old(docInfo) && slotIndex == old(slotIndex) && slotTime == old(slotTime)
    {
      if docInfo.None? {
        return;
      }
      docSlots := [];
      for i := 0 to DaysShown
        invariant docSlots == Schedule(now, fmt)[..i]
      {
        var timeSlots := BuildDaySlots(now, i, fmt);
        docSlots := docSlots + [timeSlots];
      }
      assert docSlots == Schedule(now, fmt);
      ScheduleIsWellFormed(now, fmt);
    }

    /** The time buttons on screen: nothing while no doctor is shown or the
        schedule is empty, otherwise the highlighted day's slots. */
    function VisibleTimes(): seq<Slot>
      reads this
      requires Valid()
    {
      if docInfo.None? || docSlots == [] then [] else docSlots[slotIndex]
    }

    /** A click on day button `index`; the buttons are the days of the
        rendered schedule. Only the highlighted day changes. */
    method PickDay(index: int)
      requires Valid() && docInfo.Some? && 0 <= index < |docSlots|
      modifies this`slotIndex
      ensures Valid()
      ensures slotIndex == index
      ensures docInfo == old(docInfo) && docSlots == old(docSlots) && slotTime == old(slotTime)
    {
      slotIndex := index;
    }

    /** A click on the `k`-th time button of the highlighted day. Only the
        picked time changes: it becomes that slot's display time. */
    method PickTime(k: int)
      requires Valid() && 0 <= k < |VisibleTimes()|
      modifies this`slotTime
      ensures Valid()
      ensures slotTime == docSlots[slotIndex][k].time
      ensures docInfo == old(docInfo) && docSlots == old(docSlots) && slotIndex == old(slotIndex)
    {
      slotTime := docSlots[slotIndex][k].time;
    }
  }

  /** A visit: the picked time survives a switch of day, and a second
      generation keeps both the highlighted day and the picked time. */
  method Visit(doctors: seq<Doctor>, docId: string, now: Now, later: Now, fmt: Formatter)
    requires ValidNow(now) && ValidNow(later) && HasDoctor(doctors, docId)
  {
    var page := new AppointmentsPage();
    page.LoadDoctor(doctors, docId);
    page.GenerateSlots(now, fmt);
    assert |page.docSlots| == DaysShown;
    FutureDayIsStandard(now, 1, fmt);
    page.PickDay(1);
    page.PickTime(0);
    assert page.slotTime == fmt(10, 0);
    page.PickDay(0);
    assert page.slotIndex == 0 && page.slotTime == fmt(10, 0);
    page.GenerateSlots(later, fmt);
    assert page.slotIndex == 0 && page.slotTime == fmt(10, 0);
  }
}
