/**
 * Adding one exam slot by hand (server/src/controllers/timetable.ts 381-485): the checks that
 * reject the request, in the order the source makes them, and the rules an accepted slot keeps
 * for the timetable's stored slots.
 */
module AddSlot {
  import opened Common
  import opened Calendar
  import opened Keys
  import opened Occupancy
  import Endpoint

  /** The `date` field of the request body: absent or empty, not a date, or a parsed day. */
  datatype DateInput = NoDate | BadDate | Date(day: Day)

  /** The request body `{ date, timeSlot, courseId }`. */
  datatype AddRequest = AddRequest(date: DateInput, timeSlot: string, courseId: string)

  /** The rejections, in the order the source checks them (lines 387-464). */
  datatype AddError =
    | MissingFields        // 400: date, time slot and course id are required
    | TimetableNotFound    // 404
    | TimetablePublished   // 400: a published timetable is not updated
    | CourseNotFound       // 404
    | InvalidDate          // 400: invalid date format
    | OutOfRange           // 400: the date is outside the timetable's range
    | NotWeekday           // 400
    | InvalidTimeSlot      // 400
    | SlotTaken            // 400: some exam of the timetable already uses the date and slot
    | LimitReached         // 400: the department-level already has 3 exams that day

  /** The database name of each time slot. */
  function SlotName(t: TimeSlot): string {
    match t
    case Slot8To10 => "SLOT_8_10"
    case Slot10To12 => "SLOT_10_12"
    case Slot1To3 => "SLOT_1_3"
    case Slot3To5 => "SLOT_3_5"
  }

  /** `Object.values(TimeSlot).includes(timeSlot)`, giving the slot it names. */
  function ParseSlot(s: string): Option<TimeSlot> {
    if s == "SLOT_8_10" then Some(Slot8To10)
    else if s == "SLOT_10_12" then Some(Slot10To12)
    else if s == "SLOT_1_3" then Some(Slot1To3)
    else if s == "SLOT_3_5" then Some(Slot3To5)
    else None
  }

  /** Exactly the four slot names parse, each to the slot it names. */
  lemma ParseSlotNames(s: string, t: TimeSlot)
    ensures ParseSlot(SlotName(t)) == Some(t)
    ensures ParseSlot(s) == Some(t) <==> s == SlotName(t)
  {
  }

  /** `!date || !timeSlot || !courseId` */
  predicate Missing(req: AddRequest) {
    req.date == NoDate || req.timeSlot == "" || req.courseId == ""
  }

  /** The `findFirst` of lines 440-446: an exam of the timetable on that date in that slot, whatever its course. */
  predicate Taken(existing: seq<ExistingSlot>, d: Day, t: TimeSlot) {
    exists i :: 0 <= i < |existing| && existing[i].date == d && existing[i].slot == t
  }

  /**
   * The handler, with the timetable row, the course table (id -> department-level) and the
   * timetable's stored slots given as values. A request is accepted exactly when every check
   * passes, and the slot created is the one it asks for: its date, its time slot, and the
   * department and level of its course.
   */
  function AddExamSlot(req: AddRequest, timetable: Option<Endpoint.Timetable>,
                       catalog: map<string, DeptLevel>, existing: seq<ExistingSlot>): (r: Result<ExistingSlot, AddError>)
    ensures r.Success? <==> Acceptable(req, timetable, catalog, existing)
    ensures r.Success? ==>
      && req.date == Date(r.value.date) && req.timeSlot == SlotName(r.value.slot)
      && SlotKey(r.value) == catalog[req.courseId]
  {
    if Missing(req) then Failure(MissingFields)
    else if timetable.None? then Failure(TimetableNotFound)
    else if timetable.value.isPublished then Failure(TimetablePublished)
    else if req.courseId !in catalog then Failure(CourseNotFound)
    else if req.date.BadDate? then Failure(InvalidDate)
    else
      var d := req.date.day;
      var key := catalog[req.courseId];
      if d < timetable.value.startDate || d > timetable.value.endDate then Failure(OutOfRange)
      else if !IsWeekday(d) then Failure(NotWeekday)
      else if ParseSlot(req.timeSlot).None? then Failure(InvalidTimeSlot)
      else if Taken(existing, d, ParseSlot(req.timeSlot).value) then Failure(SlotTaken)
      else if ExistingCount(existing, d, key) >= 3 then Failure(LimitReached)
      else Success(ExistingSlot(d, ParseSlot(req.timeSlot).value, key.dept, key.level))
  }

  /** No two stored exams of the timetable share a date and a time slot. */
  ghost predicate SlotsUnique(existing: seq<ExistingSlot>) {
    forall i, j :: 0 <= i < j < |existing| ==>
      existing[i].date != existing[j].date || existing[i].slot != existing[j].slot
  }

  /** No department-level has more than 3 exams on one day. */
  ghost predicate WithinDailyLimit(existing: seq<ExistingSlot>) {
    forall d, k :: ExistingCount(existing, d, k) <= 3
  }

  /** Every check passes: what the request must satisfy to be accepted. */
  ghost predicate Acceptable(req: AddRequest, timetable: Option<Endpoint.Timetable>,
                             catalog: map<string, DeptLevel>, existing: seq<ExistingSlot>)
  {
    && !Missing(req)
    && timetable.Some? && !timetable.value.isPublished
    && req.courseId in catalog
    && req.date.Date?
    && timetable.value.startDate <= req.date.day <= timetable.value.endDate
    && IsWeekday(req.date.day)
    && ParseSlot(req.timeSlot).Some?
    && !Taken(existing, req.date.day, ParseSlot(req.timeSlot).value)
    && ExistingCount(existing, req.date.day, catalog[req.courseId]) < 3
  }

  /**
   * Which rejection a failing request gets: the first failing check wins, so a request with
   * fields missing is refused before the timetable is looked up, and a published timetable is
   * refused before the course, date and slot are looked at.
   */
  lemma RejectionOrder(req: AddRequest, timetable: Option<Endpoint.Timetable>,
                       catalog: map<string, DeptLevel>, existing: seq<ExistingSlot>)
    ensures AddExamSlot(req, timetable, catalog, existing) == Failure(MissingFields) <==> Missing(req)
    ensures AddExamSlot(req, timetable, catalog, existing) == Failure(TimetableNotFound) <==>
      !Missing(req) && timetable.None?
    ensures AddExamSlot(req, timetable, catalog, existing) == Failure(TimetablePublished) <==>
      !Missing(req) && timetable.Some? && timetable.value.isPublished
    ensures AddExamSlot(req, timetable, catalog, existing) == Failure(SlotTaken) ==>
      req.date.Date? && ParseSlot(req.timeSlot).Some? && Taken(existing, req.date.day, ParseSlot(req.timeSlot).value)
    ensures AddExamSlot(req, timetable, catalog, existing) == Failure(LimitReached) ==>
      req.date.Date? && req.courseId in catalog && ExistingCount(existing, req.date.day, catalog[req.courseId]) >= 3
  {
  }

  /**
   * An accepted slot shares its date and slot with no stored exam of the timetable, whatever
   * that exam's department-level; so a timetable whose (date, slot) pairs are distinct stays so.
   */
  lemma {:induction false} AddTakesFreeSlot(req: AddRequest, timetable: Option<Endpoint.Timetable>,
                                            catalog: map<string, DeptLevel>, existing: seq<ExistingSlot>)
    requires AddExamSlot(req, timetable, catalog, existing).Success?
    ensures forall i :: 0 <= i < |existing| ==>
      existing[i].date != AddExamSlot(req, timetable, catalog, existing).value.date ||
      existing[i].slot != AddExamSlot(req, timetable, catalog, existing).value.slot
    ensures SlotsUnique(existing) ==> SlotsUnique(existing + [AddExamSlot(req, timetable, catalog, existing).value])
  {
    var s := AddExamSlot(req, timetable, catalog, existing).value;
    assert !Taken(existing, s.date, s.slot);
    var after := existing + [s];
    if SlotsUnique(existing) {
      forall i, j | 0 <= i < j < |after|
        ensures after[i].date != after[j].date || after[i].slot != after[j].slot
      {
        if j == |existing| {
          assert after[i] == existing[i];
        }
      }
    }
  }

  /** Storing an accepted slot keeps every department-level at most three exams a day. */
  lemma {:induction false} AddKeepsDailyLimit(req: AddRequest, timetable: Option<Endpoint.Timetable>,
                                              catalog: map<string, DeptLevel>, existing: seq<ExistingSlot>)
    requires WithinDailyLimit(existing)
    requires AddExamSlot(req, timetable, catalog, existing).Success?
    ensures WithinDailyLimit(existing + [AddExamSlot(req, timetable, catalog, existing).value])
  {
    var s := AddExamSlot(req, timetable, catalog, existing).value;
    var after := existing + [s];
    assert after[..|after| - 1] == existing;
    forall d, k
      ensures ExistingCount(after, d, k) <= 3
    {
      assert ExistingCount(after, d, k) == ExistingCount(existing, d, k) + if s.date == d && SlotKey(s) == k then 1 else 0;
    }
  }

  /**
   * The taken-slot check looks at every exam of the timetable: an exam of another
   * department-level in the same date and slot refuses the request, although the
   * auto-scheduler lets two department-levels share a slot.
   */
  lemma OtherDepartmentBlocks(req: AddRequest, timetable: Option<Endpoint.Timetable>,
                              catalog: map<string, DeptLevel>, other: ExistingSlot)
    requires Acceptable(req, timetable, catalog, [])
    requires other.date == req.date.day && SlotName(other.slot) == req.timeSlot
    requires SlotKey(other) != catalog[req.courseId]
    ensures AddExamSlot(req, timetable, catalog, [other]) == Failure(SlotTaken)
  {
    ParseSlotNames(req.timeSlot, other.slot);
    assert [other][0] == other;
  }
}
