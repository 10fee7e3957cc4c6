/**
 * The admin scheduling page (client/src/pages/admin/TimetableScheduler.tsx): the week days it
 * shows, the conflict rules it checks before a course is dropped on the calendar, the conflict
 * flag that blocks publishing, and the guards of the drop and publish handlers.
 */
module SchedulerPage {
  import opened Common
  import opened Calendar
  import opened ClientTypes

  /** `generateWeekDays` (262-275): every day from start to end that date-fns does not call a weekend. */
  method GenerateWeekDays(start: Day, end: Day) returns (days: seq<Day>)
    ensures days == Weekdays(start, end)
    ensures StrictlyIncreasing(days)
    ensures forall d :: d in days <==> start <= d <= end && !IsWeekend(d)
  {
    days := [];
    var current := start;
    while current <= end
      invariant days + Weekdays(current, end) == Weekdays(start, end)
      decreases end - current
    {
      if !IsWeekend(current) {
        days := days + [current];
      }
      current := current + 1;
    }
    WeekdaysSpec(start, end);
  }

  /** `isCourseScheduled` (352-355): some well-formed entry holds the course. */
  function IsCourseScheduled(scheduled: seq<Entry>, courseId: string): (b: bool)
    ensures b <==> exists i :: 0 <= i < |scheduled| && scheduled[i].Some? && scheduled[i].value.course.id == courseId
  {
    if scheduled == [] then false
    else
      var n := |scheduled| - 1;
      assert forall i :: 0 <= i < n ==> scheduled[..n][i] == scheduled[i];
      IsCourseScheduled(scheduled[..n], courseId) || (scheduled[n].Some? && scheduled[n].value.course.id == courseId)
  }

  /** The entry is an exam of department `deptId` at `level` on day `d`. */
  predicate OnDay(e: Entry, deptId: string, level: nat, d: Day) {
    e.Some? && e.value.course.deptId == deptId && e.value.course.level == level && e.value.day == d
  }

  function OnDayTest(deptId: string, level: nat, d: Day): Entry -> bool {
    e => OnDay(e, deptId, level, d)
  }

  /**
   * `countExamsForDepartmentLevelOnDay` (358-380): no day counts nothing; otherwise the number
   * of entries of the department-level on that day.
   */
  function CountOnDay(scheduled: seq<Entry>, deptId: string, level: nat, day: Option<Day>): (n: nat)
    ensures day.None? ==> n == 0
    ensures day.Some? ==> n == |Positions(scheduled, OnDayTest(deptId, level, day.value))|
  {
    if day.None? then 0
    else
      FilterCountsPositions(scheduled, OnDayTest(deptId, level, day.value));
      |Filter(scheduled, OnDayTest(deptId, level, day.value))|
  }

  lemma CountOnDaySnoc(s: seq<Entry>, e: Entry, deptId: string, level: nat, d: Day)
    ensures CountOnDay(s + [e], deptId, level, Some(d)) ==
      CountOnDay(s, deptId, level, Some(d)) + if OnDay(e, deptId, level, d) then 1 else 0
  {
    assert (s + [e])[..|s|] == s;
  }

  /** The weekday closest before `d`. */
  function PreviousWeekday(d: Day): (p: Day)
    ensures p < d && IsWeekday(p)
    ensures forall q :: p < q < d ==> IsWeekend(q)
  {
    if !IsWeekend(d - 1) then d - 1
    else if !IsWeekend(d - 2) then d - 2
    else
      WeekendRunsAreShort(d - 1);
      d - 3
  }

  /** The `prevDay` loop of `checkForConflicts` (479-489): one day back, then back over the weekend. */
  method StepBackToWeekday(day: Day) returns (prev: Day)
    ensures prev == PreviousWeekday(day)
  {
    if IsWeekend(day - 1) && IsWeekend(day - 2) {
      WeekendRunsAreShort(day - 1);
    }
    prev := day - 1;
    while IsWeekend(prev)
      invariant day - 3 <= prev <= day - 1
      invariant forall q :: prev < q < day ==> IsWeekend(q)
      invariant IsWeekend(day - 1) && IsWeekend(day - 2) ==> IsWeekday(day - 3)
      decreases prev - (day - 3)
    {
      prev := prev - 1;
    }
    var p := PreviousWeekday(day);
    assert !(p < prev) && !(prev < p);
  }

  datatype Conflict = NoConflict | Warning | Error

  /** Some entry of the course's department-level already sits in `timeSlot` on `d`. */
  predicate SlotHeld(scheduled: seq<Entry>, c: Course, d: Day, timeSlot: string) {
    exists i :: 0 <= i < |scheduled| && OnDay(scheduled[i], c.deptId, c.level, d) && scheduled[i].value.timeSlot == timeSlot
  }

  /**
   * The verdict of `checkForConflicts` (430-506) for dropping `course` on `day` at `timeSlot`.
   * Missing arguments, a course without a department, a slot the department-level already holds,
   * a previous weekday with two or more of its exams, or three exams already that day are errors;
   * two exams that day is a warning.
   */
  function Verdict(scheduled: seq<Entry>, course: Option<Course>, day: Option<Day>, timeSlot: string): Conflict {
    if course.None? || day.None? || timeSlot == "" then Error
    else if course.value.deptId == "" then Error
    else
      var c, d := course.value, day.value;
      if SlotHeld(scheduled, c, d, timeSlot) then Error
      else if CountOnDay(scheduled, c.deptId, c.level, Some(PreviousWeekday(d))) >= 2 then Error
      else if CountOnDay(scheduled, c.deptId, c.level, day) >= 3 then Error
      else if CountOnDay(scheduled, c.deptId, c.level, day) == 2 then Warning
      else NoConflict
  }

  /** `checkForConflicts`, with its `prevDay` loop. */
  method CheckForConflicts(scheduled: seq<Entry>, course: Option<Course>, day: Option<Day>, timeSlot: string)
    returns (v: Conflict)
    ensures v == Verdict(scheduled, course, day, timeSlot)
  {
    if course.None? || day.None? || timeSlot == "" {
      return Error;
    }
    var c := course.value;
    if c.deptId == "" {
      return Error;
    }
    var examCount := CountOnDay(scheduled, c.deptId, c.level, day);
    if SlotHeld(scheduled, c, day.value, timeSlot) {
      return Error;
    }
    var prev := StepBackToWeekday(day.value);
    if CountOnDay(scheduled, c.deptId, c.level, Some(prev)) >= 2 {
      return Error;
    }
    if examCount >= 3 {
      return Error;
    }
    if examCount == 2 {
      return Warning;
    }
    return NoConflict;
  }

  /** No department-level has two exams in one slot of one day. */
  ghost predicate KeySlotsUnique(s: seq<Entry>) {
    forall i, j :: 0 <= i < j < |s| && s[i].Some? && s[j].Some? ==>
      KeyOf(s[i].value.course) != KeyOf(s[j].value.course) || s[i].value.day != s[j].value.day ||
      s[i].value.timeSlot != s[j].value.timeSlot
  }

  /** No department-level has more than three exams on one day. */
  ghost predicate WithinDailyLimit(s: seq<Entry>) {
    forall deptId, level, d :: CountOnDay(s, deptId, level, Some(d)) <= 3
  }

  /**
   * A drop the check lets through keeps the rules: the department-level does not hold the slot
   * twice, has at most three exams that day (exactly three after a warning), and had fewer than
   * two exams on the previous weekday.
   */
  lemma {:induction false} DropKeepsRules(s: seq<Entry>, c: Course, d: Day, t: string, id: string)
    requires Verdict(s, Some(c), Some(d), t) != Error
    ensures KeySlotsUnique(s) ==> KeySlotsUnique(s + [Some(Scheduled(id, c, d, t))])
    ensures WithinDailyLimit(s) ==> WithinDailyLimit(s + [Some(Scheduled(id, c, d, t))])
    ensures CountOnDay(s + [Some(Scheduled(id, c, d, t))], c.deptId, c.level, Some(d)) <= 3
    ensures Verdict(s, Some(c), Some(d), t) == Warning <==>
      CountOnDay(s + [Some(Scheduled(id, c, d, t))], c.deptId, c.level, Some(d)) == 3
    ensures CountOnDay(s, c.deptId, c.level, Some(PreviousWeekday(d))) < 2
  {
    var e: Entry := Some(Scheduled(id, c, d, t));
    var s' := s + [e];
    CountOnDaySnoc(s, e, c.deptId, c.level, d);
    if KeySlotsUnique(s) {
      forall i, j | 0 <= i < j < |s'| && s'[i].Some? && s'[j].Some?
        ensures KeyOf(s'[i].value.course) != KeyOf(s'[j].value.course) || s'[i].value.day != s'[j].value.day ||
          s'[i].value.timeSlot != s'[j].value.timeSlot
      {
        if j == |s| {
          assert s'[i] == s[i];
          assert !(OnDay(s[i], c.deptId, c.level, d) && s[i].value.timeSlot == t);
        }
      }
    }
    if WithinDailyLimit(s) {
      forall deptId, level, day
        ensures CountOnDay(s', deptId, level, Some(day)) <= 3
      {
        CountOnDaySnoc(s, e, deptId, level, day);
      }
    }
  }

  /** `[...new Set(cs.map(c => c.level))]` over the courses of a department. */
  function LevelsOf(courses: seq<Course>, deptId: string): (ls: seq<nat>)
    ensures forall l :: l in ls <==> exists i :: 0 <= i < |courses| && courses[i].deptId == deptId && courses[i].level == l
  {
    if courses == [] then []
    else
      var n := |courses| - 1;
      var front := LevelsOf(courses[..n], deptId);
      assert forall i :: 0 <= i < n ==> courses[..n][i] == courses[i];
      if courses[n].deptId == deptId && courses[n].level !in front then front + [courses[n].level] else front
  }

  /** The department-level has more than two exams on `d`. */
  ghost predicate Overfull(s: seq<Entry>, deptId: string, level: nat, d: Day) {
    CountOnDay(s, deptId, level, Some(d)) > 2
  }

  /**
   * What `updateConflictStatus` (383-413) looks for: a week day, a department and a level of one
   * of its courses with more than two exams that day.
   */
  ghost predicate AnyConflict(weekDays: seq<Day>, departments: seq<Department>, courses: seq<Course>, s: seq<Entry>) {
    exists i, j, l {:trigger Overfull(s, departments[j].id, l, weekDays[i])} :: 0 <= i < |weekDays| && 0 <= j < |departments| && l in LevelsOf(courses, departments[j].id) &&
      Overfull(s, departments[j].id, l, weekDays[i])
  }

  /** The innermost `levels.forEach` of `updateConflictStatus`. */
  method LevelsConflict(s: seq<Entry>, d: Day, deptId: string, levels: seq<nat>) returns (found: bool)
    ensures found <==> exists l :: l in levels && Overfull(s, deptId, l, d)
  {
    found := false;
    for k := 0 to |levels|
      invariant found <==> exists l :: l in levels[..k] && Overfull(s, deptId, l, d)
    {
      assert forall l :: l in levels[..k + 1] <==> l in levels[..k] || l == levels[k] by {
        assert levels[..k + 1] == levels[..k] + [levels[k]];
      }
      if CountOnDay(s, deptId, levels[k], Some(d)) > 2 {
        assert Overfull(s, deptId, levels[k], d);
        found := true;
      }
    }
    assert levels[..|levels|] == levels;
  }

  /** The `departments.forEach` of `updateConflictStatus` for one day. */
  method DepartmentsConflict(s: seq<Entry>, d: Day, departments: seq<Department>, courses: seq<Course>)
    returns (found: bool)
    ensures found <==> (exists j, l :: 0 <= j < |departments| && l in LevelsOf(courses, departments[j].id) &&
                                      Overfull(s, departments[j].id, l, d))
  {
    found := false;
    for j := 0 to |departments|
      invariant found <==> (exists j', l :: 0 <= j' < j && l in LevelsOf(courses, departments[j'].id) &&
                                          Overfull(s, departments[j'].id, l, d))
    {
      var here := LevelsConflict(s, d, departments[j].id, LevelsOf(courses, departments[j].id));
      found := found || here;
    }
  }

  /** `updateConflictStatus`: the flag is set exactly when some week day has an overfull department-level. */
  method UpdateConflictStatus(weekDays: seq<Day>, departments: seq<Department>, courses: seq<Course>, s: seq<Entry>)
    returns (hasAny: bool)
    ensures hasAny <==> AnyConflict(weekDays, departments, courses, s)
  {
    hasAny := false;
    var i := 0;
    while i < |weekDays|
      invariant i <= |weekDays|
      invariant hasAny <==> (exists i', j, l {:trigger Overfull(s, departments[j].id, l, weekDays[i'])} :: 0 <= i' < i && 0 <= j < |departments| &&
                                                l in LevelsOf(courses, departments[j].id) &&
                                                Overfull(s, departments[j].id, l, weekDays[i']))
    {
      var here := DepartmentsConflict(s, weekDays[i], departments, courses);
      hasAny := hasAny || here;
      i := i + 1;
    }
  }

  /** A Monday (1970-01-05), a department, and three of its level-100 courses. */
  const Monday: Day := 4
  const Computing := Department("d1", "Computing", "f1")
  const Course1 := Course("c1", "CSC101", "", "d1", 100)
  const Course2 := Course("c2", "CSC102", "", "d1", 100)
  const Course3 := Course("c3", "CSC103", "", "d1", 100)
  const TwoExams: seq<Entry> := [Some(Scheduled("s1", Course1, Monday, "SLOT_8_10")), Some(Scheduled("s2", Course2, Monday, "SLOT_10_12"))]

  lemma TwoExamsCounts()
    ensures CountOnDay(TwoExams, "d1", 100, Some(Monday)) == 2
    ensures CountOnDay(TwoExams, "d1", 100, Some(1)) == 0
  {
    assert TwoExams[..1] == [] + [TwoExams[0]];
    assert TwoExams == TwoExams[..1] + [TwoExams[1]];
    CountOnDaySnoc([], TwoExams[0], "d1", 100, Monday);
    CountOnDaySnoc(TwoExams[..1], TwoExams[1], "d1", 100, Monday);
    CountOnDaySnoc([], TwoExams[0], "d1", 100, 1);
    CountOnDaySnoc(TwoExams[..1], TwoExams[1], "d1", 100, 1);
  }

  lemma ComputingLevels()
    ensures LevelsOf([Course1, Course2, Course3], "d1") == [100]
  {
    assert [Course1][..0] == [];
    assert LevelsOf([Course1], "d1") == [100];
    assert [Course1, Course2][..1] == [Course1];
    assert LevelsOf([Course1, Course2], "d1") == [100];
    assert [Course1, Course2, Course3][..2] == [Course1, Course2];
  }

  /**
   * Two exams of a department-level on a Monday and a third dropped in another slot of that
   * day: the check warns and lets the drop through, no department-level is overfull before the
   * drop, and one is after it. A flag recomputed from the list before the drop stays false.
   */
  lemma {:induction false} StaleConflictFlag()
    ensures Verdict(TwoExams, Some(Course3), Some(Monday), "SLOT_1_3") == Warning
    ensures !AnyConflict([Monday], [Computing], [Course1, Course2, Course3], TwoExams)
    ensures AnyConflict([Monday], [Computing], [Course1, Course2, Course3],
                        TwoExams + [Some(Scheduled("s3", Course3, Monday, "SLOT_1_3"))])
  {
    var after := TwoExams + [Some(Scheduled("s3", Course3, Monday, "SLOT_1_3"))];
    assert PreviousWeekday(Monday) == 1;
    TwoExamsCounts();
    ComputingLevels();
    CountOnDaySnoc(TwoExams, after[2], "d1", 100, Monday);
    assert !SlotHeld(TwoExams, Course3, Monday, "SLOT_1_3") by {
      assert forall i :: 0 <= i < |TwoExams| ==> TwoExams[i].value.timeSlot != "SLOT_1_3";
    }
    assert Overfull(after, [Computing][0].id, 100, [Monday][0]);
  }

  /** `courses.find(c => c.id === courseId)` */
  function FindCourse(courses: seq<Course>, courseId: string): (r: Option<Course>)
    ensures r.None? <==> forall i :: 0 <= i < |courses| ==> courses[i].id != courseId
    ensures r.Some? ==> r.value in courses && r.value.id == courseId
  {
    if courses == [] then None
    else if courses[0].id == courseId then Some(courses[0])
    else
      assert forall i :: 0 < i < |courses| ==> courses[i] == courses[1..][i - 1];
      FindCourse(courses[1..], courseId)
  }

  /** A request sent to the add-exam-slot endpoint. */
  datatype AddCall = AddCall(timetableId: string, courseId: string, day: Day, timeSlot: string)

  /** The state of the page that the drop and publish handlers read and write. */
  class Page {
    const timetableId: string
    var courses: seq<Course>
    var departments: seq<Department>
    var weekDays: seq<Day>
    var scheduled: seq<Entry>
    var hasConflicts: bool
    var publishDialogOpen: bool
    /** The add-exam-slot requests the page has sent, oldest first. */
    var calls: seq<AddCall>

    constructor (timetableId: string, courses: seq<Course>, departments: seq<Department>, start: Day, end: Day)
      ensures this.timetableId == timetableId && this.courses == courses && this.departments == departments
      ensures weekDays == Weekdays(start, end)
      ensures scheduled == [] && !hasConflicts && !publishDialogOpen && calls == []
    {
      var days := GenerateWeekDays(start, end);
      this.timetableId := timetableId;
      this.courses := courses;
      this.departments := departments;
      weekDays := days;
      scheduled := [];
      hasConflicts := false;
      publishDialogOpen := false;
      calls := [];
    }

    /**
     * `handleCourseDrop` (639-719) as written. `response` is the id of the slot the server
     * created, or `None` when the request failed. The conflict flag is recomputed by a call that
     * still sees the list from before the drop: React state set in the same handler is not yet
     * visible to it.
     */
    method HandleCourseDropAsWritten(courseId: string, day: Day, timeSlot: string, response: Option<string>)
      modifies this
      ensures courses == old(courses) && departments == old(departments) && weekDays == old(weekDays)
      ensures publishDialogOpen == old(publishDialogOpen)
      ensures var found := FindCourse(courses, courseId);
        if found.None? || Verdict(old(scheduled), found, Some(day), timeSlot) == Error || timetableId == "" then
          calls == old(calls) && scheduled == old(scheduled) && hasConflicts == old(hasConflicts)
        else
          && calls == old(calls) + [AddCall(timetableId, courseId, day, timeSlot)]
          && (response.None? ==> scheduled == old(scheduled) && hasConflicts == old(hasConflicts))
          && (response.Some? ==>
                && scheduled == old(scheduled) + [Some(Scheduled(response.value, found.value, day, timeSlot))]
                && hasConflicts == AnyConflict(weekDays, departments, courses, old(scheduled)))
    {
      var found := FindCourse(courses, courseId);
      if found.None? {
        return;
      }
      var status := CheckForConflicts(scheduled, found, Some(day), timeSlot);
      if status == Error {
        return;
      }
      if timetableId == "" {
        return;
      }
      calls := calls + [AddCall(timetableId, courseId, day, timeSlot)];
      if response.None? {
        return;
      }
      var before := scheduled;
      scheduled := scheduled + [Some(Scheduled(response.value, found.value, day, timeSlot))];
      hasConflicts := UpdateConflictStatus(weekDays, departments, courses, before);
    }

    /**
     * `handleCourseDrop` with the conflict flag recomputed over the list that includes the
     * dropped course. A drop the check refuses sends nothing and changes nothing.
     */
    method HandleCourseDrop(courseId: string, day: Day, timeSlot: string, response: Option<string>)
      modifies this
      ensures courses == old(courses) && departments == old(departments) && weekDays == old(weekDays)
      ensures publishDialogOpen == old(publishDialogOpen)
      ensures var found := FindCourse(courses, courseId);
        if found.None? || Verdict(old(scheduled), found, Some(day), timeSlot) == Error || timetableId == "" then
          calls == old(calls) && scheduled == old(scheduled) && hasConflicts == old(hasConflicts)
        else
          && calls == old(calls) + [AddCall(timetableId, courseId, day, timeSlot)]
          && (response.None? ==> scheduled == old(scheduled) && hasConflicts == old(hasConflicts))
          && (response.Some? ==>
                && scheduled == old(scheduled) + [Some(Scheduled(response.value, found.value, day, timeSlot))]
                && hasConflicts == AnyConflict(weekDays, departments, courses, scheduled))
    {
      var found := FindCourse(courses, courseId);
      if found.None? {
        return;
      }
      var status := CheckForConflicts(scheduled, found, Some(day), timeSlot);
      if status == Error {
        return;
      }
      if timetableId == "" {
        return;
      }
      calls := calls + [AddCall(timetableId, courseId, day, timeSlot)];
      if response.None? {
        return;
      }
      scheduled := scheduled + [Some(Scheduled(response.value, found.value, day, timeSlot))];
      hasConflicts := UpdateConflictStatus(weekDays, departments, courses, scheduled);
    }

    /** `handlePublish` (770-779): the confirmation dialog opens only while no conflict is flagged. */
    method HandlePublish()
      modifies this
      ensures publishDialogOpen == (old(publishDialogOpen) || !hasConflicts)
      ensures hasConflicts == old(hasConflicts) && scheduled == old(scheduled) && calls == old(calls)
      ensures courses == old(courses) && departments == old(departments) && weekDays == old(weekDays)
    {
      if hasConflicts {
        return;
      }
      publishDialogOpen := true;
    }
  }
}
