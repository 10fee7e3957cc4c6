/**
 * The auto-schedule request (server/src/controllers/timetable.ts 553-899): the checks that
 * reject a request, the scheduler run over the timetable's weekdays, and the response with the
 * created exam slots and the courses that could not be placed.
 */
module Endpoint {
  import opened Common
  import opened Calendar
  import opened Keys
  import opened Occupancy
  import opened Placement
  import opened AutoSchedule

  /** The timetable row the request names: its date range and whether it is published. */
  datatype Timetable = Timetable(startDate: Day, endDate: Day, isPublished: bool)

  /** The rejections of lines 574-602, in the order the source checks them. */
  datatype ScheduleError = TimetableNotFound | TimetablePublished | NoCourses | NoWeekdays

  /** An exam slot created by the transaction of lines 854-872. */
  datatype CreatedSlot = CreatedSlot(course: Course, date: Day, slot: TimeSlot)

  /** The summary of an unplaced course sent back to the client (lines 878-884). */
  datatype CourseSummary = CourseSummary(id: string, code: string, title: string, dept: nat, level: nat)

  datatype ScheduleResponse = ScheduleResponse(examSlots: seq<CreatedSlot>, unscheduled: seq<CourseSummary>)

  function Summary(c: Course): CourseSummary {
    CourseSummary(c.id, c.code, c.title, c.dept, c.level)
  }

  /** `courses.map(...)` into summaries. */
  function Summaries(cs: seq<Course>): (r: seq<CourseSummary>)
    ensures |r| == |cs| && forall i :: 0 <= i < |cs| ==> r[i] == Summary(cs[i])
  {
    if cs == [] then [] else Summaries(cs[..|cs| - 1]) + [Summary(cs[|cs| - 1])]
  }

  /** The rows the transaction creates, one per scheduled exam, in order. */
  function Created(ps: seq<Placement>): (r: seq<CreatedSlot>)
    ensures |r| == |ps|
    ensures forall i :: 0 <= i < |ps| ==> r[i] == CreatedSlot(ps[i].course, ps[i].date, ps[i].slot)
  {
    if ps == [] then [] else Created(ps[..|ps| - 1]) + [CreatedSlot(ps[|ps| - 1].course, ps[|ps| - 1].date, ps[|ps| - 1].slot)]
  }

  function SlotKey(s: CreatedSlot): DeptLevel {
    CourseKey(s.course)
  }

  /** The number of created slots on `d` whose course belongs to department-level `k`. */
  function CountFor(slots: seq<CreatedSlot>, d: Day, k: DeptLevel): nat {
    if slots == [] then 0
    else
      var s := slots[|slots| - 1];
      CountFor(slots[..|slots| - 1], d, k) + if s.date == d && SlotKey(s) == k then 1 else 0
  }

  /**
   * The rules of the header comment (lines 544-551) for the created slots, judged by each
   * course's own department and level: at most three exams a day counting the exams already in
   * the timetable, no two exams of one department-level in one slot of one day, and no slot an
   * existing exam of that department-level already holds.
   */
  ghost predicate WithinLimits(existing: seq<ExistingSlot>, slots: seq<CreatedSlot>) {
    && (forall i, j :: 0 <= i < j < |slots| && SlotKey(slots[i]) == SlotKey(slots[j]) && slots[i].date == slots[j].date ==>
          slots[i].slot != slots[j].slot)
    && (forall i :: 0 <= i < |slots| ==> slots[i].slot !in ExistingSlots(existing, SlotKey(slots[i]), slots[i].date))
    && (forall i :: 0 <= i < |slots| ==>
          ExistingCount(existing, slots[i].date, SlotKey(slots[i])) + CountFor(slots, slots[i].date, SlotKey(slots[i])) <= 3)
  }

  /**
   * Lines 853-899: when anything was scheduled, the created slots and the unplaced courses;
   * otherwise no slots and every course.
   */
  function Respond(courses: seq<Course>, run: Run): ScheduleResponse {
    if |run.scheduled| > 0 then ScheduleResponse(Created(run.scheduled), Summaries(run.unscheduled))
    else ScheduleResponse([], Summaries(courses))
  }

  /** When every placement is charged to its own course's key, the two counts agree. */
  lemma {:induction false} OwnKeyCounts(ps: seq<Placement>, d: Day, k: DeptLevel)
    requires OwnKeys(ps)
    ensures CountFor(Created(ps), d, k) == PlacedCount(ps, d, k)
  {
    if ps != [] {
      var init := ps[..|ps| - 1];
      assert OwnKeys(init) by {
        assert forall j :: 0 <= j < |init| ==> init[j] == ps[j];
      }
      OwnKeyCounts(init, d, k);
      assert Created(ps)[..|ps| - 1] == Created(init);
    }
  }

  lemma {:induction false} PlacedCountHas(ps: seq<Placement>, i: nat)
    requires i < |ps|
    ensures PlacedCount(ps, ps[i].date, ps[i].group) >= 1
  {
    if i < |ps| - 1 {
      assert ps[..|ps| - 1][i] == ps[i];
      PlacedCountHas(ps[..|ps| - 1], i);
    }
  }

  /** The invariant of the scheduler's state, with every placement charged to its own key, gives the limits. */
  lemma TracksWithinLimits(existing: seq<ExistingSlot>, days: seq<Day>, run: Run)
    requires Tracks(existing, days, run) && OwnKeys(run.scheduled)
    ensures WithinLimits(existing, Created(run.scheduled))
  {
    var ps, slots := run.scheduled, Created(run.scheduled);
    forall i | 0 <= i < |slots|
      ensures ExistingCount(existing, slots[i].date, SlotKey(slots[i])) + CountFor(slots, slots[i].date, SlotKey(slots[i])) <= 3
    {
      OwnKeyCounts(ps, ps[i].date, ps[i].group);
      PlacedCountHas(ps, i);
      assert CountOf(run.counts, ps[i].date, ps[i].group) <= 3;
    }
  }

  /**
   * Every course is in the response exactly once: as a created slot or as an unplaced summary,
   * and when nothing was placed the response lists all the courses in their given order.
   */
  lemma RespondAccounts(courses: seq<Course>, run: Run)
    requires multiset(CoursesOf(run.scheduled)) + multiset(run.unscheduled) == multiset(courses)
    ensures |Respond(courses, run).examSlots| + |Respond(courses, run).unscheduled| == |courses|
    ensures forall c :: c in courses ==>
      (exists s :: s in Respond(courses, run).examSlots && s.course == c) || Summary(c) in Respond(courses, run).unscheduled
    ensures |run.scheduled| == 0 ==> Respond(courses, run) == ScheduleResponse([], Summaries(courses))
  {
    assert |CoursesOf(run.scheduled)| + |run.unscheduled| == |courses| by {
      assert |multiset(CoursesOf(run.scheduled)) + multiset(run.unscheduled)| == |multiset(courses)|;
    }
    if |run.scheduled| > 0 {
      forall c | c in courses
        ensures (exists s :: s in Created(run.scheduled) && s.course == c) || Summary(c) in Summaries(run.unscheduled)
      {
        assert c in multiset(courses);
        if c in CoursesOf(run.scheduled) {
          var j :| 0 <= j < |run.scheduled| && CoursesOf(run.scheduled)[j] == c;
          CoursesOfAt(run.scheduled, j);
          assert Created(run.scheduled)[j].course == c;
        } else {
          assert c in run.unscheduled;
          var j :| 0 <= j < |run.unscheduled| && run.unscheduled[j] == c;
          assert Summaries(run.unscheduled)[j] == Summary(c);
        }
      }
    } else {
      forall c | c in courses ensures Summary(c) in Summaries(courses) {
        var j :| 0 <= j < |courses| && courses[j] == c;
        assert Summaries(courses)[j] == Summary(c);
      }
    }
  }

  /**
   * The response of a run over the weekdays of a range: every created slot falls on a weekday
   * of the range, and every course is answered once, as a created slot or an unplaced summary.
   */
  lemma RespondInRange(start: Day, end: Day, courses: seq<Course>, run: Run)
    requires forall i :: 0 <= i < |run.scheduled| ==> run.scheduled[i].date in Weekdays(start, end)
    requires multiset(CoursesOf(run.scheduled)) + multiset(run.unscheduled) == multiset(courses)
    ensures forall s :: s in Respond(courses, run).examSlots ==> IsWeekday(s.date) && start <= s.date <= end
    ensures |Respond(courses, run).examSlots| + |Respond(courses, run).unscheduled| == |courses|
    ensures forall c :: c in courses ==>
      (exists s :: s in Respond(courses, run).examSlots && s.course == c) || Summary(c) in Respond(courses, run).unscheduled
  {
    RespondAccounts(courses, run);
    WeekdaysSpec(start, end);
    var response := Respond(courses, run);
    forall s | s in response.examSlots
      ensures IsWeekday(s.date) && start <= s.date <= end
    {
      var j :| 0 <= j < |response.examSlots| && response.examSlots[j] == s;
      assert s.date == run.scheduled[j].date;
    }
  }

  /**
   * `autoScheduleExams` as written: reject a missing or published timetable, an empty course
   * list and a range without weekdays, in that order; otherwise run the scheduler, with its one
   * unscheduled list shared by all groups, over the range's weekdays and answer with the created
   * slots and the unplaced courses. The created slots need not keep the daily limit
   * (`SharedLeftoverOverfills`).
   */
  method AutoScheduleExamsAsWritten(timetable: Option<Timetable>, courses: seq<Course>, existing: seq<ExistingSlot>)
    returns (r: Result<ScheduleResponse, ScheduleError>)
    ensures timetable.None? ==> r == Failure(TimetableNotFound)
    ensures timetable.Some? && timetable.value.isPublished ==> r == Failure(TimetablePublished)
    ensures timetable.Some? && !timetable.value.isPublished && courses == [] ==> r == Failure(NoCourses)
    ensures timetable.Some? && !timetable.value.isPublished && courses != [] ==>
      (r == Failure(NoWeekdays) <==> Weekdays(timetable.value.startDate, timetable.value.endDate) == [])
    ensures r.Success? <==>
      timetable.Some? && !timetable.value.isPublished && courses != [] &&
      Weekdays(timetable.value.startDate, timetable.value.endDate) != []
    ensures r.Success? ==>
      && timetable.Some?
      && (forall s :: s in r.value.examSlots ==>
            IsWeekday(s.date) && timetable.value.startDate <= s.date <= timetable.value.endDate)
      && |r.value.examSlots| + |r.value.unscheduled| == |courses|
      && (forall c :: c in courses ==>
            (exists s :: s in r.value.examSlots && s.course == c) || Summary(c) in r.value.unscheduled)
  {
    if timetable.None? {
      return Failure(TimetableNotFound);
    }
    var tt := timetable.value;
    if tt.isPublished {
      return Failure(TimetablePublished);
    }
    if |courses| == 0 {
      return Failure(NoCourses);
    }
    var availableDates := WeekdaysBetween(tt.startDate, tt.endDate);
    if |availableDates| == 0 {
      return Failure(NoWeekdays);
    }
    var run := ScheduleAsWritten(availableDates, existing, courses);
    RespondInRange(tt.startDate, tt.endDate, courses, run);
    return Success(Respond(courses, run));
  }

  /**
   * The handler with each group retrying only its own leftovers (`AutoSchedule.Schedule`): the
   * same rejections and the same accounting, and the created slots keep the rules of the
   * header comment (lines 544-551).
   */
  method AutoScheduleExams(timetable: Option<Timetable>, courses: seq<Course>, existing: seq<ExistingSlot>)
    returns (r: Result<ScheduleResponse, ScheduleError>)
    ensures timetable.None? ==> r == Failure(TimetableNotFound)
    ensures timetable.Some? && timetable.value.isPublished ==> r == Failure(TimetablePublished)
    ensures timetable.Some? && !timetable.value.isPublished && courses == [] ==> r == Failure(NoCourses)
    ensures timetable.Some? && !timetable.value.isPublished && courses != [] ==>
      (r == Failure(NoWeekdays) <==> Weekdays(timetable.value.startDate, timetable.value.endDate) == [])
    ensures r.Success? <==>
      timetable.Some? && !timetable.value.isPublished && courses != [] &&
      Weekdays(timetable.value.startDate, timetable.value.endDate) != []
    ensures r.Success? ==>
      && timetable.Some?
      && (forall s :: s in r.value.examSlots ==>
            IsWeekday(s.date) && timetable.value.startDate <= s.date <= timetable.value.endDate)
      && WithinLimits(existing, r.value.examSlots)
      && |r.value.examSlots| + |r.value.unscheduled| == |courses|
      && (forall c :: c in courses ==>
            (exists s :: s in r.value.examSlots && s.course == c) || Summary(c) in r.value.unscheduled)
  {
    if timetable.None? {
      return Failure(TimetableNotFound);
    }
    var tt := timetable.value;
    if tt.isPublished {
      return Failure(TimetablePublished);
    }
    if |courses| == 0 {
      return Failure(NoCourses);
    }
    var availableDates := WeekdaysBetween(tt.startDate, tt.endDate);
    if |availableDates| == 0 {
      return Failure(NoWeekdays);
    }
    var run := Schedule(availableDates, existing, courses);
    var response := Respond(courses, run);
    RespondInRange(tt.startDate, tt.endDate, courses, run);
    TracksWithinLimits(existing, availableDates, run);
    if |run.scheduled| == 0 {
      assert WithinLimits(existing, response.examSlots);
    }
    return Success(response);
  }

  const A: DeptLevel := DeptLevel(1, 100)
  const B: DeptLevel := DeptLevel(2, 100)
  const CourseA1: Course := Course("a1", "A1", "", 1, 100)
  const CourseA2: Course := Course("a2", "A2", "", 1, 100)
  const CourseA3: Course := Course("a3", "A3", "", 1, 100)
  const LeftoverA: Course := Course("a4", "A4", "", 1, 100)
  const CourseB1: Course := Course("b1", "B1", "", 2, 100)

  /** The state with no exams: the occupancy and the blocks of a timetable with no stored exams. */
  function EmptyRun(): Run {
    Run(map[], map[], {}, [], [])
  }

  /** After A's first course, placed in the first slot of day 0. */
  function OneOfA(): Run {
    Run(Bump(map[], 0, A), Mark(map[], A, 0, Slot8To10), {}, [Placement(CourseA1, 0, Slot8To10, A)], [])
  }

  /** After A's second course, placed in the second slot of day 0. */
  function TwoOfA(): Run {
    Run(Bump(OneOfA().counts, 0, A), Mark(OneOfA().used, A, 0, Slot10To12), {},
        OneOfA().scheduled + [Placement(CourseA2, 0, Slot10To12, A)], [])
  }

  /** After A's second pass has placed its third course, its fourth left over. */
  function ThreeOfA(): Run {
    Run(Bump(TwoOfA().counts, 0, A), Mark(TwoOfA().used, A, 0, Slot1To3), {},
        TwoOfA().scheduled + [Placement(CourseA3, 0, Slot1To3, A)], [LeftoverA])
  }

  /**
   * The state after department-level A's two passes and B's first pass, on a timetable of one
   * weekday (day 0) with no existing exams: A = (1, 100) had four courses, B = (2, 100) one. A's
   * first pass placed two courses, its second pass a third, and its fourth course is left in
   * the shared unscheduled list; B's first pass placed B's course in the last free slot.
   */
  function TraceRun(): Run {
    Run(Bump(ThreeOfA().counts, 0, B), Mark(ThreeOfA().used, B, 0, Slot3To5), {},
        ThreeOfA().scheduled + [Placement(CourseB1, 0, Slot3To5, B)], [LeftoverA])
  }

  /** A's first pass with cap two: the first two courses fit on day 0, the last two do not. */
  lemma TraceFirstPassOfA()
    ensures Outcome([0], A, 2, CourseA1, EmptyRun(), 0, OneOfA(), 0, Some(Placement(CourseA1, 0, Slot8To10, A)))
    ensures Outcome([0], A, 2, CourseA2, OneOfA(), 0, TwoOfA(), 0, Some(Placement(CourseA2, 0, Slot10To12, A)))
    ensures Outcome([0], A, 2, CourseA3, TwoOfA(), 0, TwoOfA().(unscheduled := [CourseA3]), 1, None)
    ensures Outcome([0], A, 2, LeftoverA, TwoOfA().(unscheduled := [CourseA3]), 1,
                    TwoOfA().(unscheduled := [CourseA3, LeftoverA]), 2, None)
  {
    assert IndexOf([0], 0) == 0;
    assert CountOf(TwoOfA().counts, 0, A) == 2;
  }

  /** A's second pass with cap three over the whole list [a3, a4]: a3 fits, a4 does not. */
  lemma TraceSecondPassOfA()
    ensures Outcome([0], A, 3, CourseA3, TwoOfA(), 0, ThreeOfA().(unscheduled := []), 0,
                    Some(Placement(CourseA3, 0, Slot1To3, A)))
    ensures Outcome([0], A, 3, LeftoverA, ThreeOfA().(unscheduled := []), 0, ThreeOfA(), 1, None)
  {
    assert IndexOf([0], 0) == 0;
    assert CountOf(TwoOfA().counts, 0, A) == 2;
    assert CountOf(ThreeOfA().counts, 0, A) == 3;
  }

  /** B's first pass places b1 in the last free slot of day 0, and that is the traced state. */
  lemma TraceFirstPassOfB()
    ensures Outcome([0], B, 2, CourseB1, ThreeOfA(), 0, TraceRun(), 0, Some(Placement(CourseB1, 0, Slot3To5, B)))
  {
    assert IndexOf([0], 0) == 0;
    assert CountOf(ThreeOfA().counts, 0, B) == 0;
    assert UsedOf(ThreeOfA().used, B, 0) == {};
  }

  /** Filing one more course into the grouping. */
  lemma GroupedSnoc(courses: seq<Course>, c: Course)
    ensures Grouped(courses + [c]) == File(Grouped(courses), c)
  {
    assert (courses + [c])[..|courses|] == courses;
  }

  /** The courses a1..a4 of A form one group, in order. */
  lemma TraceGroupingOfA()
    ensures Grouped([CourseA1, CourseA2, CourseA3, LeftoverA]).0 == [A]
    ensures A in Grouped([CourseA1, CourseA2, CourseA3, LeftoverA]).1
    ensures Grouped([CourseA1, CourseA2, CourseA3, LeftoverA]).1[A] == [CourseA1, CourseA2, CourseA3, LeftoverA]
    ensures B !in Grouped([CourseA1, CourseA2, CourseA3, LeftoverA]).1
  {
    assert CourseKey(CourseA1) == A && CourseKey(CourseA2) == A && CourseKey(CourseA3) == A;
    assert CourseKey(LeftoverA) == A && A != B;
    GroupedSnoc([], CourseA1);
    var g1 := Grouped([CourseA1]);
    assert g1.0 == [A] && A in g1.1 && g1.1[A] == [CourseA1] && B !in g1.1;
    GroupedSnoc([CourseA1], CourseA2);
    assert [CourseA1] + [CourseA2] == [CourseA1, CourseA2];
    var g2 := Grouped([CourseA1, CourseA2]);
    assert g2 == File(g1, CourseA2);
    assert g2.0 == [A] && A in g2.1 && g2.1[A] == [CourseA1, CourseA2] && B !in g2.1;
    GroupedSnoc([CourseA1, CourseA2], CourseA3);
    assert [CourseA1, CourseA2] + [CourseA3] == [CourseA1, CourseA2, CourseA3];
    var g3 := Grouped([CourseA1, CourseA2, CourseA3]);
    assert g3 == File(g2, CourseA3);
    assert g3.0 == [A] && A in g3.1 && g3.1[A] == [CourseA1, CourseA2, CourseA3] && B !in g3.1;
    GroupedSnoc([CourseA1, CourseA2, CourseA3], LeftoverA);
    assert [CourseA1, CourseA2, CourseA3] + [LeftoverA] == [CourseA1, CourseA2, CourseA3, LeftoverA];
  }

  /** The courses a1..a4 of A and b1 of B form two groups, A's first. */
  lemma TraceGrouping()
    ensures Grouped([CourseA1, CourseA2, CourseA3, LeftoverA, CourseB1]).0 == [A, B]
    ensures A in Grouped([CourseA1, CourseA2, CourseA3, LeftoverA, CourseB1]).1 && Grouped([CourseA1, CourseA2, CourseA3, LeftoverA, CourseB1]).1[A] == [CourseA1, CourseA2, CourseA3, LeftoverA]
    ensures B in Grouped([CourseA1, CourseA2, CourseA3, LeftoverA, CourseB1]).1 && Grouped([CourseA1, CourseA2, CourseA3, LeftoverA, CourseB1]).1[B] == [CourseB1]
  {
    TraceGroupingOfA();
    assert CourseKey(CourseB1) == B;
    GroupedSnoc([CourseA1, CourseA2, CourseA3, LeftoverA], CourseB1);
    assert [CourseA1, CourseA2, CourseA3, LeftoverA] + [CourseB1] == [CourseA1, CourseA2, CourseA3, LeftoverA, CourseB1];
  }

  /** Day 0, a Thursday, is the one weekday of the range [0, 0]. */
  lemma TraceDay()
    ensures Weekdays(0, 0) == [0]
  {
    assert DayOfWeek(0) == 4;
    assert Weekdays(1, 0) == [];
  }

  /** The placements of the trace, each charged to its own course's key. */
  lemma TraceOwnKeys()
    ensures TraceRun().scheduled == [Placement(CourseA1, 0, Slot8To10, A), Placement(CourseA2, 0, Slot10To12, A),
                                     Placement(CourseA3, 0, Slot1To3, A), Placement(CourseB1, 0, Slot3To5, B)]
    ensures OwnKeys(TraceRun().scheduled)
  {
  }

  /**
   * The traced state is one the scheduler reaches on one weekday (day 0, a Thursday) with no
   * stored exams: grouping gives A then B, and A's two passes (each course in list order, the
   * second pass taking the whole list [a3, a4]) and B's first pass are the steps above. It
   * keeps the invariant, and every placement is charged to its own key.
   */
  lemma TraceRunTracks()
    ensures TwoOfA().(unscheduled := [CourseA3, LeftoverA]).(unscheduled := []) == TwoOfA()
    ensures Tracks([], [0], TraceRun()) && OwnKeys(TraceRun().scheduled)
  {
    TraceOwnKeys();
    assert Tracks([], [0], EmptyRun());
    TraceFirstPassOfA();
    TraceSecondPassOfA();
    TraceFirstPassOfB();
    OutcomeKeepsTracks([0], A, 2, CourseA1, EmptyRun(), 0, OneOfA(), 0, Some(Placement(CourseA1, 0, Slot8To10, A)), []);
    OutcomeKeepsTracks([0], A, 2, CourseA2, OneOfA(), 0, TwoOfA(), 0, Some(Placement(CourseA2, 0, Slot10To12, A)), []);
    OutcomeKeepsTracks([0], A, 3, CourseA3, TwoOfA(), 0, ThreeOfA().(unscheduled := []), 0,
                       Some(Placement(CourseA3, 0, Slot1To3, A)), []);
    TracksUnscheduled([], [0], ThreeOfA().(unscheduled := []), [LeftoverA]);
    OutcomeKeepsTracks([0], B, 2, CourseB1, ThreeOfA(), 0, TraceRun(), 0, Some(Placement(CourseB1, 0, Slot3To5, B)), []);
  }

  /** In the traced state B has one exam on day 0, in the 3-5 slot. */
  lemma TraceHoldsOfB()
    ensures CountOf(TraceRun().counts, 0, B) == 1 && UsedOf(TraceRun().used, B, 0) == {Slot3To5}
  {
    assert CountOf(ThreeOfA().counts, 0, B) == 0;
    assert UsedOf(ThreeOfA().used, B, 0) == {};
  }

  /**
   * The shared unscheduled list as written (lines 686 and 776-847): B's second pass retries
   * A's leftover under B's counters (one exam, one slot used), finds day 0 open and places it on
   * a slot A already holds, A's fourth exam that day. Whatever free slot is chosen, the created
   * slots break the limits.
   */
  lemma SharedLeftoverOverfills()
    ensures Tracks([], [0], TraceRun()) && TraceRun().unscheduled == [LeftoverA] && CourseKey(LeftoverA) == A
    ensures forall run', pointer', placed :: Outcome([0], B, 3, LeftoverA, TraceRun(), 0, run', pointer', placed) ==>
      placed.Some? && !WithinLimits([], Created(run'.scheduled))
  {
    TraceRunTracks();
    forall run', pointer', placed | Outcome([0], B, 3, LeftoverA, TraceRun(), 0, run', pointer', placed)
      ensures placed.Some? && !WithinLimits([], Created(run'.scheduled))
    {
      LeftoverLandsOnDayZero(run', pointer', placed);
      SecondExamInSlot(placed.value);
    }
  }

  /** Under B's key the leftover a4 finds day 0 open and takes one of the three slots B left free. */
  lemma LeftoverLandsOnDayZero(run': Run, pointer': nat, placed: Option<Placement>)
    requires Outcome([0], B, 3, LeftoverA, TraceRun(), 0, run', pointer', placed)
    ensures placed.Some? && placed.value.date == 0 && placed.value.course == LeftoverA && placed.value.slot != Slot3To5
    ensures run'.scheduled == TraceRun().scheduled + [placed.value]
  {
    TraceHoldsOfB();
    var run := TraceRun();
    assert Scan([0], B, 3, run.counts, run.used, {}, 0, 1) == Found(0, {}) by {
      assert DayAt([0], 0) == 0;
      assert Slot8To10 in AllSlots - UsedOf(run.used, B, 0);
    }
  }

  /** Any further exam of A on day 0 outside the 3-5 slot repeats a slot A already holds. */
  lemma SecondExamInSlot(p: Placement)
    requires p.date == 0 && p.course == LeftoverA && p.slot != Slot3To5
    ensures !WithinLimits([], Created(TraceRun().scheduled + [p]))
  {
    TraceOwnKeys();
    var slots := Created(TraceRun().scheduled + [p]);
    var i := if p.slot == Slot8To10 then 0 else if p.slot == Slot10To12 then 1 else 2;
    assert slots[i].slot == slots[4].slot && SlotKey(slots[i]) == SlotKey(slots[4]) && slots[i].date == slots[4].date;
  }
}
