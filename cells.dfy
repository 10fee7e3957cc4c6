/**
 * The calendar cells the exams are dropped into and shown in: the drop target of the scheduling
 * page (client/src/pages/admin/components/DroppableTimeSlot.tsx), the drop target of the
 * calendar (client/src/components/DroppableCalendarCell.tsx) and the read-only cell of the
 * calendar view (`CalendarCell`, client/src/components/TimetableCalendarView.tsx). Each selects
 * the exams of its day and time slot, accepts a drop while the slot holds fewer than three, and
 * flags its day when one department-level has more than two exams on it.
 */
module Cells {
  import opened Common
  import opened Calendar
  import opened ClientTypes
  import SchedulerPage

  function AtSlot(day: Day, timeSlot: string): Scheduled -> bool {
    (sc: Scheduled) => sc.day == day && sc.timeSlot == timeSlot
  }

  /** `scheduledCoursesForSlot` of `DroppableTimeSlot`: the exams on `day` in `timeSlot`, in list order. */
  function SlotExams(scheduled: seq<Scheduled>, day: Day, timeSlot: string): (r: seq<Scheduled>)
    ensures forall x :: x in r <==> x in scheduled && x.day == day && x.timeSlot == timeSlot
  {
    Filter(scheduled, AtSlot(day, timeSlot))
  }

  /** The entries that are not null and have a course and a day. */
  function Present(entries: seq<Entry>): (r: seq<Scheduled>)
    ensures forall x :: x in r <==> Some(x) in entries
  {
    if entries == [] then []
    else
      var n := |entries| - 1;
      assert forall e :: e in entries <==> e in entries[..n] || e == entries[n] by {
        assert entries == entries[..n] + [entries[n]];
      }
      Present(entries[..n]) + if entries[n].Some? then [entries[n].value] else []
  }

  /**
   * `scheduledCoursesForSlot` of the two calendar cells: a missing or empty list gives nothing,
   * and entries that are null or have no day are skipped.
   */
  function CellExams(entries: seq<Entry>, day: Day, timeSlot: string): (r: seq<Scheduled>)
    ensures forall x :: x in r <==> Some(x) in entries && x.day == day && x.timeSlot == timeSlot
  {
    SlotExams(Present(entries), day, timeSlot)
  }

  /** `canDrop`: a slot takes a dropped course while it holds fewer than three exams. */
  predicate CanDrop(forSlot: seq<Scheduled>) {
    |forSlot| < 3
  }

  /** A drop the cell accepts leaves at most three exams in the slot. */
  lemma DropKeepsSlotLimit(scheduled: seq<Scheduled>, x: Scheduled, day: Day, timeSlot: string)
    requires CanDrop(SlotExams(scheduled, day, timeSlot))
    ensures |SlotExams(scheduled + [x], day, timeSlot)| <= 3
    ensures !CanDrop(SlotExams(scheduled + [x], day, timeSlot)) ==> |SlotExams(scheduled, day, timeSlot)| == 2
  {
    FilterConcat(scheduled, [x], AtSlot(day, timeSlot));
  }

  /** The number of exams of department-level `key` on `day`. */
  function DayCount(scheduled: seq<Scheduled>, day: Day, key: DeptLevelKey): nat {
    if scheduled == [] then 0
    else
      var n := |scheduled| - 1;
      DayCount(scheduled[..n], day, key) + if scheduled[n].day == day && KeyOf(scheduled[n].course) == key then 1 else 0
  }

  /** Some department-level has more than two exams on `day`. */
  ghost predicate Overloaded(scheduled: seq<Scheduled>, day: Day) {
    exists k :: DayCount(scheduled, day, k) > 2
  }

  /** An exam on `day` counts for its department-level. */
  lemma {:induction false} DayCountPositive(scheduled: seq<Scheduled>, day: Day, x: Scheduled)
    requires x in scheduled && x.day == day
    ensures DayCount(scheduled, day, KeyOf(x.course)) > 0
  {
    var n := |scheduled| - 1;
    if scheduled[n] != x {
      assert scheduled == scheduled[..n] + [scheduled[n]];
      DayCountPositive(scheduled[..n], day, x);
    }
  }

  /**
   * The conflict badge of `DroppableTimeSlot` and `CalendarCell`. An empty slot shows nothing;
   * otherwise `examCount` is the largest number of exams one department-level has on the day,
   * whatever their slots, and the slot is flagged exactly when some department-level has more
   * than two.
   */
  method SlotConflict(scheduled: seq<Scheduled>, day: Day, timeSlot: string) returns (hasConflict: bool, examCount: nat)
    ensures SlotExams(scheduled, day, timeSlot) == [] ==> !hasConflict && examCount == 0
    ensures SlotExams(scheduled, day, timeSlot) != [] ==>
      && (forall k :: DayCount(scheduled, day, k) <= examCount)
      && (exists k :: DayCount(scheduled, day, k) == examCount)
    ensures hasConflict <==> SlotExams(scheduled, day, timeSlot) != [] && Overloaded(scheduled, day)
  {
    var forSlot := SlotExams(scheduled, day, timeSlot);
    if |forSlot| == 0 {
      return false, 0;
    }
    var counts, keys := CountByKey(scheduled, day);
    examCount := LargestCount(counts, keys);
    hasConflict := examCount > 2;
    if hasConflict {
      var k :| k in counts && counts[k] == examCount;
      assert DayCount(scheduled, day, k) > 2;
    }
    assert forSlot[0] in forSlot;
    DayCountPositive(scheduled, day, forSlot[0]);
    assert KeyOf(forSlot[0].course) in counts;
  }

  /**
   * The `forEach` that fills `deptLevelCounts`: every department-level with an exam on `day`
   * gets its number of exams that day, and `keys` lists the department-levels once each.
   */
  method CountByKey(scheduled: seq<Scheduled>, day: Day) returns (counts: map<DeptLevelKey, nat>, keys: seq<DeptLevelKey>)
    ensures forall k :: k in counts <==> k in keys
    ensures forall k :: k in counts <==> DayCount(scheduled, day, k) > 0
    ensures forall k :: k in counts ==> counts[k] == DayCount(scheduled, day, k)
  {
    counts, keys := map[], [];
    for i := 0 to |scheduled|
      invariant forall k :: k in counts <==> k in keys
      invariant forall k :: k in counts ==> counts[k] == DayCount(scheduled[..i], day, k) > 0
      invariant forall k :: k !in counts ==> DayCount(scheduled[..i], day, k) == 0
    {
      assert scheduled[..i + 1][..i] == scheduled[..i];
      var sc := scheduled[i];
      if sc.day == day {
        var key := KeyOf(sc.course);
        var before := if key in counts then counts[key] else 0;
        if key !in counts {
          keys := keys + [key];
        }
        counts := counts[key := before + 1];
      }
    }
    assert scheduled[..|scheduled|] == scheduled;
  }

  /** `Math.max(...Object.values(deptLevelCounts))`, or 0 when there are no values. */
  method LargestCount(counts: map<DeptLevelKey, nat>, keys: seq<DeptLevelKey>) returns (m: nat)
    requires forall k :: k in counts <==> k in keys
    ensures forall k :: k in counts ==> counts[k] <= m
    ensures m == 0 || exists k :: k in counts && counts[k] == m
  {
    m := 0;
    for j := 0 to |keys|
      invariant forall t :: 0 <= t < j ==> counts[keys[t]] <= m
      invariant m == 0 || exists t :: 0 <= t < j && counts[keys[t]] == m
    {
      if counts[keys[j]] > m {
        m := counts[keys[j]];
      }
    }
    forall k | k in counts
      ensures counts[k] <= m
    {
      var t :| 0 <= t < |keys| && keys[t] == k;
    }
  }

  /** The badge of `CalendarCell`, on the entries that are present. */
  method CellConflict(entries: seq<Entry>, day: Day, timeSlot: string) returns (hasConflict: bool, examCount: nat)
    ensures CellExams(entries, day, timeSlot) == [] ==> !hasConflict && examCount == 0
    ensures CellExams(entries, day, timeSlot) != [] ==>
      && (forall k :: DayCount(Present(entries), day, k) <= examCount)
      && (exists k :: DayCount(Present(entries), day, k) == examCount)
    ensures hasConflict <==> CellExams(entries, day, timeSlot) != [] && Overloaded(Present(entries), day)
  {
    hasConflict, examCount := SlotConflict(Present(entries), day, timeSlot);
  }

  /** The cell counts a department-level's exams on a day exactly as the scheduling page does. */
  lemma {:induction false} CellCountsAsPage(entries: seq<Entry>, day: Day, deptId: string, level: nat)
    ensures DayCount(Present(entries), day, DeptLevelKey(deptId, level)) ==
      SchedulerPage.CountOnDay(entries, deptId, level, Some(day))
  {
    if entries != [] {
      var n := |entries| - 1;
      CellCountsAsPage(entries[..n], day, deptId, level);
      assert entries == entries[..n] + [entries[n]];
      SchedulerPage.CountOnDaySnoc(entries[..n], entries[n], deptId, level, day);
      var front := Present(entries[..n]);
      if entries[n].Some? {
        assert (front + [entries[n].value])[..|front|] == front;
      } else {
        assert Present(entries) == front;
      }
    } else {
      assert SchedulerPage.CountOnDay(entries, deptId, level, Some(day)) == 0 by {
        FilterCountsPositions(entries, SchedulerPage.OnDayTest(deptId, level, day));
      }
    }
  }

  /**
   * A cell that shows an exam flags its day exactly when the scheduling page counts more than
   * two exams of one department-level on it.
   */
  lemma CellFlagsOverfullDay(entries: seq<Entry>, day: Day, timeSlot: string)
    requires CellExams(entries, day, timeSlot) != []
    ensures Overloaded(Present(entries), day) <==>
      exists deptId, level :: SchedulerPage.CountOnDay(entries, deptId, level, Some(day)) > 2
  {
    forall deptId, level
      ensures DayCount(Present(entries), day, DeptLevelKey(deptId, level)) == SchedulerPage.CountOnDay(entries, deptId, level, Some(day))
    {
      CellCountsAsPage(entries, day, deptId, level);
    }
    if Overloaded(Present(entries), day) {
      var k :| DayCount(Present(entries), day, k) > 2;
      assert k == DeptLevelKey(k.deptId, k.level);
      assert SchedulerPage.CountOnDay(entries, k.deptId, k.level, Some(day)) > 2;
    } else {
      forall deptId, level
        ensures SchedulerPage.CountOnDay(entries, deptId, level, Some(day)) <= 2
      {
        assert DayCount(Present(entries), day, DeptLevelKey(deptId, level)) <= 2;
      }
    }
  }
}
