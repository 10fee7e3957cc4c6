/**
 * Placing one department-level group's courses (server/src/controllers/timetable.ts 692-850):
 * the date scan both passes share, one course's placement, the round-robin first pass capped
 * at two exams a day and the fallback second pass capped at three.
 */
module Placement {
  import opened Common
  import opened Calendar
  import opened Keys
  import opened Occupancy

  /** A course to schedule, with its department id and level (`CourseInfo`). */
  datatype Course = Course(id: string, code: string, title: string, dept: nat, level: nat)

  function CourseKey(c: Course): DeptLevel {
    DeptLevel(c.dept, c.level)
  }

  /**
   * An entry of `scheduledExams`. `group` is the department-level key whose counters and
   * used slots the placement was charged to.
   */
  datatype Placement = Placement(course: Course, date: Day, slot: TimeSlot, group: DeptLevel)

  /** The state the scheduler threads through its loops. */
  datatype Run = Run(counts: Counts, used: Used, skip: set<Block>, scheduled: seq<Placement>, unscheduled: seq<Course>)

  /** `sortedDateKeys[datePointer % sortedDateKeys.length]` */
  function DayAt(days: seq<Day>, p: nat): Day
    requires |days| > 0
  {
    days[p % |days|]
  }

  /** A date the scan passes over: `key` already has `cap` exams there or uses all four slots. */
  predicate Full(cap: nat, counts: Counts, used: Used, key: DeptLevel, d: Day) {
    CountOf(counts, d, key) >= cap || AllSlots <= UsedOf(used, key, d)
  }

  datatype ScanResult = Found(pos: nat, skip: set<Block>) | Exhausted(skip: set<Block>)

  /**
   * The date scan of both passes: from position `pointer`, try `tries` dates in turn. A date
   * blocked for `key` loses its block and is passed over; a full date is passed over; the
   * first other date is where the course goes. `skip` in the result is the block set after
   * the scan.
   */
  function Scan(days: seq<Day>, key: DeptLevel, cap: nat, counts: Counts, used: Used,
                skip: set<Block>, pointer: nat, tries: nat): ScanResult
    requires |days| > 0
    decreases tries
  {
    if tries == 0 then Exhausted(skip)
    else
      var d := DayAt(days, pointer);
      if (key, d) in skip then Scan(days, key, cap, counts, used, skip - {(key, d)}, pointer + 1, tries - 1)
      else if Full(cap, counts, used, key, d) then Scan(days, key, cap, counts, used, skip, pointer + 1, tries - 1)
      else Found(pointer, skip)
  }

  /** The position after the last date the scan looked at. */
  function ScanEnd(r: ScanResult, pointer: nat, tries: nat): nat {
    if r.Found? then r.pos else pointer + tries
  }

  /** The blocks of `key` on the dates at positions `from` up to `to`. */
  function Scanned(days: seq<Day>, key: DeptLevel, from: nat, to: nat): set<Block>
    requires |days| > 0
    decreases if to <= from then 0 else to - from
  {
    if to <= from then {} else {(key, DayAt(days, from))} + Scanned(days, key, from + 1, to)
  }

  lemma MulSign(n: nat, k: int)
    ensures k >= 1 ==> n * k >= n
    ensures k <= -1 ==> n * k + n <= 0
  {
    if k >= 1 {
      assert n * k == n + n * (k - 1);
    } else if k <= -1 {
      assert n * k + n == n * (k + 1);
    }
  }

  /** Fewer than `n` consecutive naturals leave different remainders modulo `n`. */
  lemma ModDistinct(n: nat, a: nat, b: nat)
    requires 0 < n && a < b < a + n
    ensures a % n != b % n
  {
    var qa, qb := a / n, b / n;
    assert a == n * qa + a % n;
    assert b == n * qb + b % n;
    MulSign(n, qb - qa);
    assert n * (qb - qa) == n * qb - n * qa;
  }

  /** Fewer than `|days|` consecutive positions name different dates. */
  lemma DayAtDistinct(days: seq<Day>, a: nat, b: nat)
    requires |days| > 0 && StrictlyIncreasing(days) && a < b < a + |days|
    ensures DayAt(days, a) != DayAt(days, b)
  {
    ModDistinct(|days|, a, b);
    var i, j := a % |days|, b % |days|;
    assert i < j ==> days[i] < days[j];
    assert j < i ==> days[j] < days[i];
  }

  /** A scan ends within the dates it may try. */
  lemma {:induction false} ScanWithin(days: seq<Day>, key: DeptLevel, cap: nat, counts: Counts, used: Used,
                                      skip: set<Block>, pointer: nat, tries: nat)
    requires |days| > 0
    ensures var r := Scan(days, key, cap, counts, used, skip, pointer, tries);
      pointer <= ScanEnd(r, pointer, tries) <= pointer + tries && (r.Found? ==> r.pos < pointer + tries)
    decreases tries
  {
    if tries > 0 {
      var d := DayAt(days, pointer);
      if (key, d) in skip {
        ScanWithin(days, key, cap, counts, used, skip - {(key, d)}, pointer + 1, tries - 1);
      } else if Full(cap, counts, used, key, d) {
        ScanWithin(days, key, cap, counts, used, skip, pointer + 1, tries - 1);
      }
    }
  }

  /** A scan that finds a date finds one that was neither blocked nor full. */
  lemma {:induction false} ScanFound(days: seq<Day>, key: DeptLevel, cap: nat, counts: Counts, used: Used,
                                     skip: set<Block>, pointer: nat, tries: nat)
    requires |days| > 0 && StrictlyIncreasing(days) && tries <= |days|
    ensures var r := Scan(days, key, cap, counts, used, skip, pointer, tries);
      (r.Found? ==> (key, DayAt(days, r.pos)) !in skip
                       && !Full(cap, counts, used, key, DayAt(days, r.pos)))
    decreases tries
  {
    if tries > 0 {
      var d := DayAt(days, pointer);
      if (key, d) in skip {
        var r := Scan(days, key, cap, counts, used, skip - {(key, d)}, pointer + 1, tries - 1);
        ScanFound(days, key, cap, counts, used, skip - {(key, d)}, pointer + 1, tries - 1);
        ScanWithin(days, key, cap, counts, used, skip - {(key, d)}, pointer + 1, tries - 1);
        if r.Found? {
          DayAtDistinct(days, pointer, r.pos);
        }
      } else if Full(cap, counts, used, key, d) {
        ScanFound(days, key, cap, counts, used, skip, pointer + 1, tries - 1);
      }
    }
  }

  /** Every date a scan passes over was blocked (before the scan) or full. */
  lemma {:induction false} ScanPassed(days: seq<Day>, key: DeptLevel, cap: nat, counts: Counts, used: Used,
                                      skip: set<Block>, pointer: nat, tries: nat)
    requires |days| > 0
    ensures var r := Scan(days, key, cap, counts, used, skip, pointer, tries);
      forall p :: pointer <= p < ScanEnd(r, pointer, tries) ==>
        (key, DayAt(days, p)) in skip || Full(cap, counts, used, key, DayAt(days, p))
    decreases tries
  {
    if tries > 0 {
      var d := DayAt(days, pointer);
      if (key, d) in skip {
        ScanPassed(days, key, cap, counts, used, skip - {(key, d)}, pointer + 1, tries - 1);
      } else if Full(cap, counts, used, key, d) {
        ScanPassed(days, key, cap, counts, used, skip, pointer + 1, tries - 1);
      }
    }
  }

  /** A scan consumes exactly the blocks of the dates it passes over. */
  lemma {:induction false} ScanConsumes(days: seq<Day>, key: DeptLevel, cap: nat, counts: Counts, used: Used,
                                        skip: set<Block>, pointer: nat, tries: nat)
    requires |days| > 0
    ensures var r := Scan(days, key, cap, counts, used, skip, pointer, tries);
      r.skip == skip - Scanned(days, key, pointer, ScanEnd(r, pointer, tries))
    decreases tries
  {
    if tries > 0 {
      var d := DayAt(days, pointer);
      if (key, d) in skip {
        ScanConsumes(days, key, cap, counts, used, skip - {(key, d)}, pointer + 1, tries - 1);
        ScanWithin(days, key, cap, counts, used, skip - {(key, d)}, pointer + 1, tries - 1);
      } else if Full(cap, counts, used, key, d) {
        ScanConsumes(days, key, cap, counts, used, skip, pointer + 1, tries - 1);
        ScanWithin(days, key, cap, counts, used, skip, pointer + 1, tries - 1);
      }
    }
  }

  /**
   * The forced break after a placement on `d` that brought the count to `newCount`: block
   * the next date of the timetable, if there is one. The first pass tests `updatedCount >= 2`
   * and the second `newCount === 2`; as a first-pass count never exceeds two, both are this test.
   */
  function BlockNext(skip: set<Block>, days: seq<Day>, key: DeptLevel, d: Day, newCount: nat): set<Block> {
    var idx := IndexOf(days, d);
    if newCount == 2 && 0 <= idx && idx + 1 < |days| then skip + {(key, days[idx + 1])} else skip
  }

  /** The break goes on the date right after `days[i]`, and never past the last date. */
  lemma BlockNextSpec(skip: set<Block>, days: seq<Day>, key: DeptLevel, i: nat, newCount: nat)
    requires StrictlyIncreasing(days) && i < |days|
    ensures BlockNext(skip, days, key, days[i], newCount)
         == if newCount == 2 && i + 1 < |days| then skip + {(key, days[i + 1])} else skip
    ensures (forall b :: b in skip ==> LaterDay(days, b.1)) ==>
            forall b :: b in BlockNext(skip, days, key, days[i], newCount) ==> LaterDay(days, b.1)
  {
    IndexOfIncreasing(days, i);
    if newCount == 2 && i + 1 < |days| {
      assert 1 <= i + 1 < |days| && days[i + 1] == days[i + 1];
    }
  }

  /**
   * A break is used up by the first scan that passes it, and scans wrap around, so a date
   * blocked as a break can still receive an exam of the same group in the same pass. Weekdays
   * 0, 1 and 4 (a Thursday, Friday and Monday), one group, phase 1 with five courses: the first
   * two land on day 0, which blocks day 1; the third scan passes day 0, consumes the block on
   * day 1 and lands on day 4; the fourth also lands on day 4 (no break after the last date);
   * the fifth scan starts at day 4, wraps past day 0 and lands on day 1.
   */
  lemma RestDayIsSingleUse()
    ensures var days, k := [0, 1, 4], DeptLevel(1, 100);
      && BlockNext({}, days, k, 0, 2) == {(k, 1)}
      && Scan(days, k, 2, map[0 := map[k := 2]], map[(k, 0) := {Slot8To10, Slot10To12}], {(k, 1)}, 0, 3)
         == Found(2, {})
      && BlockNext({}, days, k, 4, 2) == {}
      && Scan(days, k, 2, map[0 := map[k := 2], 4 := map[k := 2]],
              map[(k, 0) := {Slot8To10, Slot10To12}, (k, 4) := {Slot8To10, Slot10To12}], {}, 2, 3)
         == Found(4, {})
      && DayAt(days, 4) == 1
  {
    var days, k := [0, 1, 4], DeptLevel(1, 100);
    assert StrictlyIncreasing(days);
    IndexOfIncreasing(days, 0);
    IndexOfIncreasing(days, 2);
    assert DayAt(days, 0) == 0 && DayAt(days, 1) == 1 && DayAt(days, 2) == 4;
    assert DayAt(days, 3) == 0 && DayAt(days, 4) == 1;
  }

  /** The number of placements charged to `k` on `d`. */
  function PlacedCount(ps: seq<Placement>, d: Day, k: DeptLevel): nat {
    if ps == [] then 0
    else
      var p := ps[|ps| - 1];
      PlacedCount(ps[..|ps| - 1], d, k) + if p.date == d && p.group == k then 1 else 0
  }

  /** The time slots of the placements charged to `k` on `d`. */
  function PlacedSlots(ps: seq<Placement>, k: DeptLevel, d: Day): set<TimeSlot> {
    if ps == [] then {}
    else
      var p := ps[|ps| - 1];
      PlacedSlots(ps[..|ps| - 1], k, d) + if p.date == d && p.group == k then {p.slot} else {}
  }

  function CoursesOf(ps: seq<Placement>): (cs: seq<Course>)
    ensures |cs| == |ps|
  {
    if ps == [] then [] else CoursesOf(ps[..|ps| - 1]) + [ps[|ps| - 1].course]
  }

  lemma {:induction false} CoursesOfAt(ps: seq<Placement>, j: nat)
    requires j < |ps|
    ensures CoursesOf(ps)[j] == ps[j].course
  {
    if j < |ps| - 1 {
      assert ps[..|ps| - 1][j] == ps[j];
      CoursesOfAt(ps[..|ps| - 1], j);
    }
  }

  lemma {:induction false} PlacedSlotsHas(ps: seq<Placement>, i: nat)
    requires i < |ps|
    ensures ps[i].slot in PlacedSlots(ps, ps[i].group, ps[i].date)
  {
    if i < |ps| - 1 {
      PlacedSlotsHas(ps[..|ps| - 1], i);
    }
  }

  /** No two placements of one group share a date and slot, nor does one reuse an existing slot. */
  ghost predicate SlotsExclusive(existing: seq<ExistingSlot>, ps: seq<Placement>) {
    && (forall i, j :: 0 <= i < j < |ps| && ps[i].group == ps[j].group && ps[i].date == ps[j].date ==>
          ps[i].slot != ps[j].slot)
    && (forall i :: 0 <= i < |ps| ==> ps[i].slot !in ExistingSlots(existing, ps[i].group, ps[i].date))
  }

  /**
   * The invariant of the scheduler's state: the maps hold exactly the existing slots plus the
   * placements, placements keep slots exclusive, fall on timetable dates and never take a
   * department-level past three exams a day, and blocks only name dates after the first.
   */
  ghost predicate Tracks(existing: seq<ExistingSlot>, days: seq<Day>, run: Run) {
    && CountsTrack(existing, run.counts, run.scheduled)
    && UsedTracks(existing, run.used, run.scheduled)
    && SlotsExclusive(existing, run.scheduled)
    && (forall i :: 0 <= i < |run.scheduled| ==> run.scheduled[i].date in days)
    && (forall b :: b in run.skip ==> LaterDay(days, b.1))
  }

  /** `counts` holds the existing exams plus the placements, and no placed-on day exceeds three. */
  ghost predicate CountsTrack(existing: seq<ExistingSlot>, counts: Counts, ps: seq<Placement>) {
    && (forall d, k {:trigger CountOf(counts, d, k)} ::
          CountOf(counts, d, k) == ExistingCount(existing, d, k) + PlacedCount(ps, d, k))
    && (forall d, k :: PlacedCount(ps, d, k) > 0 ==> CountOf(counts, d, k) <= 3)
  }

  /** `used` holds the slots of the existing exams plus those of the placements. */
  ghost predicate UsedTracks(existing: seq<ExistingSlot>, used: Used, ps: seq<Placement>) {
    forall k, d {:trigger UsedOf(used, k, d)} ::
      UsedOf(used, k, d) == ExistingSlots(existing, k, d) + PlacedSlots(ps, k, d)
  }

  /** The invariant does not look at the unscheduled list. */
  lemma TracksUnscheduled(existing: seq<ExistingSlot>, days: seq<Day>, run: Run, unscheduled: seq<Course>)
    requires Tracks(existing, days, run)
    ensures Tracks(existing, days, run.(unscheduled := unscheduled))
  {
    var run' := run.(unscheduled := unscheduled);
    assert run'.counts == run.counts && run'.used == run.used && run'.scheduled == run.scheduled && run'.skip == run.skip;
  }

  lemma {:induction false} PlacedSnoc(ps: seq<Placement>, p: Placement)
    ensures forall d, k :: PlacedCount(ps + [p], d, k) == PlacedCount(ps, d, k) + if p.date == d && p.group == k then 1 else 0
    ensures forall k, d :: PlacedSlots(ps + [p], k, d) == PlacedSlots(ps, k, d) + if p.date == d && p.group == k then {p.slot} else {}
  {
    assert (ps + [p])[..|ps|] == ps;
  }

  /** A placement on a slot its group does not use yet keeps the slots exclusive. */
  lemma RecordExclusive(existing: seq<ExistingSlot>, ps: seq<Placement>, p: Placement)
    requires SlotsExclusive(existing, ps)
    requires p.slot !in ExistingSlots(existing, p.group, p.date) + PlacedSlots(ps, p.group, p.date)
    ensures SlotsExclusive(existing, ps + [p])
  {
    forall i | 0 <= i < |ps| && ps[i].group == p.group && ps[i].date == p.date
      ensures ps[i].slot != p.slot
    {
      PlacedSlotsHas(ps, i);
    }
  }

  /** Recording a placement on a free slot of a timetable date below three exams keeps the invariant. */
  lemma RecordCounts(existing: seq<ExistingSlot>, counts: Counts, ps: seq<Placement>, p: Placement)
    requires CountsTrack(existing, counts, ps) && CountOf(counts, p.date, p.group) < 3
    ensures CountsTrack(existing, Bump(counts, p.date, p.group), ps + [p])
  {
    PlacedSnoc(ps, p);
  }

  lemma RecordUsed(existing: seq<ExistingSlot>, used: Used, ps: seq<Placement>, p: Placement)
    requires UsedTracks(existing, used, ps)
    ensures UsedTracks(existing, Mark(used, p.group, p.date, p.slot), ps + [p])
  {
    PlacedSnoc(ps, p);
  }

  lemma RecordKeepsTracks(existing: seq<ExistingSlot>, days: seq<Day>, run: Run, p: Placement, skip: set<Block>)
    requires Tracks(existing, days, run)
    requires p.date in days && p.slot !in UsedOf(run.used, p.group, p.date)
    requires CountOf(run.counts, p.date, p.group) < 3
    requires forall b :: b in skip ==> LaterDay(days, b.1)
    ensures Tracks(existing, days, Run(Bump(run.counts, p.date, p.group), Mark(run.used, p.group, p.date, p.slot),
                                      skip, run.scheduled + [p], run.unscheduled))
  {
    RecordCounts(existing, run.counts, run.scheduled, p);
    RecordUsed(existing, run.used, run.scheduled, p);
    RecordExclusive(existing, run.scheduled, p);
  }

  /**
   * The outcome of one course's turn in a pass (lines 703-772 and 779-846): scan the dates from
   * `pointer`; on the date found, take a slot `key` does not use there, count the exam, mark the
   * slot, force a break when the count reaches two and record the exam; when no date is found,
   * queue the course as unscheduled. `pointer'` is where the first pass resumes.
   */
  ghost predicate Outcome(days: seq<Day>, key: DeptLevel, cap: nat, course: Course, run: Run, pointer: nat,
                          run': Run, pointer': nat, placed: Option<Placement>)
    requires |days| > 0
  {
    match Scan(days, key, cap, run.counts, run.used, run.skip, pointer, |days|)
    case Exhausted(rest) =>
      && placed == None && pointer' == pointer + |days|
      && run' == run.(skip := rest, unscheduled := run.unscheduled + [course])
    case Found(pos, rest) =>
      var d := DayAt(days, pos);
      && placed.Some? && placed.value.course == course && placed.value.date == d
      && placed.value.group == key && placed.value.slot !in UsedOf(run.used, key, d)
      && pointer' == pos
      && run' == Run(Bump(run.counts, d, key), Mark(run.used, key, d, placed.value.slot),
                     BlockNext(rest, days, key, d, CountOf(run.counts, d, key) + 1),
                     run.scheduled + [placed.value], run.unscheduled)
  }

  /**
   * What every outcome guarantees: the state invariant holds again, the course went to exactly
   * one list, and a placement lands on a timetable date where `key` had fewer than `cap` exams.
   */
  lemma OutcomeKeepsTracks(days: seq<Day>, key: DeptLevel, cap: nat, course: Course, run: Run, pointer: nat,
                           run': Run, pointer': nat, placed: Option<Placement>, existing: seq<ExistingSlot>)
    requires |days| > 0 && StrictlyIncreasing(days) && cap <= 3 && Tracks(existing, days, run)
    requires Outcome(days, key, cap, course, run, pointer, run', pointer', placed)
    ensures Tracks(existing, days, run')
    ensures Stepped(run, run', course, placed, key)
    ensures placed.Some? ==>
      && placed.value.date in days && CountOf(run.counts, placed.value.date, key) < cap
      && run'.counts == Bump(run.counts, placed.value.date, key)
    ensures placed.None? ==> run'.counts == run.counts
  {
    var r := Scan(days, key, cap, run.counts, run.used, run.skip, pointer, |days|);
    ScanWithin(days, key, cap, run.counts, run.used, run.skip, pointer, |days|);
    ScanFound(days, key, cap, run.counts, run.used, run.skip, pointer, |days|);
    ScanConsumes(days, key, cap, run.counts, run.used, run.skip, pointer, |days|);
    if r.Found? {
      var idx := r.pos % |days|;
      var d := days[idx];
      BlockNextSpec(r.skip, days, key, idx, CountOf(run.counts, d, key) + 1);
      RecordKeepsTracks(existing, days, run, placed.value, BlockNext(r.skip, days, key, d, CountOf(run.counts, d, key) + 1));
    }
  }

  /** One course's turn in a pass, proved against `Outcome`. */
  method PlaceCourse(days: seq<Day>, key: DeptLevel, cap: nat, course: Course, run: Run, pointer: nat)
    returns (run': Run, pointer': nat, placed: Option<Placement>)
    requires |days| > 0
    ensures Outcome(days, key, cap, course, run, pointer, run', pointer', placed)
  {
    var tries := 0;
    pointer' := pointer;
    var skip := run.skip;
    while tries < |days|
      invariant tries <= |days| && pointer' == pointer + tries
      invariant Scan(days, key, cap, run.counts, run.used, run.skip, pointer, |days|)
             == Scan(days, key, cap, run.counts, run.used, skip, pointer', |days| - tries)
      decreases |days| - tries
    {
      var dateKey := days[pointer' % |days|];
      if (key, dateKey) in skip {
        skip := skip - {(key, dateKey)};
        tries, pointer' := tries + 1, pointer' + 1;
        continue;
      }
      var currentCount := CountOf(run.counts, dateKey, key);
      if currentCount >= cap {
        tries, pointer' := tries + 1, pointer' + 1;
        continue;
      }
      var usedSlots := UsedOf(run.used, key, dateKey);
      if AllSlots <= usedSlots {
        tries, pointer' := tries + 1, pointer' + 1;
        continue;
      }
      var freeSlot :| freeSlot in AllSlots && freeSlot !in usedSlots;
      var updatedCount := currentCount + 1;
      var exam := Placement(course, dateKey, freeSlot, key);
      run' := Run(Bump(run.counts, dateKey, key), Mark(run.used, key, dateKey, freeSlot),
                  BlockNext(skip, days, key, dateKey, updatedCount),
                  run.scheduled + [exam], run.unscheduled);
      placed := Some(exam);
      return;
    }
    run' := run.(skip := skip, unscheduled := run.unscheduled + [course]);
    placed := None;
  }

  /** One course's placement: the course is recorded as placed (charged to `key`) or as unscheduled. */
  ghost predicate Stepped(before: Run, after: Run, course: Course, placed: Option<Placement>, key: DeptLevel) {
    && (placed.Some? ==>
          && after.scheduled == before.scheduled + [placed.value] && after.unscheduled == before.unscheduled
          && placed.value.course == course && placed.value.group == key)
    && (placed.None? ==> after.scheduled == before.scheduled && after.unscheduled == before.unscheduled + [course])
  }

  /**
   * Since `start`, the two lists have only grown, every new placement is charged to `key` and
   * places a course of `pool`, and every newly unscheduled course comes from `pool`.
   */
  ghost predicate Grown(start: Run, now: Run, key: DeptLevel, pool: seq<Course>) {
    && start.scheduled <= now.scheduled && start.unscheduled <= now.unscheduled
    && (forall j :: |start.scheduled| <= j < |now.scheduled| ==>
          now.scheduled[j].group == key && now.scheduled[j].course in pool)
    && (forall j :: |start.unscheduled| <= j < |now.unscheduled| ==> now.unscheduled[j] in pool)
  }

  /** Placing the `i`-th course of `pool` keeps every course accounted for. */
  lemma CoursesOfSnoc(ps: seq<Placement>, p: Placement)
    ensures multiset(CoursesOf(ps + [p])) == multiset(CoursesOf(ps)) + multiset{p.course}
  {
    assert (ps + [p])[..|ps|] == ps;
  }

  lemma StepAccounts(before: Run, after: Run, placed: Option<Placement>, key: DeptLevel,
                     base: multiset<Course>, pool: seq<Course>, i: nat)
    requires i < |pool| && Stepped(before, after, pool[i], placed, key)
    requires multiset(CoursesOf(before.scheduled)) + multiset(before.unscheduled) == base + multiset(pool[..i])
    ensures multiset(CoursesOf(after.scheduled)) + multiset(after.unscheduled) == base + multiset(pool[..i + 1])
  {
    PrefixSnoc(pool, i);
    var one := multiset{pool[i]};
    assert multiset(pool[..i + 1]) == multiset(pool[..i]) + one;
    var placedBefore, leftBefore := multiset(CoursesOf(before.scheduled)), multiset(before.unscheduled);
    if placed.Some? {
      CoursesOfSnoc(before.scheduled, placed.value);
      calc {
        multiset(CoursesOf(after.scheduled)) + multiset(after.unscheduled);
        (placedBefore + one) + leftBefore;
        (placedBefore + leftBefore) + one;
      }
    } else {
      calc {
        multiset(CoursesOf(after.scheduled)) + multiset(after.unscheduled);
        placedBefore + (leftBefore + one);
        (placedBefore + leftBefore) + one;
      }
    }
  }

  /** Placing a course of `pool` keeps the lists grown since `start`. */
  lemma StepGrows(start: Run, before: Run, after: Run, course: Course, placed: Option<Placement>,
                  key: DeptLevel, pool: seq<Course>)
    requires course in pool && Stepped(before, after, course, placed, key) && Grown(start, before, key, pool)
    ensures Grown(start, after, key, pool)
  {
    if placed.Some? {
      assert after.scheduled[..|before.scheduled|] == before.scheduled;
      assert after.unscheduled == before.unscheduled;
      assert forall j :: |start.scheduled| <= j < |before.scheduled| ==> after.scheduled[j] == before.scheduled[j];
    } else {
      assert after.scheduled == before.scheduled;
      assert after.unscheduled[..|before.unscheduled|] == before.unscheduled;
      assert forall j :: |start.unscheduled| <= j < |before.unscheduled| ==> after.unscheduled[j] == before.unscheduled[j];
    }
  }

  /** Every date on which `key` gained exams since `c0` holds at most `cap` of them. */
  ghost predicate CappedGrowth(c0: Counts, c1: Counts, key: DeptLevel, cap: nat) {
    forall d :: CountOf(c1, d, key) > CountOf(c0, d, key) ==> CountOf(c1, d, key) <= cap
  }

  /** An exam added below the cap keeps the growth capped. */
  lemma StepCapped(c0: Counts, c: Counts, d: Day, key: DeptLevel, cap: nat)
    requires CappedGrowth(c0, c, key, cap) && CountOf(c, d, key) < cap
    ensures CappedGrowth(c0, Bump(c, d, key), key, cap)
  {
  }

  /** `[...courseList].sort(() => Math.random() - 0.5)`: some ordering of the same courses. */
  method Shuffle(courses: seq<Course>) returns (shuffled: seq<Course>)
    ensures multiset(shuffled) == multiset(courses)
  {
    var rest := courses;
    shuffled := [];
    while rest != []
      invariant multiset(shuffled) + multiset(rest) == multiset(courses)
      decreases |rest|
    {
      var i :| 0 <= i < |rest|;
      assert rest == rest[..i] + [rest[i]] + rest[i + 1..];
      shuffled := shuffled + [rest[i]];
      rest := rest[..i] + rest[i + 1..];
    }
  }

  /** One step of phase 1 keeps the loop's invariants. */
  lemma RoundRobinStep(days: seq<Day>, key: DeptLevel, existing: seq<ExistingSlot>, run: Run,
                       courses: seq<Course>, shuffled: seq<Course>, i: nat,
                       before: Run, pointer: nat, after: Run, pointer': nat, placed: Option<Placement>)
    requires |days| > 0 && StrictlyIncreasing(days)
    requires i < |shuffled| && multiset(shuffled) == multiset(courses)
    requires Tracks(existing, days, before)
    requires multiset(CoursesOf(before.scheduled)) + multiset(before.unscheduled)
          == multiset(CoursesOf(run.scheduled)) + multiset(run.unscheduled) + multiset(shuffled[..i])
    requires Grown(run, before, key, courses) && CappedGrowth(run.counts, before.counts, key, 2)
    requires Outcome(days, key, 2, shuffled[i], before, pointer, after, pointer', placed)
    ensures Tracks(existing, days, after)
    ensures multiset(CoursesOf(after.scheduled)) + multiset(after.unscheduled)
         == multiset(CoursesOf(run.scheduled)) + multiset(run.unscheduled) + multiset(shuffled[..i + 1])
    ensures Grown(run, after, key, courses) && CappedGrowth(run.counts, after.counts, key, 2)
  {
    var course := shuffled[i];
    OutcomeKeepsTracks(days, key, 2, course, before, pointer, after, pointer', placed, existing);
    assert course in multiset(courses);
    StepAccounts(before, after, placed, key, multiset(CoursesOf(run.scheduled)) + multiset(run.unscheduled), shuffled, i);
    StepGrows(run, before, after, course, placed, key, courses);
    if placed.Some? {
      StepCapped(run.counts, before.counts, placed.value.date, key, 2);
    }
  }

  /**
   * First pass (lines 699-773): place the group's courses in a random order, each scan resuming
   * where the previous one stopped, with at most two exams of `key` a day; the courses that
   * do not fit are appended to the unscheduled list.
   */
  method RoundRobinPass(days: seq<Day>, key: DeptLevel, courses: seq<Course>, run: Run,
                        ghost existing: seq<ExistingSlot>)
    returns (run': Run)
    requires |days| > 0 && StrictlyIncreasing(days) && Tracks(existing, days, run)
    ensures Tracks(existing, days, run')
    ensures multiset(CoursesOf(run'.scheduled)) + multiset(run'.unscheduled)
         == multiset(CoursesOf(run.scheduled)) + multiset(run.unscheduled) + multiset(courses)
    ensures Grown(run, run', key, courses)
    ensures CappedGrowth(run.counts, run'.counts, key, 2)
  {
    var shuffledCourses := Shuffle(courses);
    var datePointer := 0;
    run' := run;
    for i := 0 to |shuffledCourses|
      invariant Tracks(existing, days, run')
      invariant multiset(CoursesOf(run'.scheduled)) + multiset(run'.unscheduled)
             == multiset(CoursesOf(run.scheduled)) + multiset(run.unscheduled) + multiset(shuffledCourses[..i])
      invariant Grown(run, run', key, courses)
      invariant CappedGrowth(run.counts, run'.counts, key, 2)
    {
      var course := shuffledCourses[i];
      var placed;
      ghost var before := run';
      ghost var from := datePointer;
      run', datePointer, placed := PlaceCourse(days, key, 2, course, run', datePointer);
      RoundRobinStep(days, key, existing, run, courses, shuffledCourses, i, before, from, run', datePointer, placed);
    }
    assert shuffledCourses[..|shuffledCourses|] == shuffledCourses;
  }

  /** One step of phase 2 keeps the loop's invariants. */
  lemma FallbackStep(days: seq<Day>, key: DeptLevel, existing: seq<ExistingSlot>, start: Run,
                     candidates: seq<Course>, i: nat,
                     before: Run, after: Run, pointer': nat, placed: Option<Placement>)
    requires |days| > 0 && StrictlyIncreasing(days)
    requires i < |candidates| && Tracks(existing, days, before)
    requires multiset(CoursesOf(before.scheduled)) + multiset(before.unscheduled)
          == multiset(CoursesOf(start.scheduled)) + multiset(candidates[..i])
    requires Grown(start, before, key, candidates)
    requires Outcome(days, key, 3, candidates[i], before, 0, after, pointer', placed)
    ensures Tracks(existing, days, after)
    ensures multiset(CoursesOf(after.scheduled)) + multiset(after.unscheduled)
         == multiset(CoursesOf(start.scheduled)) + multiset(candidates[..i + 1])
    ensures Grown(start, after, key, candidates)
  {
    var course := candidates[i];
    OutcomeKeepsTracks(days, key, 3, course, before, 0, after, pointer', placed, existing);
    StepAccounts(before, after, placed, key, multiset(CoursesOf(start.scheduled)), candidates, i);
    StepGrows(start, before, after, course, placed, key, candidates);
  }

  /**
   * Second pass (lines 776-847): take every course on the unscheduled list, clear it, and
   * retry each course from the first date with at most three exams of `key` a day; the
   * courses that still do not fit make up the new unscheduled list.
   */
  method FallbackPass(days: seq<Day>, key: DeptLevel, run: Run, ghost existing: seq<ExistingSlot>)
    returns (run': Run)
    requires |days| > 0 && StrictlyIncreasing(days) && Tracks(existing, days, run)
    ensures Tracks(existing, days, run')
    ensures multiset(CoursesOf(run'.scheduled)) + multiset(run'.unscheduled)
         == multiset(CoursesOf(run.scheduled)) + multiset(run.unscheduled)
    ensures Grown(run.(unscheduled := []), run', key, run.unscheduled)
  {
    var fallbackCandidates := run.unscheduled;
    var start := run.(unscheduled := []);
    TracksUnscheduled(existing, days, run, []);
    run' := start;
    for i := 0 to |fallbackCandidates|
      invariant Tracks(existing, days, run')
      invariant multiset(CoursesOf(run'.scheduled)) + multiset(run'.unscheduled)
             == multiset(CoursesOf(start.scheduled)) + multiset(fallbackCandidates[..i])
      invariant Grown(start, run', key, fallbackCandidates)
    {
      var resume, placed;
      ghost var before := run';
      run', resume, placed := PlaceCourse(days, key, 3, fallbackCandidates[i], run', 0);
      FallbackStep(days, key, existing, start, fallbackCandidates, i, before, run', resume, placed);
    }
    assert fallbackCandidates[..|fallbackCandidates|] == fallbackCandidates;
  }
}
