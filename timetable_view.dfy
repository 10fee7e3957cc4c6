/**
 * The helpers of the published-timetable pages (client/src/pages/admin/TimetableView.tsx and
 * client/src/pages/student/Timetable.tsx): exam slots converted for the calendar view, filtered
 * by department and level, and grouped by date with each date's slots in time-slot order.
 */
module TimetableView {
  import opened Common
  import opened Calendar
  import opened ClientTypes
  import opened Sorting

  function ToScheduled(slot: ExamSlot): Scheduled {
    Scheduled(slot.id, slot.course, slot.date, slot.timeSlot)
  }

  function ToExamSlot(sc: Scheduled): ExamSlot {
    ExamSlot(sc.id, sc.day, sc.timeSlot, sc.course)
  }

  /**
   * `convertToScheduledCourses`: one calendar entry per exam slot, in the same order, from which
   * the exam slot is recovered unchanged.
   */
  function ConvertToScheduledCourses(examSlots: seq<ExamSlot>): (r: seq<Scheduled>)
    ensures |r| == |examSlots|
    ensures forall i :: 0 <= i < |r| ==> ToExamSlot(r[i]) == examSlots[i]
  {
    seq(|examSlots|, i requires 0 <= i < |examSlots| => ToScheduled(examSlots[i]))
  }

  /** The calendar shows, in a day's time slot, exactly the exam slots of that date and time slot. */
  lemma {:induction false} ConvertedSlotExams(examSlots: seq<ExamSlot>, day: Day, timeSlot: string, x: Scheduled)
    ensures x in ConvertToScheduledCourses(examSlots) && x.day == day && x.timeSlot == timeSlot <==>
      ToExamSlot(x) in examSlots && x.day == day && x.timeSlot == timeSlot
  {
    var r := ConvertToScheduledCourses(examSlots);
    if ToExamSlot(x) in examSlots {
      var i :| 0 <= i < |examSlots| && examSlots[i] == ToExamSlot(x);
      assert r[i] == ToScheduled(examSlots[i]) == x;
    }
    if x in r {
      var i :| 0 <= i < |r| && r[i] == x;
      assert ToExamSlot(r[i]) in examSlots;
    }
  }

  /**
   * The test of `filterExamSlots`. The department filter is off when it is the empty string; the
   * level filter is `number | ''` and off when falsy, so 0 stands for both '' and 0.
   */
  function Shown(filterDepartment: string, filterLevel: nat): ExamSlot -> bool {
    (slot: ExamSlot) =>
      && (filterDepartment == "" || slot.course.deptId == filterDepartment)
      && (filterLevel == 0 || slot.course.level == filterLevel)
  }

  /** `filterExamSlots`: the exam slots of the selected department and level, in their order. */
  function FilterExamSlots(examSlots: seq<ExamSlot>, filterDepartment: string, filterLevel: nat): (r: seq<ExamSlot>)
    ensures forall x :: x in r <==>
      && x in examSlots
      && (filterDepartment == "" || x.course.deptId == filterDepartment)
      && (filterLevel == 0 || x.course.level == filterLevel)
  {
    Filter(examSlots, Shown(filterDepartment, filterLevel))
  }

  /**
   * With no filter set every exam slot is shown; filtering keeps the list's order (it distributes
   * over concatenation) and filtering again changes nothing.
   */
  lemma {:induction false} FilterExamSlotsProps(a: seq<ExamSlot>, b: seq<ExamSlot>, filterDepartment: string, filterLevel: nat)
    ensures FilterExamSlots(a, "", 0) == a
    ensures FilterExamSlots(a + b, filterDepartment, filterLevel) ==
      FilterExamSlots(a, filterDepartment, filterLevel) + FilterExamSlots(b, filterDepartment, filterLevel)
    ensures FilterExamSlots(FilterExamSlots(a, filterDepartment, filterLevel), filterDepartment, filterLevel) ==
      FilterExamSlots(a, filterDepartment, filterLevel)
  {
    FilterConcat(a, b, Shown(filterDepartment, filterLevel));
    FilterKeeps(a, Shown("", 0));
    FilterKeeps(FilterExamSlots(a, filterDepartment, filterLevel), Shown(filterDepartment, filterLevel));
  }

  /** Filtering a list whose elements all pass gives the list back. */
  lemma {:induction false} FilterKeeps<T(!new)>(s: seq<T>, p: T -> bool)
    requires forall x :: x in s ==> p(x)
    ensures Filter(s, p) == s
  {
    if s != [] {
      var n := |s| - 1;
      assert s == s[..n] + [s[n]];
      FilterKeeps(s[..n], p);
    }
  }

  /** The order of the time slots within a day; an unknown slot has `indexOf` -1 and comes first. */
  const TimeSlotOrder: seq<string> := ["SLOT_8_10", "SLOT_10_12", "SLOT_1_3", "SLOT_3_5"]

  function SlotRank(slot: ExamSlot): int {
    IndexOf(TimeSlotOrder, slot.timeSlot)
  }

  function DateOf(slot: ExamSlot): int {
    slot.date
  }

  /** An entry of the grouped list: a date and its exam slots. */
  datatype DateGroup = DateGroup(date: Day, slots: seq<ExamSlot>)

  function GroupDate(g: DateGroup): int {
    g.date
  }

  /** `dates` lists the keys of `groups` once each, and no group is empty. */
  ghost predicate DatesListed(groups: map<Day, seq<ExamSlot>>, dates: seq<Day>) {
    && NoDuplicates(dates)
    && (forall d :: d in groups <==> d in dates)
    && (forall d :: d in groups ==> groups[d] != [])
  }

  /** `groups` holds, for each date of the list `s`, its exam slots in list order, and no other key. */
  ghost predicate GroupsHold(s: seq<ExamSlot>, groups: map<Day, seq<ExamSlot>>) {
    forall d :: WithKey(s, DateOf, d) == if d in groups then groups[d] else []
  }

  /** Pushing a slot into the group of its date, created when missing, keeps the keys listed. */
  lemma DatesStep(slot: ExamSlot, groups: map<Day, seq<ExamSlot>>, dates: seq<Day>)
    requires DatesListed(groups, dates)
    ensures slot.date !in groups ==> DatesListed(groups[slot.date := [slot]], dates + [slot.date])
    ensures slot.date in groups ==> DatesListed(groups[slot.date := groups[slot.date] + [slot]], dates)
  {
  }

  /** Pushing a slot into the group of its date keeps the groups those of the list grown by it. */
  lemma GroupsStep(s: seq<ExamSlot>, slot: ExamSlot, groups: map<Day, seq<ExamSlot>>)
    requires GroupsHold(s, groups)
    ensures slot.date !in groups ==> GroupsHold(s + [slot], groups[slot.date := [slot]])
    ensures slot.date in groups ==> GroupsHold(s + [slot], groups[slot.date := groups[slot.date] + [slot]])
  {
    assert (s + [slot])[..|s|] == s;
  }

  /**
   * The `forEach` that fills `groupedSlots`: each date of the list gets the exam slots on it,
   * in list order, and `dates` lists the keys once each in the order they were created.
   */
  method CollectByDate(examSlots: seq<ExamSlot>) returns (groups: map<Day, seq<ExamSlot>>, dates: seq<Day>)
    ensures NoDuplicates(dates)
    ensures forall d :: d in groups <==> d in dates
    ensures forall d :: d in groups <==> WithKey(examSlots, DateOf, d) != []
    ensures forall d :: d in groups ==> groups[d] == WithKey(examSlots, DateOf, d)
  {
    groups, dates := map[], [];
    for i := 0 to |examSlots|
      invariant DatesListed(groups, dates)
      invariant GroupsHold(examSlots[..i], groups)
    {
      groups, dates := FileByDate(examSlots, i, groups, dates);
    }
    Collected(examSlots, groups, dates);
  }

  /** One step of the `forEach`: the slot is pushed into the group of its date, created when missing. */
  method FileByDate(examSlots: seq<ExamSlot>, i: nat, groups: map<Day, seq<ExamSlot>>, dates: seq<Day>)
    returns (groups': map<Day, seq<ExamSlot>>, dates': seq<Day>)
    requires i < |examSlots|
    requires DatesListed(groups, dates) && GroupsHold(examSlots[..i], groups)
    ensures DatesListed(groups', dates') && GroupsHold(examSlots[..i + 1], groups')
  {
    var slot := examSlots[i];
    DatesStep(slot, groups, dates);
    GroupsStep(examSlots[..i], slot, groups);
    assert examSlots[..i + 1] == examSlots[..i] + [slot];
    if slot.date !in groups {
      groups', dates' := groups[slot.date := [slot]], dates + [slot.date];
    } else {
      groups', dates' := groups[slot.date := groups[slot.date] + [slot]], dates;
    }
  }

  /** What the two invariants say once the whole list has been filed. */
  lemma Collected(examSlots: seq<ExamSlot>, groups: map<Day, seq<ExamSlot>>, dates: seq<Day>)
    requires DatesListed(groups, dates) && GroupsHold(examSlots[..|examSlots|], groups)
    ensures NoDuplicates(dates)
    ensures forall d :: d in groups <==> d in dates
    ensures forall d :: d in groups <==> WithKey(examSlots, DateOf, d) != []
    ensures forall d :: d in groups ==> groups[d] == WithKey(examSlots, DateOf, d)
  {
    assert examSlots[..|examSlots|] == examSlots;
  }

  /**
   * `groupExamSlotsByDate`: one group per date that has an exam, the groups in increasing date
   * order, each holding the exam slots of its date sorted by time slot.
   */
  method GroupExamSlotsByDate(examSlots: seq<ExamSlot>) returns (r: seq<DateGroup>)
    ensures forall i, j :: 0 <= i < j < |r| ==> r[i].date < r[j].date
    ensures forall i :: 0 <= i < |r| ==> r[i].slots == SortBy(WithKey(examSlots, DateOf, r[i].date), SlotRank)
    ensures forall i :: 0 <= i < |r| ==> r[i].slots != []
    ensures forall slot :: slot in examSlots ==> exists i :: 0 <= i < |r| && r[i].date == slot.date
  {
    var groups, dates := CollectByDate(examSlots);
    ListedInDomain(groups, dates);
    var entries := seq(|dates|, i requires 0 <= i < |dates| => DateGroup(dates[i], groups[dates[i]]));
    var sorted := SortBy(entries, GroupDate);
    SortedGroups(examSlots, dates, entries);
    r := seq(|sorted|, i requires 0 <= i < |sorted| => DateGroup(sorted[i].date, SortBy(sorted[i].slots, SlotRank)));
    SlotsOrdered(examSlots, sorted, r);
  }

  /**
   * Groups in strictly increasing date order, each holding the (non-empty) exam slots of its
   * date in list order, with every exam slot's date present.
   */
  ghost predicate DatedGroups(examSlots: seq<ExamSlot>, groups: seq<DateGroup>) {
    && (forall i, j :: 0 <= i < j < |groups| ==> groups[i].date < groups[j].date)
    && (forall i :: 0 <= i < |groups| ==> groups[i].slots == WithKey(examSlots, DateOf, groups[i].date) != [])
    && (forall slot :: slot in examSlots ==> exists i :: 0 <= i < |groups| && groups[i].date == slot.date)
  }

  /** Sorting each group's slots by time slot keeps the dates and the coverage, and no group empties. */
  lemma SlotsOrdered(examSlots: seq<ExamSlot>, sorted: seq<DateGroup>, r: seq<DateGroup>)
    requires DatedGroups(examSlots, sorted)
    requires |r| == |sorted|
    requires forall i :: 0 <= i < |r| ==> r[i] == DateGroup(sorted[i].date, SortBy(sorted[i].slots, SlotRank))
    ensures forall i, j :: 0 <= i < j < |r| ==> r[i].date < r[j].date
    ensures forall i :: 0 <= i < |r| ==> r[i].slots == SortBy(WithKey(examSlots, DateOf, r[i].date), SlotRank)
    ensures forall i :: 0 <= i < |r| ==> r[i].slots != []
    ensures forall slot :: slot in examSlots ==> exists i :: 0 <= i < |r| && r[i].date == slot.date
  {
    forall i | 0 <= i < |r|
      ensures r[i].slots != []
    {
      SortByNonEmpty(sorted[i].slots, SlotRank);
    }
    forall slot | slot in examSlots
      ensures exists i :: 0 <= i < |r| && r[i].date == slot.date
    {
      var i :| 0 <= i < |sorted| && sorted[i].date == slot.date;
      assert r[i].date == slot.date;
    }
  }

  /** Every listed date is a key of the groups. */
  lemma ListedInDomain(groups: map<Day, seq<ExamSlot>>, dates: seq<Day>)
    requires forall d :: d in groups <==> d in dates
    ensures forall i :: 0 <= i < |dates| ==> dates[i] in groups
  {
    forall i | 0 <= i < |dates|
      ensures dates[i] in groups
    {
      var d := dates[i];
      assert d in dates;
    }
  }

  lemma SortByNonEmpty<T(!new)>(s: seq<T>, key: T -> int)
    requires s != []
    ensures SortBy(s, key) != []
  {
    SortByProps(s, key);
    assert s[0] in multiset(SortBy(s, key));
  }

  /**
   * The entries made from the collected groups, once sorted by date: dates strictly increasing,
   * each entry holding the exam slots of its date, and every exam slot's date present.
   */
  lemma SortedGroups(examSlots: seq<ExamSlot>, dates: seq<Day>, entries: seq<DateGroup>)
    requires NoDuplicates(dates)
    requires forall d :: d in dates <==> WithKey(examSlots, DateOf, d) != []
    requires |entries| == |dates|
    requires forall i :: 0 <= i < |entries| ==> entries[i] == DateGroup(dates[i], WithKey(examSlots, DateOf, dates[i]))
    ensures DatedGroups(examSlots, SortBy(entries, GroupDate))
  {
    SortedDates(entries, dates);
    SortedEntriesHold(examSlots, dates, entries);
    SortedEntriesCover(examSlots, dates, entries);
  }

  /** Each sorted entry still holds the exam slots of its own date. */
  lemma SortedEntriesHold(examSlots: seq<ExamSlot>, dates: seq<Day>, entries: seq<DateGroup>)
    requires forall d :: d in dates <==> WithKey(examSlots, DateOf, d) != []
    requires |entries| == |dates|
    requires forall i :: 0 <= i < |entries| ==> entries[i] == DateGroup(dates[i], WithKey(examSlots, DateOf, dates[i]))
    requires multiset(SortBy(entries, GroupDate)) == multiset(entries)
    ensures forall i :: 0 <= i < |SortBy(entries, GroupDate)| ==>
      SortBy(entries, GroupDate)[i].slots == WithKey(examSlots, DateOf, SortBy(entries, GroupDate)[i].date) != []
  {
    var sorted := SortBy(entries, GroupDate);
    forall i | 0 <= i < |sorted|
      ensures sorted[i].slots == WithKey(examSlots, DateOf, sorted[i].date) != []
    {
      assert sorted[i] in multiset(entries);
      var j :| 0 <= j < |entries| && entries[j] == sorted[i];
      assert dates[j] in dates;
    }
  }

  /** The date of every exam slot has a sorted entry. */
  lemma SortedEntriesCover(examSlots: seq<ExamSlot>, dates: seq<Day>, entries: seq<DateGroup>)
    requires forall d :: d in dates <==> WithKey(examSlots, DateOf, d) != []
    requires |entries| == |dates|
    requires forall i :: 0 <= i < |entries| ==> entries[i] == DateGroup(dates[i], WithKey(examSlots, DateOf, dates[i]))
    requires multiset(SortBy(entries, GroupDate)) == multiset(entries)
    ensures forall slot :: slot in examSlots ==>
      exists i :: 0 <= i < |SortBy(entries, GroupDate)| && SortBy(entries, GroupDate)[i].date == slot.date
  {
    var sorted := SortBy(entries, GroupDate);
    forall slot | slot in examSlots
      ensures exists i :: 0 <= i < |sorted| && sorted[i].date == slot.date
    {
      WithKeyHas(examSlots, DateOf, slot.date, slot);
      var j :| 0 <= j < |dates| && dates[j] == slot.date;
      assert entries[j] in multiset(sorted);
      var i :| 0 <= i < |sorted| && sorted[i] == entries[j];
    }
  }


  /** The entries built from distinct dates, once sorted by date, have strictly increasing dates. */
  lemma SortedDates(entries: seq<DateGroup>, dates: seq<Day>)
    requires |entries| == |dates| && NoDuplicates(dates)
    requires forall i :: 0 <= i < |entries| ==> entries[i].date == dates[i]
    ensures multiset(SortBy(entries, GroupDate)) == multiset(entries)
    ensures forall i, j :: 0 <= i < j < |SortBy(entries, GroupDate)| ==>
      SortBy(entries, GroupDate)[i].date < SortBy(entries, GroupDate)[j].date
  {
    var sorted := SortBy(entries, GroupDate);
    SortByProps(entries, GroupDate);
    forall v
      ensures |WithKey(sorted, GroupDate, v)| <= 1
    {
      DistinctKeysUnique(entries, GroupDate, v);
    }
    SortedUniqueKeys(sorted, GroupDate);
  }

  /**
   * What the grouping promises the page: every exam slot is in the group of its date and in no
   * other, each group is in time-slot order, holds exactly the exam slots of its date (as many
   * times as the list has them), and slots of one time slot keep their order in the list.
   */
  lemma GroupedSlots(examSlots: seq<ExamSlot>, r: seq<DateGroup>)
    requires forall i :: 0 <= i < |r| ==> r[i].slots == SortBy(WithKey(examSlots, DateOf, r[i].date), SlotRank)
    ensures forall slot, i :: slot in examSlots && 0 <= i < |r| ==> (slot in r[i].slots <==> r[i].date == slot.date)
    ensures forall i :: 0 <= i < |r| ==> SortedBy(r[i].slots, SlotRank)
    ensures forall i :: 0 <= i < |r| ==> multiset(r[i].slots) == multiset(WithKey(examSlots, DateOf, r[i].date))
    ensures forall i, v :: 0 <= i < |r| ==>
      WithKey(r[i].slots, SlotRank, v) == WithKey(WithKey(examSlots, DateOf, r[i].date), SlotRank, v)
  {
    forall i | 0 <= i < |r|
      ensures SortedBy(r[i].slots, SlotRank)
      ensures multiset(r[i].slots) == multiset(WithKey(examSlots, DateOf, r[i].date))
      ensures forall v :: WithKey(r[i].slots, SlotRank, v) == WithKey(WithKey(examSlots, DateOf, r[i].date), SlotRank, v)
    {
      SortByProps(WithKey(examSlots, DateOf, r[i].date), SlotRank);
    }
    forall slot, i | slot in examSlots && 0 <= i < |r|
      ensures slot in r[i].slots <==> r[i].date == slot.date
    {
      WithKeyHas(examSlots, DateOf, r[i].date, slot);
      assert slot in r[i].slots <==> slot in multiset(r[i].slots);
    }
  }
}
