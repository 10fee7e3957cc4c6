# Exam timetable scheduling, modelled in Dafny

This project models the exam-scheduling core of an exam timetable system. The system has an
Express server and a React client.

**Server: the auto-scheduler behind `autoScheduleExams`.** Given a draft timetable's date range
and the courses of some departments and levels, it:
- takes the weekdays of the range;
- rebuilds two occupancy maps from the exams already stored: the exams per (date,
  department-level) and the time slots each department-level uses on each date;
- files the courses under their department-level key;
- blocks the date after every date holding two exams of a group, as a forced break;
- places each group's courses in two passes:
  - a round-robin pass allowing two exams a day;
  - a chronological fallback pass allowing three;
- answers with the created exam slots and the courses it could not place.

The manual `addExamSlot` handler checks a single request against rules of its own. They differ
from the scheduler's:
- it refuses a date and slot held by any exam of the timetable, whatever its department-level,
  while the scheduler avoids only the slots of the course's own department-level;
- it refuses when the course's department-level already has three exams that day;
- it has no forced break and no previous-day rule, while the scheduler and the admin page's
  drop handler both apply one.

**Client: the admin scheduling page.**
- The week days it shows.
- Its per-day counts and drop verdicts (`none`, `warning`, `error`).
- The conflict flag that blocks publishing.
- The faculty → department → level course tree.
- The drop handler and the publish handler.

**Client: the calendar cells.** Each cell:
- selects its exams;
- accepts a drop while it holds fewer than three;
- flags a department-level with more than two exams on its day.

**Client: the calendar view.** Its five-day week and its colour cache.

**Client: the timetable pages.** They convert, filter and group exam slots by date in time-slot
order, and mark the signed-in student's own exams.

**How the model represents the source.**
- Days are integers counting days from 1970-01-01, a Thursday.
- Time slots are a four-constructor datatype on the server and their names on the client.
- A department-level key is a pair.
- The mutable maps, sets and arrays of the scheduler are Dafny `map`s, `set`s and `seq`s in a
  state record (`Placement.Run`), threaded through methods with loops.
- The scheduling page is a class whose fields are the page's state.
- Every loop of the source is a method proved against a specification function or predicate.
- `Math.random` choices are nondeterministic choices: the proofs hold for every choice.

Modules, one per source file or concern:

| module | file | models |
|---|---|---|
| Common | common.dfy | Option/Result, `filter`, `indexOf`, the `new Set` de-duplication |
| Calendar | calendar.dfy | `isWeekday`, `getWeekdaysBetweenDates` |
| Keys | keys.dfy | the `"<dept>-<level>"` key and its parsing back |
| Occupancy | occupancy.dfy | the occupancy maps and the initial forced breaks |
| Placement | placement.dfy | the date scan, one course's turn, both passes |
| AutoSchedule | schedule.dfy | grouping and the run over all groups |
| Endpoint | endpoint.dfy | the `autoScheduleExams` handler and its response |
| AddSlot | addslot.dfy | the `addExamSlot` handler |
| Sorting | sorting.dfy | `Array.prototype.sort` with a numeric comparator |
| ClientTypes | client_types.dfy | the records the client pages use |
| SchedulerPage | scheduler_page.dfy | the admin scheduling page |
| CourseTree | course_tree.dfy | `buildCourseTree` |
| Cells | cells.dfy | the three calendar cells |
| CalendarView | calendar_view.dfy | the calendar view's week and colour cache |
| TimetableView | timetable_view.dfy | the admin timetable page's helpers |
| StudentTimetable | student_timetable.dfy | the student timetable page |

## Model

| member | source | states |
|---|---|---|
| Calendar.WeekdaysSpec | server/src/controllers/timetable.ts:7-25 | The weekdays of a range are strictly increasing and are exactly the dates in `[start, end]` that are neither Saturday nor Sunday. |
| Calendar.WeekdaysBetween | server/src/controllers/timetable.ts:13-25 | The day-by-day loop returns that list. It is empty exactly when the range has no weekday. |
| Keys.ParseIntOfDecimal | server/src/controllers/timetable.ts:695-696 | `parseInt` of a number's decimal text gives back the number. |
| Keys.SplitTwo | server/src/controllers/timetable.ts:694 | Splitting `a-b` on `-`, when `a` and `b` hold no `-`, gives `[a, b]`. |
| Keys.RebuiltKeyRoundTrip | server/src/controllers/timetable.ts:694-696 | Parsing the key written at line 658 gives back its department and level. |
| Keys.RebuildKey | server/src/controllers/timetable.ts:694-696 | The key a group is worked under is the key it was filed under. |
| Occupancy.Bump | server/src/controllers/timetable.ts:634-637 | One more exam of a department-level on a date. No other (date, key) count changes. |
| Occupancy.Mark | server/src/controllers/timetable.ts:640-643 | A slot becomes used by a department-level on a date. No other (key, date) slot set changes. |
| Occupancy.BuildOccupancy | server/src/controllers/timetable.ts:626-644 | After the replay of the stored exams, every count is that key's stored exams on that date. Every slot set is exactly the slots those exams hold. |
| Occupancy.InitialBlocks | server/src/controllers/timetable.ts:668-682 | A break `(key, next date)` is seeded exactly when an earlier timetable date holds at least two of the key's exams. No break falls after the last date. |
| Placement.DayAtDistinct | server/src/controllers/timetable.ts:706-707 | The dates one scan tries, fewer than the number of dates, are pairwise different. |
| Placement.ScanWithin | server/src/controllers/timetable.ts:706-707 | A scan stops within the `tries` dates it may try. |
| Placement.ScanFound | server/src/controllers/timetable.ts:711-733 | A date the scan settles on is not blocked for the key, is below the day cap, and has a free slot. |
| Placement.ScanPassed | server/src/controllers/timetable.ts:711-733 | Every date the scan passes over was blocked, at the cap, or without a free slot. |
| Placement.ScanConsumes | server/src/controllers/timetable.ts:712-715 | The scan removes exactly the blocks of the dates it passes over. |
| Placement.BlockNextSpec | server/src/controllers/timetable.ts:749-755 | A count reaching two blocks exactly the next timetable date, and never a date past the last. |
| Placement.RestDayIsSingleUse | server/src/controllers/timetable.ts:712-715 | On the dates 0, 1 and 4, two exams on date 0 block date 1. The next scan passes over date 1 and removes the block, so a later scan from date 4 places a course of the key on date 1, the date right after one with two exams: a forced break is used once, not kept. |
| Placement.RecordExclusive | server/src/controllers/timetable.ts:725-746 | Recording a placement on a slot the key does not use keeps every department-level's slots on a date pairwise different. |
| Placement.RecordCounts | server/src/controllers/timetable.ts:735-740 | The counts after a placement still equal the stored plus placed exams per (date, key). |
| Placement.RecordUsed | server/src/controllers/timetable.ts:742-746 | The used slots after a placement still equal the stored plus placed slots per (key, date). |
| Placement.OutcomeKeepsTracks | server/src/controllers/timetable.ts:703-772 | Whatever date and slot are chosen, a course's turn keeps the state invariant and puts the course on exactly one list. A placement lands on a timetable date where the key had fewer than `cap` exams. |
| Placement.PlaceCourse | server/src/controllers/timetable.ts:703-772 | One course's turn: scan, pick a free slot, count, mark, force a break at two, and record. With no date, queue the course. |
| Placement.Shuffle | server/src/controllers/timetable.ts:699 | The shuffled list is a permutation of the group's courses. |
| Placement.StepCapped | server/src/controllers/timetable.ts:718-721 | A placement made while the key's count on that date is below the cap keeps every count the pass raised at most the cap. |
| Placement.RoundRobinPass | server/src/controllers/timetable.ts:699-773 | The first pass keeps the invariant. Every course is scheduled or queued, and the group's count on any date rises to at most two. |
| Placement.FallbackPass | server/src/controllers/timetable.ts:776-847 | The second pass takes the whole unscheduled list, clears it, keeps the invariant, and puts each candidate on exactly one list. |
| AutoSchedule.MembersCount | server/src/controllers/timetable.ts:656-663 | A group holds each course of its key as often as the course list does, and no other course. |
| AutoSchedule.GroupedKeys | server/src/controllers/timetable.ts:656-663 | The group keys are the distinct keys of the courses, in first-seen order. |
| AutoSchedule.GroupedEntries | server/src/controllers/timetable.ts:656-663 | Each group holds its key's courses in list order. |
| AutoSchedule.GroupCourses | server/src/controllers/timetable.ts:656-663 | The grouping loop builds that map and key order. |
| AutoSchedule.GroupsPartition | server/src/controllers/timetable.ts:656-663 | Together the groups hold every course exactly as often as the list does. |
| AutoSchedule.InitialRun | server/src/controllers/timetable.ts:617-686 | The occupancy, seeded breaks and empty lists satisfy the scheduler's invariant. |
| AutoSchedule.GroupPassesAsWritten | server/src/controllers/timetable.ts:692-848 | One group's two passes over the shared state keep the invariant and account for every course seen. |
| AutoSchedule.RunGroupsAsWritten | server/src/controllers/timetable.ts:692-850 | Running every group, with the shared unscheduled list, keeps the invariant and accounts for every course. |
| AutoSchedule.ScheduleAsWritten | server/src/controllers/timetable.ts:617-850 | The scheduler as written: every course ends scheduled or unscheduled, as often as it was given. |
| AutoSchedule.GroupPasses | server/src/controllers/timetable.ts:692-848 | One group's passes, retrying only its own leftovers. Each placement is charged to its course's own key. |
| AutoSchedule.RunGroups | server/src/controllers/timetable.ts:692-850 | All groups under that retry rule keep the invariant, with every placement charged to its own key. |
| AutoSchedule.Schedule | server/src/controllers/timetable.ts:617-850 | The scheduler with per-group retries accounts for every course, and every placement is charged to its own key. |
| Endpoint.Summaries | server/src/controllers/timetable.ts:878-884 | One summary per unplaced course, in order. |
| Endpoint.Created | server/src/controllers/timetable.ts:854-872 | One created exam slot per placement, with its course, date and slot. |
| Endpoint.OwnKeyCounts | server/src/controllers/timetable.ts:544-551 | With every placement charged to its own key, the created slots of a key on a date are its placed count. |
| Endpoint.TracksWithinLimits | server/src/controllers/timetable.ts:544-551 | The invariant, with own-key charging, gives the rules of the header comment: at most three exams a day per department-level counting stored exams, and no slot taken twice by one department-level on one day. |
| Endpoint.RespondAccounts | server/src/controllers/timetable.ts:853-898 | The response lists each course once, as a created slot or an unplaced summary. When nothing was placed, it lists all the courses as unscheduled. |
| Endpoint.AutoScheduleExamsAsWritten | server/src/controllers/timetable.ts:553-899 | The handler as written, over the shared unscheduled list. It rejects a missing timetable, then a published one, then an empty course list, then a range without weekdays. Otherwise it succeeds. The created slots fall on weekdays of the range, and together with the unplaced courses account for every course. It promises no daily limit (see Findings). |
| Endpoint.AutoScheduleExams | server/src/controllers/timetable.ts:544-551 | The corrected handler, whose fallback retries only each group's own leftovers. It keeps the same rejections in the same order, the weekday range and the accounting. Its created slots also keep the limits of the header comment: at most three exams a day per department-level counting stored exams, and no slot taken twice by one department-level on one day. |
| Endpoint.RespondInRange | server/src/controllers/timetable.ts:853-899 | When every placement falls on a weekday of the range and the run holds each course once, the response's slots fall on weekdays of the range, its slots and unplaced courses number the courses, and each course is answered. |
| Endpoint.TraceDay | server/src/controllers/timetable.ts:7-25 | Day 0, a Thursday, is the one weekday of the range [0, 0]. |
| Endpoint.TraceGroupingOfA | server/src/controllers/timetable.ts:656-663 | The courses a1-a4 of A file into A's one entry, in order, and B has no entry yet. |
| Endpoint.TraceGrouping | server/src/controllers/timetable.ts:656-663 | The courses a1-a4 of A and b1 of B file into two groups, A's first, with their courses in order. |
| Endpoint.TraceFirstPassOfA | server/src/controllers/timetable.ts:692-772 | A's round-robin pass on day 0 places a1 and a2, then leaves a3 and a4 unscheduled because A has two exams that day. |
| Endpoint.TraceSecondPassOfA | server/src/controllers/timetable.ts:776-847 | A's fallback pass over [a3, a4] places a3 in the third slot, then leaves a4 unscheduled because A has three exams that day. |
| Endpoint.TraceFirstPassOfB | server/src/controllers/timetable.ts:692-772 | B's round-robin pass places b1 in the last free slot of day 0, which gives the traced state. |
| Endpoint.TraceOwnKeys | server/src/controllers/timetable.ts:692-847 | The traced state holds a1, a2 and a3 for A and b1 for B, each charged to its own course's key. |
| Endpoint.TraceRunTracks | server/src/controllers/timetable.ts:686-847 | Chaining these steps from the empty state, the traced state keeps the scheduler's invariant. A's fallback starts from an emptied unscheduled list. |
| Endpoint.TraceHoldsOfB | server/src/controllers/timetable.ts:725-746 | In the traced state B has one exam on day 0, in the 3-5 slot. |
| Endpoint.LeftoverLandsOnDayZero | server/src/controllers/timetable.ts:779-846 | B's fallback, retrying A's leftover a4 under B's counters, places it on day 0, outside the 3-5 slot. |
| Endpoint.SecondExamInSlot | server/src/controllers/timetable.ts:544-551 | Any further exam of A on day 0 outside the 3-5 slot repeats a slot A already holds, so the created slots break the limits. |
| Endpoint.SharedLeftoverOverfills | server/src/controllers/timetable.ts:776-847 | Group A has 3 exams on day 0 and one leftover. Group B's fallback retries that leftover under B's counters. Whatever slot it picks, the created slots break the three-a-day rule for A. |
| AddSlot.ParseSlotNames | server/src/controllers/timetable.ts:435-438 | Exactly the four slot names are accepted, each as the slot it names. |
| AddSlot.AddExamSlot | server/src/controllers/timetable.ts:382-489 | A request is accepted exactly when every check passes. The slot created has the requested date, slot, and the course's department and level. |
| AddSlot.RejectionOrder | server/src/controllers/timetable.ts:386-464 | The first failing check decides the error: missing fields exactly when a field is missing, then a missing timetable, then a published one. A taken slot is reported only when the date and slot are valid and an exam already holds that slot. A full day is reported only when the course's department-level already has three exams that day. |
| AddSlot.AddTakesFreeSlot | server/src/controllers/timetable.ts:441-451 | An accepted slot shares its date and slot with no stored exam of the timetable, whatever that exam's department-level. So a timetable whose (date, slot) pairs are distinct stays so. |
| AddSlot.AddKeepsDailyLimit | server/src/controllers/timetable.ts:453-466 | When every department-level has at most three exams a day, adding an accepted slot keeps it so. |
| AddSlot.OtherDepartmentBlocks | server/src/controllers/timetable.ts:441-451 | An exam of another department in the same date and slot refuses the request. |
| Sorting.SortByProps | client/src/pages/admin/TimetableView.tsx:194-198 | The numeric-comparator sort returns a sorted permutation of its input. It is stable: each key's elements keep their order. |
| Sorting.SortedUniqueKeys | client/src/pages/admin/TimetableView.tsx:189-190 | A sorted list with at most one element per key has strictly increasing keys. |
| SchedulerPage.GenerateWeekDays | client/src/pages/admin/TimetableScheduler.tsx:262-275 | The week days are the ascending non-weekend dates from start to end, the server's weekday list. |
| SchedulerPage.IsCourseScheduled | client/src/pages/admin/TimetableScheduler.tsx:352-355 | True exactly when some non-null entry holds the course. |
| SchedulerPage.CountOnDay | client/src/pages/admin/TimetableScheduler.tsx:358-380 | With no day the count is 0. Otherwise it counts the non-null entries of that department, level and date. |
| SchedulerPage.CountOnDaySnoc | client/src/pages/admin/TimetableScheduler.tsx:358-380 | One more entry raises the count by one exactly when it is of that department, level and day. |
| SchedulerPage.PreviousWeekday | client/src/pages/admin/TimetableScheduler.tsx:479-489 | The previous weekday is before the day, is a weekday, and only weekend days lie between. |
| SchedulerPage.StepBackToWeekday | client/src/pages/admin/TimetableScheduler.tsx:479-489 | The stepping loop reaches that previous weekday. |
| SchedulerPage.CheckForConflicts | client/src/pages/admin/TimetableScheduler.tsx:430-506 | The verdict: error for missing input, a held slot, two or more exams on the previous weekday, or three on the day. Exactly two gives a warning. |
| SchedulerPage.DropKeepsRules | client/src/pages/admin/TimetableScheduler.tsx:430-506 | A drop that is not an error keeps department-level slots unique and at most three exams a day. It makes the day's count at most three. The verdict is a warning exactly when the day already had two. |
| SchedulerPage.LevelsOf | client/src/pages/admin/TimetableScheduler.tsx:395-397 | The levels listed for a department are exactly the levels of its courses. |
| SchedulerPage.LevelsConflict | client/src/pages/admin/TimetableScheduler.tsx:400-406 | True exactly when one of the levels has more than two exams of the department that day. |
| SchedulerPage.DepartmentsConflict | client/src/pages/admin/TimetableScheduler.tsx:393-407 | True exactly when some department and one of its levels has more than two exams that day. |
| SchedulerPage.UpdateConflictStatus | client/src/pages/admin/TimetableScheduler.tsx:383-413 | The flag is set exactly when some week day, department and level has more than two exams. |
| SchedulerPage.StaleConflictFlag | client/src/pages/admin/TimetableScheduler.tsx:688-698 | A warned third drop produces a conflict, but the flag computed from the list before the drop stays false. |
| SchedulerPage.FindCourse | client/src/pages/admin/TimetableScheduler.tsx:641 | The course with the id, or none when no course has it. |
| SchedulerPage.Page.constructor | client/src/pages/admin/TimetableScheduler.tsx:262-275 | The page starts with the range's week days, no exams, no conflict and the dialog closed. |
| SchedulerPage.Page.HandleCourseDropAsWritten | client/src/pages/admin/TimetableScheduler.tsx:639-719 | As written: an unknown course, an error verdict or a missing timetable id changes nothing. Otherwise one request is sent; on success the exam is appended and the flag is recomputed from the list before the drop. |
| SchedulerPage.Page.HandleCourseDrop | client/src/pages/admin/TimetableScheduler.tsx:639-719 | The same, with the flag recomputed from the list that holds the new exam. |
| SchedulerPage.Page.HandlePublish | client/src/pages/admin/TimetableScheduler.tsx:770-779 | The dialog opens only while no conflict is flagged, and nothing else changes. |
| CourseTree.LevelNodes | client/src/pages/admin/TimetableScheduler.tsx:321-328 | One level node per level, holding the department's courses of that level. |
| CourseTree.BuildCourseTree | client/src/pages/admin/TimetableScheduler.tsx:278-349 | Any empty input list gives an empty tree. Otherwise the loops build the faculty tree. |
| CourseTree.DepartmentNodes | client/src/pages/admin/TimetableScheduler.tsx:314-331 | The inner loop builds one node per department with courses, in order. |
| CourseTree.DeptNodeOfGood | client/src/pages/admin/TimetableScheduler.tsx:315-329 | A department node has distinct, non-empty levels. Each level holds exactly the department's courses of that level, and every course of the department is in one. |
| CourseTree.DeptNodesSound | client/src/pages/admin/TimetableScheduler.tsx:314-331 | Every department node comes from a listed department that has courses. |
| CourseTree.DeptNodesComplete | client/src/pages/admin/TimetableScheduler.tsx:314-331 | Every listed department with courses has its node. |
| CourseTree.TreeOfSound | client/src/pages/admin/TimetableScheduler.tsx:303-339 | Every faculty node comes from a listed faculty whose departments have courses. |
| CourseTree.TreeOfComplete | client/src/pages/admin/TimetableScheduler.tsx:303-339 | Every faculty with a department that has courses has its node. |
| CourseTree.BucketOrigin | client/src/pages/admin/TimetableScheduler.tsx:303-339 | A bucket's faculty and department nodes are those of a listed faculty and one of its departments. |
| CourseTree.BucketSound | client/src/pages/admin/TimetableScheduler.tsx:303-339 | A course in a bucket is a given course of that department and level, reachable through its faculty. |
| CourseTree.BucketComplete | client/src/pages/admin/TimetableScheduler.tsx:303-339 | Every course whose department belongs to a listed faculty is in some bucket. |
| CourseTree.CourseTreePlacement | client/src/pages/admin/TimetableScheduler.tsx:278-349 | A course is in the tree exactly when it is given and its department belongs to a listed faculty, and only under its own department and level. |
| CourseTree.BucketUnique | client/src/pages/admin/TimetableScheduler.tsx:278-349 | With unique faculty and department ids, each course is in exactly one faculty → department → level bucket. |
| CourseTree.NoEmptyNodes | client/src/pages/admin/TimetableScheduler.tsx:303-339 | No faculty, department or level node is empty. |
| Cells.SlotExams | client/src/pages/admin/components/DroppableTimeSlot.tsx:44-59 | The slot's exams are exactly the entries of that day and time slot. |
| Cells.Present | client/src/components/DroppableCalendarCell.tsx:49-56 | The entries kept are exactly the ones that are not null and have a day. |
| Cells.CellExams | client/src/components/DroppableCalendarCell.tsx:48-69 | The cell's exams are exactly the present entries of that day and time slot. |
| Cells.DropKeepsSlotLimit | client/src/pages/admin/components/DroppableTimeSlot.tsx:102 | A drop the slot accepts leaves at most three exams in it. The slot refuses the next drop only if it held two before. |
| Cells.DayCountPositive | client/src/pages/admin/components/DroppableTimeSlot.tsx:72-85 | An exam on the day counts for its department-level. |
| Cells.SlotConflict | client/src/pages/admin/components/DroppableTimeSlot.tsx:62-96 | An empty slot gives no conflict and count 0. Otherwise the count is the largest per-department-level count of the day, and the conflict holds exactly when some count exceeds two. |
| Cells.CountByKey | client/src/pages/admin/components/DroppableTimeSlot.tsx:68-85 | Each department-level with an exam that day maps to its number of exams, and no other key is present. |
| Cells.LargestCount | client/src/pages/admin/components/DroppableTimeSlot.tsx:88-90 | The maximum of the counts, or 0 when there are none. |
| Cells.CellConflict | client/src/components/TimetableCalendarView.tsx:94-127 | The same conflict badge over the present entries of a calendar cell. |
| Cells.CellCountsAsPage | client/src/components/TimetableCalendarView.tsx:94-127 | A cell counts a department-level's exams on a day as the scheduling page's counter does. |
| Cells.CellFlagsOverfullDay | client/src/components/TimetableCalendarView.tsx:94-127 | A non-empty cell flags its day exactly when the page counts more than two exams of some department and level. |
| CalendarView.WeekDays | client/src/components/TimetableCalendarView.tsx:263-280 | The shown week is the first five weekdays of the range, or all of them when fewer. |
| CalendarView.WeekDaysShown | client/src/components/TimetableCalendarView.tsx:263-280 | The shown week has at most five days, ascending, each a weekday of the range. |
| CalendarView.NatText | client/src/components/TimetableCalendarView.tsx:234 | A level's text is non-empty decimal digits. |
| CalendarView.NatTextInjective | client/src/components/TimetableCalendarView.tsx:234 | Different levels print differently. |
| CalendarView.ColorKeyInjective | client/src/components/TimetableCalendarView.tsx:234 | Different department-levels have different cache keys. |
| CalendarView.ColorCache.constructor | client/src/components/TimetableCalendarView.tsx:57 | The cache starts empty. |
| CalendarView.ColorCache.ColorFor | client/src/components/TimetableCalendarView.tsx:232-249 | The colour is written only when the key has none, and the cached colour is returned. |
| CalendarView.ColorMemo | client/src/components/TimetableCalendarView.tsx:232-249 | A cached colour is returned unchanged, and a second lookup changes nothing whatever colour it would compute. Every other department-level's colour is kept. |
| TimetableView.ConvertToScheduledCourses | client/src/pages/admin/TimetableView.tsx:169-176 | One calendar entry per exam slot, in order, from which the exam slot is recovered unchanged. |
| TimetableView.ConvertedSlotExams | client/src/pages/admin/TimetableView.tsx:169-176 | A converted entry is on a day and slot exactly when the exam slot it came from is. |
| TimetableView.FilterExamSlots | client/src/pages/admin/TimetableView.tsx:203-213 | A slot is kept exactly when the department filter is empty or matches and the level filter is empty or matches. |
| TimetableView.FilterExamSlotsProps | client/src/pages/admin/TimetableView.tsx:203-213 | With no filter every slot is kept. Filtering keeps the order (it distributes over concatenation) and is idempotent. |
| TimetableView.CollectByDate | client/src/pages/admin/TimetableView.tsx:178-186 | Each date with an exam gets its slots in list order, and the keys are listed once each. |
| TimetableView.GroupExamSlotsByDate | client/src/pages/admin/TimetableView.tsx:178-199 | One non-empty group per date with an exam, in strictly increasing date order. Each group holds its date's slots sorted by time-slot rank. The student page's grouping, client/src/pages/student/Timetable.tsx:142-163, is the same code. |
| TimetableView.SortedDates | client/src/pages/admin/TimetableView.tsx:189-190 | Entries with distinct dates, sorted by date, have strictly increasing dates and are a permutation of the entries. |
| TimetableView.GroupedSlots | client/src/pages/admin/TimetableView.tsx:178-199 | Every slot is in the group of its date and in no other. Groups are in time-slot order, hold exactly their date's slots as often as given, and keep same-slot exams in list order. |
| StudentTimetable.MyExamsAsFiltered | client/src/pages/student/Timetable.tsx:262-267 | The rows marked as the student's are exactly the slots the admin filter shows for the student's department and level. With no student, no row is marked. |

## Left out

- Database access, the transaction that stores the created slots, and HTTP plumbing (status codes, JSON bodies) are not modelled. Stored exams, courses and the timetable row are inputs. The response is a returned value.
- Endpoint.AutoScheduleExams and Endpoint.AutoScheduleExamsAsWritten: the request validation at server/src/controllers/timetable.ts:561-571 sends a 400 without returning. The model starts after it, taking the validated departments, levels and courses as given.
- Dates and timezones: `toISOString`, `toDateString`, `getDay` and local year/month/day comparisons are all taken as the same integer day. A date near midnight that differs between UTC and local time is not modelled.
- Math.random: the course and slot shuffles are nondeterministic choices, not a distribution.
- Keys.RebuildKey: department ids are taken to be decimal numerals (the parse round-trip is proved for those). A non-numeric id, which `parseInt` turns into `NaN`, is not modelled.
- The colour hash of `getDepartmentLevelColor` (client/src/components/TimetableCalendarView.tsx:238-245) is left out. It uses 32-bit shifts on JavaScript numbers, and the colour a key first receives is a parameter.
- The fallback current week of `weekDays` (client/src/components/TimetableCalendarView.tsx:281-299) is left out: it reads the wall clock.
- Cells.CellConflict: on the calendar cell, a null entry in the day's count would throw in the source. The model skips such entries.
- Cells.SlotExams: the scheduling page's slot receives no null entries, so its list holds exam records rather than optional ones.
- Sorting.SortByProps: `Array.prototype.sort` is modelled as a stable insertion sort on values. The sort's in-place update of the array is not modelled.
- `handleRemoveCourse` and `handleAutoSchedule` of the scheduling page are not modelled. They are network calls followed by the same stale conflict recomputation as `handleCourseDrop`.
- The rest-day rule of the scheduler's header comment is not proved as an invariant. A break is used once (Placement.RestDayIsSingleUse), so the rule does not hold as stated.
- React rendering, hooks, drag-and-drop wiring, snackbars and the other pages are not modelled.

## Findings

| source | as written | input that shows it | evidently intended | confidence | as-written member | corrected member |
|---|---|---|---|---|---|---|
| server/src/controllers/timetable.ts:686,776-777,845 | One `unscheduled` list serves all groups. Each group's fallback pass retries every leftover so far, under that group's key and counters. | Group A already has three exams on day 0 and one course left over. Group B has one exam that day. B's fallback places A's course on day 0, A's fourth exam there. | Each group's fallback retries only its own leftovers, so the per-day limit holds for the course's own department-level. | not executed | Endpoint.AutoScheduleExamsAsWritten, Endpoint.SharedLeftoverOverfills | Endpoint.AutoScheduleExams, AutoSchedule.Schedule |
| client/src/pages/admin/TimetableScheduler.tsx:688-698 | After a drop, `updateConflictStatus` runs in the same handler as `setScheduledCourses`, so it reads the list from before the drop. | A department has two level-100 exams on a Monday. A third is dropped in `SLOT_1_3`, and the verdict is a warning. Three exams now share the day, but the flag stays false and publishing is allowed. | The flag is computed from the list that includes the new exam. | not executed | SchedulerPage.StaleConflictFlag | SchedulerPage.Page.HandleCourseDrop |
