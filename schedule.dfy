/**
 * The auto-scheduler end to end (server/src/controllers/timetable.ts 553-899): grouping the
 * courses by department and level, running both passes group by group over one shared state,
 * and assembling the response. `ScheduleAsWritten` keeps the source's shared unscheduled list;
 * `Schedule` retries each group's own leftovers only and is the one `AutoSchedule` uses.
 */
module AutoSchedule {
  import opened Common
  import opened Calendar
  import opened Keys
  import opened Occupancy
  import opened Placement

  function KeysOf(courses: seq<Course>): (ks: seq<DeptLevel>)
    ensures |ks| == |courses| && forall i :: 0 <= i < |courses| ==> ks[i] == CourseKey(courses[i])
  {
    if courses == [] then [] else KeysOf(courses[..|courses| - 1]) + [CourseKey(courses[|courses| - 1])]
  }

  /** The courses filed under `k`, in input order. */
  function Members(courses: seq<Course>, k: DeptLevel): (r: seq<Course>)
    ensures forall c :: c in r ==> c in courses && CourseKey(c) == k
  {
    if courses == [] then []
    else
      var c := courses[|courses| - 1];
      Members(courses[..|courses| - 1], k) + if CourseKey(c) == k then [c] else []
  }

  lemma {:induction false} MembersCount(courses: seq<Course>, k: DeptLevel, x: Course)
    ensures multiset(Members(courses, k))[x] == if CourseKey(x) == k then multiset(courses)[x] else 0
  {
    if courses != [] {
      var init, c := courses[..|courses| - 1], courses[|courses| - 1];
      MembersCount(init, k, x);
      assert courses == init + [c];
    }
  }

  /** Filing one course: append it to its key's entry, creating the entry (and the key) when new. */
  function File(grouping: (seq<DeptLevel>, map<DeptLevel, seq<Course>>), c: Course): (seq<DeptLevel>, map<DeptLevel, seq<Course>>) {
    var key := CourseKey(c);
    if key in grouping.1 then (grouping.0, grouping.1[key := grouping.1[key] + [c]])
    else (grouping.0 + [key], grouping.1[key := [c]])
  }

  /** The Map built at lines 656-663, as the pair of its keys in insertion order and its entries. */
  function Grouped(courses: seq<Course>): (seq<DeptLevel>, map<DeptLevel, seq<Course>>) {
    if courses == [] then ([], map[]) else File(Grouped(courses[..|courses| - 1]), courses[|courses| - 1])
  }

  lemma MembersSnoc(courses: seq<Course>, c: Course, k: DeptLevel)
    ensures Members(courses + [c], k) == Members(courses, k) + if CourseKey(c) == k then [c] else []
  {
    assert (courses + [c])[..|courses|] == courses;
  }

  /** A key no course has files nothing. */
  lemma {:induction false} MembersAbsent(courses: seq<Course>, k: DeptLevel)
    requires k !in KeysOf(courses)
    ensures Members(courses, k) == []
  {
    if courses != [] {
      var init := courses[..|courses| - 1];
      assert KeysOf(init) == KeysOf(courses)[..|courses| - 1];
      MembersAbsent(init, k);
      assert KeysOf(courses)[|courses| - 1] == CourseKey(courses[|courses| - 1]);
    }
  }

  /** The grouping lists each key once, in order of first appearance, and has an entry for each. */
  lemma {:induction false} GroupedKeys(courses: seq<Course>)
    ensures Grouped(courses).0 == Distinct(KeysOf(courses))
    ensures forall k :: k in Grouped(courses).1 <==> k in Grouped(courses).0
  {
    if courses != [] {
      var init, c := courses[..|courses| - 1], courses[|courses| - 1];
      GroupedKeys(init);
      assert courses == init + [c];
      DistinctSnoc(KeysOf(init), CourseKey(c));
      assert KeysOf(courses) == KeysOf(init) + [CourseKey(c)];
    }
  }

  /** The grouping files under each key exactly that key's courses, in input order. */
  lemma {:induction false} GroupedEntries(courses: seq<Course>)
    ensures forall k :: k in Grouped(courses).1 ==> Grouped(courses).1[k] == Members(courses, k)
  {
    if courses != [] {
      var init, c := courses[..|courses| - 1], courses[|courses| - 1];
      GroupedEntries(init);
      assert courses == init + [c];
      var g, g' := Grouped(init), Grouped(courses);
      assert g' == File(g, c);
      forall k | k in g'.1
        ensures g'.1[k] == Members(courses, k)
      {
        MembersSnoc(init, c, k);
        if k !in g.1 {
          GroupedKeys(init);
          MembersAbsent(init, k);
        }
      }
    }
  }

  /** Lines 656-663: file every course under its department-level key. */
  method GroupCourses(courses: seq<Course>) returns (keys: seq<DeptLevel>, groups: map<DeptLevel, seq<Course>>)
    ensures (keys, groups) == Grouped(courses)
  {
    keys, groups := [], map[];
    for i := 0 to |courses|
      invariant (keys, groups) == Grouped(courses[..i])
    {
      var c := courses[i];
      var key := CourseKey(c);
      ghost var before := (keys, groups);
      if key !in groups {
        groups := groups[key := []];
        keys := keys + [key];
      }
      groups := groups[key := groups[key] + [c]];
      assert groups == File(before, c).1 by {
        if key !in before.1 {
          var empty: seq<Course> := [];
          assert empty + [c] == [c];
          assert before.1[key := empty][key := empty + [c]] == before.1[key := [c]];
        }
      }
      PrefixSnoc(courses, i);
      assert courses[..i + 1][..i] == courses[..i];
    }
    assert courses[..|courses|] == courses;
  }

  /** The courses of the groups filed under `ks`, together. */
  ghost function SumMembers(ks: seq<DeptLevel>, courses: seq<Course>): multiset<Course> {
    if ks == [] then multiset{} else SumMembers(ks[..|ks| - 1], courses) + multiset(Members(courses, ks[|ks| - 1]))
  }

  lemma {:induction false} SumMembersCount(ks: seq<DeptLevel>, courses: seq<Course>, x: Course)
    requires NoDuplicates(ks)
    ensures SumMembers(ks, courses)[x] == if CourseKey(x) in ks then multiset(courses)[x] else 0
  {
    if ks != [] {
      var init := ks[..|ks| - 1];
      assert NoDuplicates(init);
      SumMembersCount(init, courses, x);
      MembersCount(courses, ks[|ks| - 1], x);
      assert CourseKey(x) in ks <==> CourseKey(x) in init || CourseKey(x) == ks[|ks| - 1];
      assert forall j :: 0 <= j < |init| ==> init[j] == ks[j] && ks[j] != ks[|ks| - 1];
    }
  }

  /** The groups partition the courses: every course is in exactly one group, as often as it was given. */
  lemma GroupsPartition(courses: seq<Course>)
    ensures SumMembers(Distinct(KeysOf(courses)), courses) == multiset(courses)
  {
    var keys := Distinct(KeysOf(courses));
    forall x
      ensures SumMembers(keys, courses)[x] == multiset(courses)[x]
    {
      SumMembersCount(keys, courses, x);
      if x in courses {
        var i :| 0 <= i < |courses| && courses[i] == x;
        assert KeysOf(courses)[i] == CourseKey(x);
      }
    }
  }

  /** Every placement is charged to its own course's department-level key. */
  ghost predicate OwnKeys(ps: seq<Placement>) {
    forall j :: 0 <= j < |ps| ==> ps[j].group == CourseKey(ps[j].course)
  }

  /** The state the scheduler starts from (lines 617-686), which satisfies the invariant. */
  method InitialRun(days: seq<Day>, existing: seq<ExistingSlot>) returns (run: Run)
    ensures Tracks(existing, days, run)
    ensures run.scheduled == [] && run.unscheduled == []
  {
    var counts, used := BuildOccupancy(existing);
    var skip := InitialBlocks(days, counts);
    run := Run(counts, used, skip, [], []);
  }

  /** One more group's courses are one more term of the sum. */
  lemma SumMembersSnoc(keys: seq<DeptLevel>, courses: seq<Course>, i: nat)
    requires i < |keys|
    ensures SumMembers(keys[..i + 1], courses) == SumMembers(keys[..i], courses) + multiset(Members(courses, keys[i]))
  {
    PrefixSnoc(keys, i);
    assert keys[..i + 1][..i] == keys[..i];
  }

  /**
   * Lines 692-850 for one group as written: phase 1 over the group's courses, then phase 2
   * over the whole shared unscheduled list. Every course handed in is either placed or left
   * unscheduled.
   */
  method GroupPassesAsWritten(days: seq<Day>, key: DeptLevel, pool: seq<Course>, run: Run,
                              ghost existing: seq<ExistingSlot>) returns (run': Run)
    requires |days| > 0 && StrictlyIncreasing(days) && Tracks(existing, days, run)
    ensures Tracks(existing, days, run')
    ensures multiset(CoursesOf(run'.scheduled)) + multiset(run'.unscheduled)
         == multiset(CoursesOf(run.scheduled)) + multiset(run.unscheduled) + multiset(pool)
  {
    run' := RoundRobinPass(days, key, pool, run, existing);
    run' := FallbackPass(days, key, run', existing);
  }

  /**
   * Lines 692-850 as written: the groups, in the Map's order, run one after another over one
   * state; every course of every group handed in is placed or left unscheduled.
   */
  method RunGroupsAsWritten(days: seq<Day>, existing: seq<ExistingSlot>, courses: seq<Course>,
                            keys: seq<DeptLevel>, groups: map<DeptLevel, seq<Course>>, run0: Run)
    returns (run: Run)
    requires |days| > 0 && StrictlyIncreasing(days) && Tracks(existing, days, run0)
    requires run0.scheduled == [] && run0.unscheduled == []
    requires forall i :: 0 <= i < |keys| ==> keys[i] in groups && groups[keys[i]] == Members(courses, keys[i])
    ensures Tracks(existing, days, run)
    ensures multiset(CoursesOf(run.scheduled)) + multiset(run.unscheduled) == SumMembers(keys, courses)
  {
    run := run0;
    for i := 0 to |keys|
      invariant Tracks(existing, days, run)
      invariant multiset(CoursesOf(run.scheduled)) + multiset(run.unscheduled) == SumMembers(keys[..i], courses)
    {
      var key := RebuildKey(keys[i]);
      run := GroupPassesAsWritten(days, key, groups[keys[i]], run, existing);
      SumMembersSnoc(keys, courses, i);
    }
    assert keys[..|keys|] == keys;
  }

  /**
   * Lines 617-850 as written: build the occupancy and the initial blocks, group the courses,
   * and run every group's two passes over one shared state. Every placement respects the
   * invariant of the state, and every course is placed or left unscheduled.
   */
  method ScheduleAsWritten(days: seq<Day>, existing: seq<ExistingSlot>, courses: seq<Course>) returns (run: Run)
    requires |days| > 0 && StrictlyIncreasing(days)
    ensures Tracks(existing, days, run)
    ensures multiset(CoursesOf(run.scheduled)) + multiset(run.unscheduled) == multiset(courses)
  {
    var start := InitialRun(days, existing);
    var keys, groups := GroupCourses(courses);
    GroupedKeys(courses);
    GroupedEntries(courses);
    run := RunGroupsAsWritten(days, existing, courses, keys, groups, start);
    GroupsPartition(courses);
  }

  /** A group's two passes, started with an empty unscheduled list, charge only its own courses. */
  lemma GroupChargesOwnKey(start: Run, mid: Run, fin: Run, key: DeptLevel, pool: seq<Course>)
    requires OwnKeys(start.scheduled) && start.unscheduled == []
    requires forall c :: c in pool ==> CourseKey(c) == key
    requires Grown(start, mid, key, pool) && Grown(mid.(unscheduled := []), fin, key, mid.unscheduled)
    ensures OwnKeys(fin.scheduled)
  {
    forall j | 0 <= j < |fin.scheduled|
      ensures fin.scheduled[j].group == CourseKey(fin.scheduled[j].course)
    {
      if j < |mid.scheduled| {
        assert fin.scheduled[j] == mid.scheduled[j];
        if j < |start.scheduled| {
          assert mid.scheduled[j] == start.scheduled[j];
        }
      } else {
        var c := fin.scheduled[j].course;
        var m :| 0 <= m < |mid.unscheduled| && mid.unscheduled[m] == c;
        assert c in pool;
      }
    }
  }

  /** Carrying the earlier leftovers ahead of this group's keeps every course accounted for. */
  lemma CarriedAccounts(run: Run, mid: Run, fin: Run, pool: seq<Course>)
    requires multiset(CoursesOf(mid.scheduled)) + multiset(mid.unscheduled)
          == multiset(CoursesOf(run.scheduled)) + multiset([]) + multiset(pool)
    requires multiset(CoursesOf(fin.scheduled)) + multiset(fin.unscheduled)
          == multiset(CoursesOf(mid.scheduled)) + multiset(mid.unscheduled)
    ensures multiset(CoursesOf(fin.scheduled)) + multiset(run.unscheduled + fin.unscheduled)
         == multiset(CoursesOf(run.scheduled)) + multiset(run.unscheduled) + multiset(pool)
  {
    var placed, carried, left := multiset(CoursesOf(fin.scheduled)), multiset(run.unscheduled), multiset(fin.unscheduled);
    assert multiset(run.unscheduled + fin.unscheduled) == carried + left;
    calc {
      placed + (carried + left);
      (placed + left) + carried;
      (multiset(CoursesOf(mid.scheduled)) + multiset(mid.unscheduled)) + carried;
      (multiset(CoursesOf(run.scheduled)) + multiset(pool)) + carried;
    }
  }

  /**
   * One group with phase 2 retrying only the leftovers of this group's own phase 1: what it
   * places is charged to its own courses' key, and earlier leftovers are carried over as they
   * were, ahead of this group's.
   */
  method GroupPasses(days: seq<Day>, key: DeptLevel, pool: seq<Course>, run: Run,
                     ghost existing: seq<ExistingSlot>) returns (run': Run)
    requires |days| > 0 && StrictlyIncreasing(days) && Tracks(existing, days, run)
    requires OwnKeys(run.scheduled) && forall c :: c in pool ==> CourseKey(c) == key
    ensures Tracks(existing, days, run') && OwnKeys(run'.scheduled)
    ensures run.unscheduled <= run'.unscheduled
    ensures multiset(CoursesOf(run'.scheduled)) + multiset(run'.unscheduled)
         == multiset(CoursesOf(run.scheduled)) + multiset(run.unscheduled) + multiset(pool)
  {
    var carried := run.unscheduled;
    var start := run.(unscheduled := []);
    TracksUnscheduled(existing, days, run, []);
    var mid := RoundRobinPass(days, key, pool, start, existing);
    var fin := FallbackPass(days, key, mid, existing);
    GroupChargesOwnKey(start, mid, fin, key, pool);
    run' := fin.(unscheduled := carried + fin.unscheduled);
    TracksUnscheduled(existing, days, fin, run'.unscheduled);
    CarriedAccounts(run, mid, fin, pool);
  }

  /** The group loop with every group's second pass retrying that group's own leftovers only. */
  method RunGroups(days: seq<Day>, existing: seq<ExistingSlot>, courses: seq<Course>,
                   keys: seq<DeptLevel>, groups: map<DeptLevel, seq<Course>>, run0: Run)
    returns (run: Run)
    requires |days| > 0 && StrictlyIncreasing(days) && Tracks(existing, days, run0)
    requires run0.scheduled == [] && run0.unscheduled == []
    requires forall i :: 0 <= i < |keys| ==> keys[i] in groups && groups[keys[i]] == Members(courses, keys[i])
    ensures Tracks(existing, days, run) && OwnKeys(run.scheduled)
    ensures multiset(CoursesOf(run.scheduled)) + multiset(run.unscheduled) == SumMembers(keys, courses)
  {
    run := run0;
    for i := 0 to |keys|
      invariant Tracks(existing, days, run) && OwnKeys(run.scheduled)
      invariant multiset(CoursesOf(run.scheduled)) + multiset(run.unscheduled) == SumMembers(keys[..i], courses)
    {
      var key := RebuildKey(keys[i]);
      run := GroupPasses(days, key, groups[keys[i]], run, existing);
      SumMembersSnoc(keys, courses, i);
    }
    assert keys[..|keys|] == keys;
  }

  /**
   * The scheduler with each group's second pass retrying only that group's own leftovers:
   * every placement is then charged to its own course's key, so the per-key limits hold for
   * the department-levels the courses really belong to.
   */
  method Schedule(days: seq<Day>, existing: seq<ExistingSlot>, courses: seq<Course>) returns (run: Run)
    requires |days| > 0 && StrictlyIncreasing(days)
    ensures Tracks(existing, days, run)
    ensures OwnKeys(run.scheduled)
    ensures multiset(CoursesOf(run.scheduled)) + multiset(run.unscheduled) == multiset(courses)
  {
    var start := InitialRun(days, existing);
    var keys, groups := GroupCourses(courses);
    GroupedKeys(courses);
    GroupedEntries(courses);
    run := RunGroups(days, existing, courses, keys, groups, start);
    GroupsPartition(courses);
  }
}
