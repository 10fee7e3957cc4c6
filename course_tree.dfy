/**
 * The course panel of the scheduling page (`buildCourseTree`,
 * client/src/pages/admin/TimetableScheduler.tsx 278-349): courses grouped by faculty, then
 * department, then level.
 */
module CourseTree {
  import opened Common
  import opened ClientTypes

  datatype LevelNode = LevelNode(level: nat, courses: seq<Course>)
  datatype DeptNode = DeptNode(name: string, departmentId: string, levels: seq<LevelNode>)
  datatype FacultyNode = FacultyNode(faculty: string, facultyId: string, departments: seq<DeptNode>)

  function InDept(deptId: string): Course -> bool {
    (c: Course) => c.deptId == deptId
  }

  function AtLevel(level: nat): Course -> bool {
    (c: Course) => c.level == level
  }

  function OfFaculty(facultyId: string): Department -> bool {
    (d: Department) => d.facultyId == facultyId
  }

  /** `cs.map(c => c.level)` */
  function LevelList(cs: seq<Course>): (r: seq<nat>)
    ensures |r| == |cs| && forall i :: 0 <= i < |cs| ==> r[i] == cs[i].level
  {
    seq(|cs|, i requires 0 <= i < |cs| => cs[i].level)
  }

  /** `levels.map(level => ({ level, courses: deptCourses.filter(c => c.level === level) }))` */
  function LevelNodes(levels: seq<nat>, deptCourses: seq<Course>): (r: seq<LevelNode>)
    ensures |r| == |levels|
    ensures forall k :: 0 <= k < |levels| ==> r[k] == LevelNode(levels[k], Filter(deptCourses, AtLevel(levels[k])))
  {
    seq(|levels|, k requires 0 <= k < |levels| => LevelNode(levels[k], Filter(deptCourses, AtLevel(levels[k]))))
  }

  /** The node of a department with courses: one level node per level, in order of first appearance. */
  function DeptNodeOf(d: Department, courses: seq<Course>): DeptNode {
    var deptCourses := Filter(courses, InDept(d.id));
    DeptNode(d.name, d.id, LevelNodes(Distinct(LevelList(deptCourses)), deptCourses))
  }

  /** The department nodes of `ds`, skipping the departments without courses. */
  function DeptNodes(ds: seq<Department>, courses: seq<Course>): seq<DeptNode> {
    if ds == [] then []
    else
      var d := ds[|ds| - 1];
      DeptNodes(ds[..|ds| - 1], courses) + if Filter(courses, InDept(d.id)) != [] then [DeptNodeOf(d, courses)] else []
  }

  /** The faculty nodes of `fs`, skipping the faculties none of whose departments has courses. */
  function TreeOf(fs: seq<Faculty>, departments: seq<Department>, courses: seq<Course>): seq<FacultyNode> {
    if fs == [] then []
    else
      var f := fs[|fs| - 1];
      var nodes := FacultyDeptNodes(f, departments, courses);
      TreeOf(fs[..|fs| - 1], departments, courses) + if nodes != [] then [FacultyNode(f.name, f.id, nodes)] else []
  }

  /** The department nodes of faculty `f`. */
  function FacultyDeptNodes(f: Faculty, departments: seq<Department>, courses: seq<Course>): seq<DeptNode> {
    DeptNodes(Filter(departments, OfFaculty(f.id)), courses)
  }

  /** `buildCourseTree`: an empty list of courses, departments or faculties gives an empty tree. */
  method BuildCourseTree(faculties: seq<Faculty>, departments: seq<Department>, courses: seq<Course>)
    returns (tree: seq<FacultyNode>)
    ensures courses == [] || departments == [] || faculties == [] ==> tree == []
    ensures courses != [] && departments != [] && faculties != [] ==> tree == TreeOf(faculties, departments, courses)
  {
    if |courses| == 0 || |departments| == 0 || |faculties| == 0 {
      return [];
    }
    tree := [];
    for i := 0 to |faculties|
      invariant tree == TreeOf(faculties[..i], departments, courses)
    {
      var faculty := faculties[i];
      var facultyDepartments := Filter(departments, OfFaculty(faculty.id));
      assert faculties[..i + 1][..i] == faculties[..i];
      if |facultyDepartments| > 0 {
        var nodes := DepartmentNodes(facultyDepartments, courses);
        if |nodes| > 0 {
          tree := tree + [FacultyNode(faculty.name, faculty.id, nodes)];
        }
      }
    }
    assert faculties[..|faculties|] == faculties;
  }

  /** The inner loop of `buildCourseTree`: the nodes of one faculty's departments. */
  method DepartmentNodes(facultyDepartments: seq<Department>, courses: seq<Course>) returns (nodes: seq<DeptNode>)
    ensures nodes == DeptNodes(facultyDepartments, courses)
  {
    nodes := [];
    for j := 0 to |facultyDepartments|
      invariant nodes == DeptNodes(facultyDepartments[..j], courses)
    {
      var dept := facultyDepartments[j];
      var deptCourses := Filter(courses, InDept(dept.id));
      assert facultyDepartments[..j + 1][..j] == facultyDepartments[..j];
      if |deptCourses| > 0 {
        var levels := Distinct(LevelList(deptCourses));
        nodes := nodes + [DeptNode(dept.name, dept.id, LevelNodes(levels, deptCourses))];
      }
    }
    assert facultyDepartments[..|facultyDepartments|] == facultyDepartments;
  }

  /**
   * A department node holds, under each of its levels, exactly the courses of that department
   * and level; its levels are distinct and none is empty; and every course of the department
   * is under one of them.
   */
  ghost predicate GoodDeptNode(dn: DeptNode, courses: seq<Course>) {
    && (forall ln, c :: ln in dn.levels ==>
          (c in ln.courses <==> c in courses && c.deptId == dn.departmentId && c.level == ln.level))
    && (forall k1, k2 :: 0 <= k1 < k2 < |dn.levels| ==> dn.levels[k1].level != dn.levels[k2].level)
    && (forall ln :: ln in dn.levels ==> ln.courses != [])
    && (forall c :: c in courses && c.deptId == dn.departmentId ==> exists ln :: ln in dn.levels && c in ln.courses)
  }

  lemma {:induction false} DeptNodeOfGood(d: Department, courses: seq<Course>)
    ensures GoodDeptNode(DeptNodeOf(d, courses), courses)
    ensures DeptNodeOf(d, courses).departmentId == d.id
  {
    var dn := DeptNodeOf(d, courses);
    LevelNodesNonEmpty(d, courses);
    LevelNodesCover(d, courses);
    forall ln, c | ln in dn.levels
      ensures c in ln.courses <==> c in courses && c.deptId == dn.departmentId && c.level == ln.level
    {
      var k :| 0 <= k < |dn.levels| && dn.levels[k] == ln;
    }
  }

  /** Every level of a department node comes from one of its courses, so no level node is empty. */
  lemma {:induction false} LevelNodesNonEmpty(d: Department, courses: seq<Course>)
    ensures forall ln :: ln in DeptNodeOf(d, courses).levels ==> ln.courses != []
  {
    var dn := DeptNodeOf(d, courses);
    var deptCourses := Filter(courses, InDept(d.id));
    var all := LevelList(deptCourses);
    var levels := Distinct(all);
    forall ln | ln in dn.levels
      ensures ln.courses != []
    {
      var k :| 0 <= k < |dn.levels| && dn.levels[k] == ln;
      assert levels[k] in all;
      var i :| 0 <= i < |all| && all[i] == levels[k];
      assert deptCourses[i] in deptCourses;
      assert deptCourses[i] in ln.courses;
    }
  }

  /** Every course of the department is under the level node of its level. */
  lemma {:induction false} LevelNodesCover(d: Department, courses: seq<Course>)
    ensures forall c :: c in courses && c.deptId == d.id ==>
      exists ln :: ln in DeptNodeOf(d, courses).levels && c in ln.courses
  {
    var dn := DeptNodeOf(d, courses);
    var deptCourses := Filter(courses, InDept(d.id));
    var all := LevelList(deptCourses);
    var levels := Distinct(all);
    forall c | c in courses && c.deptId == d.id
      ensures exists ln :: ln in dn.levels && c in ln.courses
    {
      assert c in deptCourses;
      var i :| 0 <= i < |deptCourses| && deptCourses[i] == c;
      assert all[i] == c.level;
      assert c.level in levels;
      var k :| 0 <= k < |levels| && levels[k] == c.level;
      assert c in dn.levels[k].courses;
    }
  }

  /** Each node of `DeptNodes(ds, courses)` is the node of a department of `ds` that has courses. */
  lemma {:induction false} DeptNodesSound(ds: seq<Department>, courses: seq<Course>)
    ensures forall dn :: dn in DeptNodes(ds, courses) ==>
      exists d :: d in ds && Filter(courses, InDept(d.id)) != [] && dn == DeptNodeOf(d, courses)
  {
    if ds != [] {
      var n := |ds| - 1;
      DeptNodesSound(ds[..n], courses);
      assert ds == ds[..n] + [ds[n]];
    }
  }

  /** Each department of `ds` that has courses has its node in `DeptNodes(ds, courses)`. */
  lemma {:induction false} DeptNodesComplete(ds: seq<Department>, courses: seq<Course>)
    ensures forall d :: d in ds && Filter(courses, InDept(d.id)) != [] ==> DeptNodeOf(d, courses) in DeptNodes(ds, courses)
  {
    if ds != [] {
      var n := |ds| - 1;
      DeptNodesComplete(ds[..n], courses);
      assert ds == ds[..n] + [ds[n]];
    }
  }

  /** Each faculty node is the node of a faculty of `fs` that has department nodes. */
  lemma {:induction false} TreeOfSound(fs: seq<Faculty>, departments: seq<Department>, courses: seq<Course>)
    ensures forall fn :: fn in TreeOf(fs, departments, courses) ==>
      exists f :: f in fs && FacultyDeptNodes(f, departments, courses) != [] &&
        fn == FacultyNode(f.name, f.id, FacultyDeptNodes(f, departments, courses))
  {
    if fs != [] {
      var n := |fs| - 1;
      TreeOfSound(fs[..n], departments, courses);
      assert fs == fs[..n] + [fs[n]];
    }
  }

  /** Each faculty of `fs` that has department nodes has its node in the tree. */
  lemma {:induction false} TreeOfComplete(fs: seq<Faculty>, departments: seq<Department>, courses: seq<Course>)
    ensures forall f :: f in fs && FacultyDeptNodes(f, departments, courses) != [] ==>
      FacultyNode(f.name, f.id, FacultyDeptNodes(f, departments, courses)) in TreeOf(fs, departments, courses)
  {
    if fs != [] {
      var n := |fs| - 1;
      TreeOfComplete(fs[..n], departments, courses);
      assert fs == fs[..n] + [fs[n]];
    }
  }

  /** Course `c` sits in level node `ln` of department node `dn` of faculty node `fn` of the tree. */
  ghost predicate InTree(tree: seq<FacultyNode>, fn: FacultyNode, dn: DeptNode, ln: LevelNode, c: Course) {
    fn in tree && dn in fn.departments && ln in dn.levels && c in ln.courses
  }

  /** The department of course `c` is a listed department of a listed faculty. */
  ghost predicate Reachable(faculties: seq<Faculty>, departments: seq<Department>, c: Course) {
    exists f, d :: f in faculties && d in departments && d.facultyId == f.id && c.deptId == d.id
  }

  /** The faculty and department a bucket of the tree was built from. */
  lemma BucketOrigin(faculties: seq<Faculty>, departments: seq<Department>, courses: seq<Course>,
                     fn: FacultyNode, dn: DeptNode, ln: LevelNode, c: Course) returns (f: Faculty, d: Department)
    requires InTree(TreeOf(faculties, departments, courses), fn, dn, ln, c)
    ensures f in faculties && d in departments && d.facultyId == f.id
    ensures fn == FacultyNode(f.name, f.id, FacultyDeptNodes(f, departments, courses))
    ensures dn == DeptNodeOf(d, courses)
  {
    TreeOfSound(faculties, departments, courses);
    f :| f in faculties && FacultyDeptNodes(f, departments, courses) != [] &&
      fn == FacultyNode(f.name, f.id, FacultyDeptNodes(f, departments, courses));
    var ds := Filter(departments, OfFaculty(f.id));
    DeptNodesSound(ds, courses);
    d :| d in ds && Filter(courses, InDept(d.id)) != [] && dn == DeptNodeOf(d, courses);
  }

  /** A course in the tree is one of the courses, of a reachable department, under its own department and level. */
  lemma BucketSound(faculties: seq<Faculty>, departments: seq<Department>, courses: seq<Course>,
                    fn: FacultyNode, dn: DeptNode, ln: LevelNode, c: Course)
    requires InTree(TreeOf(faculties, departments, courses), fn, dn, ln, c)
    ensures c in courses && Reachable(faculties, departments, c)
    ensures c.deptId == dn.departmentId && c.level == ln.level
  {
    var f, d := BucketOrigin(faculties, departments, courses, fn, dn, ln, c);
    DeptNodeOfGood(d, courses);
  }

  ghost predicate UniqueFacultyIds(faculties: seq<Faculty>) {
    forall f1, f2 :: f1 in faculties && f2 in faculties && f1.id == f2.id ==> f1 == f2
  }

  ghost predicate UniqueDepartmentIds(departments: seq<Department>) {
    forall d1, d2 :: d1 in departments && d2 in departments && d1.id == d2.id ==> d1 == d2
  }

  /** With ids that identify their records, a course sits in one bucket only. */
  lemma BucketUnique(faculties: seq<Faculty>, departments: seq<Department>, courses: seq<Course>, c: Course,
                     fn1: FacultyNode, dn1: DeptNode, ln1: LevelNode, fn2: FacultyNode, dn2: DeptNode, ln2: LevelNode)
    requires UniqueFacultyIds(faculties) && UniqueDepartmentIds(departments)
    requires InTree(TreeOf(faculties, departments, courses), fn1, dn1, ln1, c)
    requires InTree(TreeOf(faculties, departments, courses), fn2, dn2, ln2, c)
    ensures fn1 == fn2 && dn1 == dn2 && ln1 == ln2
  {
    var f1, d1 := BucketOrigin(faculties, departments, courses, fn1, dn1, ln1, c);
    var f2, d2 := BucketOrigin(faculties, departments, courses, fn2, dn2, ln2, c);
    DeptNodeOfGood(d1, courses);
    DeptNodeOfGood(d2, courses);
    assert d1 == d2;
    assert f1 == f2;
    var k1 :| 0 <= k1 < |dn1.levels| && dn1.levels[k1] == ln1;
    var k2 :| 0 <= k2 < |dn1.levels| && dn1.levels[k2] == ln2;
    assert dn1.levels[k1].level == dn1.levels[k2].level;
  }

  /** Every course of a reachable department is somewhere in the tree. */
  lemma BucketComplete(faculties: seq<Faculty>, departments: seq<Department>, courses: seq<Course>, c: Course)
    requires c in courses && Reachable(faculties, departments, c)
    ensures exists fn, dn, ln :: InTree(TreeOf(faculties, departments, courses), fn, dn, ln, c)
  {
    var f, d :| f in faculties && d in departments && d.facultyId == f.id && c.deptId == d.id;
    var ds := Filter(departments, OfFaculty(f.id));
    assert d in ds;
    assert c in Filter(courses, InDept(d.id));
    DeptNodesComplete(ds, courses);
    var dn := DeptNodeOf(d, courses);
    assert dn in FacultyDeptNodes(f, departments, courses);
    TreeOfComplete(faculties, departments, courses);
    var fn := FacultyNode(f.name, f.id, FacultyDeptNodes(f, departments, courses));
    DeptNodeOfGood(d, courses);
    var ln :| ln in dn.levels && c in ln.courses;
    assert InTree(TreeOf(faculties, departments, courses), fn, dn, ln, c);
  }

  /**
   * The tree holds a course exactly when the course's department belongs to a listed faculty,
   * and only under its own department and its own level.
   */
  lemma CourseTreePlacement(faculties: seq<Faculty>, departments: seq<Department>, courses: seq<Course>, c: Course)
    ensures (exists fn, dn, ln :: InTree(TreeOf(faculties, departments, courses), fn, dn, ln, c)) <==>
      c in courses && Reachable(faculties, departments, c)
    ensures forall fn, dn, ln :: InTree(TreeOf(faculties, departments, courses), fn, dn, ln, c) ==>
      c.deptId == dn.departmentId && c.level == ln.level
  {
    forall fn, dn, ln | InTree(TreeOf(faculties, departments, courses), fn, dn, ln, c)
      ensures c in courses && Reachable(faculties, departments, c)
      ensures c.deptId == dn.departmentId && c.level == ln.level
    {
      BucketSound(faculties, departments, courses, fn, dn, ln, c);
    }
    if c in courses && Reachable(faculties, departments, c) {
      BucketComplete(faculties, departments, courses, c);
    }
  }

  /** The panel shows no empty group: every faculty has a department, every department a level, every level a course. */
  lemma NoEmptyNodes(faculties: seq<Faculty>, departments: seq<Department>, courses: seq<Course>)
    ensures forall fn :: fn in TreeOf(faculties, departments, courses) ==>
      && fn.departments != []
      && forall dn :: dn in fn.departments ==> dn.levels != [] && forall ln :: ln in dn.levels ==> ln.courses != []
  {
    TreeOfSound(faculties, departments, courses);
    forall fn, dn | fn in TreeOf(faculties, departments, courses) && dn in fn.departments
      ensures dn.levels != [] && forall ln :: ln in dn.levels ==> ln.courses != []
    {
      var f :| f in faculties && FacultyDeptNodes(f, departments, courses) != [] &&
        fn == FacultyNode(f.name, f.id, FacultyDeptNodes(f, departments, courses));
      DeptNodesSound(Filter(departments, OfFaculty(f.id)), courses);
      var d :| d in Filter(departments, OfFaculty(f.id)) && Filter(courses, InDept(d.id)) != [] && dn == DeptNodeOf(d, courses);
      var c := Filter(courses, InDept(d.id))[0];
      assert c in Filter(courses, InDept(d.id));
      LevelNodesCover(d, courses);
      LevelNodesNonEmpty(d, courses);
    }
  }
}
