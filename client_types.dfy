/**
 * The records the client pages work on, as the server sends them: faculties, departments,
 * courses with their department, and the exam slots placed on the calendar.
 */
module ClientTypes {
  import opened Common
  import opened Calendar

  datatype Faculty = Faculty(id: string, name: string)

  /** A department and the id of the faculty it belongs to (`department.faculty.id`). */
  datatype Department = Department(id: string, name: string, facultyId: string)

  /** A course with its department's id (`course.department.id`) and its level. */
  datatype Course = Course(id: string, code: string, title: string, deptId: string, level: nat)

  /** `ScheduledCourse`: an exam slot as the calendar shows it. */
  datatype Scheduled = Scheduled(id: string, course: Course, day: Day, timeSlot: string)

  /**
   * An entry of a `scheduledCourses` list where the page guards against bad entries:
   * `None` is an entry that is null or has no course or no day.
   */
  type Entry = Option<Scheduled>

  /** `ExamSlot` as the timetable pages receive it. */
  datatype ExamSlot = ExamSlot(id: string, date: Day, timeSlot: string, course: Course)

  /** The department-level a course belongs to, `${departmentId}-${level}`. */
  datatype DeptLevelKey = DeptLevelKey(deptId: string, level: nat)

  function KeyOf(c: Course): DeptLevelKey {
    DeptLevelKey(c.deptId, c.level)
  }
}
