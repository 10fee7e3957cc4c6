/**
 * The student's timetable page (client/src/pages/student/Timetable.tsx): the exam slots are
 * grouped by date as on the admin page, and the rows of the student's own department and level
 * are marked as theirs.
 */
module StudentTimetable {
  import opened Common
  import opened ClientTypes
  import TimetableView

  /** The signed-in student's record, as the page receives it. */
  datatype Student = Student(id: string, name: string, level: nat, departmentId: string)

  /** The `my-exam` row class: there is a student, and the slot's course is of their department and level. */
  predicate IsMyExam(student: Option<Student>, slot: ExamSlot) {
    && student.Some?
    && slot.course.deptId == student.value.departmentId
    && slot.course.level == student.value.level
  }

  /**
   * The marked rows are exactly the slots the admin page shows when filtered by the student's
   * department and level; with no student loaded no row is marked.
   */
  lemma {:induction false} MyExamsAsFiltered(student: Student, examSlots: seq<ExamSlot>, slot: ExamSlot)
    requires student.departmentId != "" && student.level != 0
    ensures slot in TimetableView.FilterExamSlots(examSlots, student.departmentId, student.level) <==>
      slot in examSlots && IsMyExam(Some(student), slot)
    ensures !IsMyExam(None, slot)
  {
  }
}
