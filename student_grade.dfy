/** `Student.Grade()` (Day-1 Task-2): a letter grade from marks by a descending threshold
    chain. The C and D bands use strict comparisons, so exactly 60 is a D and exactly 50
    fails. */
module StudentGrades {

  /** The grade for the marks: one of six, and a pass exactly above 50. */
  function Grade(marks: real): (r: string)
    ensures r in {"A+", "A", "B", "C", "D", "Fail"}
    ensures r != "Fail" <==> marks > 50.0
  {
    if marks >= 90.0 then "A+"
    else if marks >= 80.0 then "A"
    else if marks >= 70.0 then "B"
    else if marks > 60.0 then "C"
    else if marks > 50.0 then "D"
    else "Fail"
  }

  /** Position of a grade on the scale, Fail lowest. */
  function Rank(grade: string): int
  {
    if grade == "A+" then 5
    else if grade == "A" then 4
    else if grade == "B" then 3
    else if grade == "C" then 2
    else if grade == "D" then 1
    else 0
  }

  /** Each grade's band of marks, both edges included or excluded as the source has them. */
  lemma GradeBands(marks: real)
    ensures Grade(marks) == "A+" <==> marks >= 90.0
    ensures Grade(marks) == "A" <==> 80.0 <= marks < 90.0
    ensures Grade(marks) == "B" <==> 70.0 <= marks < 80.0
    ensures Grade(marks) == "C" <==> 60.0 < marks < 70.0
    ensures Grade(marks) == "D" <==> 50.0 < marks <= 60.0
    ensures Grade(marks) == "Fail" <==> marks <= 50.0
  {
  }

  /** The boundary marks: 60 is a D, not a C, and 50 fails. */
  lemma StrictBoundaries()
    ensures Grade(60.0) == "D" && Grade(60.5) == "C" && Grade(50.0) == "Fail" && Grade(50.5) == "D"
    ensures Grade(70.0) == "B" && Grade(80.0) == "A" && Grade(90.0) == "A+"
  {
  }

  /** More marks never give a lower grade. */
  lemma GradeMonotone(lower: real, higher: real)
    requires lower <= higher
    ensures Rank(Grade(lower)) <= Rank(Grade(higher))
  {
  }

  /** The three sample students: 87 is an A, 77 a B, 93 an A+. */
  lemma SampleGrades()
    ensures Grade(87.0) == "A" && Grade(77.0) == "B" && Grade(93.0) == "A+"
  {
  }
}
