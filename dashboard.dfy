/**
 * The attendance dashboard: a course is looked up in the mock attendance
 * data, and its overview shows the number of sessions, the average session
 * percentage rounded to a whole number, the number of students and one row
 * per student.  Percentages are whole numbers in the data, so the rounding
 * is done in integer arithmetic.
 */
module Dashboard {
  import opened Wrappers

  datatype Session = Session(date: string, present: nat, absent: nat, percentage: nat)

  datatype StudentSummary = StudentSummary(id: string, name: string, attendance: nat, percentage: nat)

  datatype Course = Course(name: string, sessions: seq<Session>, students: seq<StudentSummary>)

  /** The hard-coded attendance data, keyed by course code. */
  const MockAttendanceData: map<string, Course> := map[
    "CS101" := Course(
      "Introduction to Computer Science",
      [ Session("2025-05-19", 1, 0, 100),
        Session("2025-05-19", 1, 0, 100),
        Session("2025-05-19", 1, 0, 100) ],
      [ StudentSummary("ST001", "gaurav", 1, 100),
        StudentSummary("ST002", "Rohit Rana", 1, 100),
        StudentSummary("ST003", "Rohit Chauhan", 3, 100),
        StudentSummary("ST004", "Dharmender", 1, 100) ]),
    "CS201" := Course(
      "Data Structures",
      [ Session("2025-05-14", 25, 2, 93),
        Session("2025-05-16", 22, 5, 81),
        Session("2025-05-19", 24, 3, 89) ],
      [ StudentSummary("ST005", "David Wilson", 3, 100),
        StudentSummary("ST006", "Emma Davis", 2, 67),
        StudentSummary("ST007", "Michael Rodriguez", 3, 100),
        StudentSummary("ST008", "Sophia Lee", 3, 100) ])
  ]

  /**
   * The selected course's data: nothing while no course (or the empty,
   * falsy key) is selected or the key is unknown, else that key's entry.
   */
  function CourseData(selected: Option<string>): (r: Option<Course>)
    ensures r.Some? <==> selected.Some? && selected.value in MockAttendanceData
    ensures r.Some? ==> r.value == MockAttendanceData[selected.value]
  {
    match selected
    case None => None
    case Some(key) =>
      if key == "" then None
      else if key in MockAttendanceData then Some(MockAttendanceData[key])
      else None
  }

  /** The `reduce` of the session percentages, from the first session onwards. */
  function SumPercentages(sessions: seq<Session>): (sum: nat)
    ensures |sessions| == 0 ==> sum == 0
    ensures forall i :: 0 <= i < |sessions| ==> sessions[i].percentage <= sum
  {
    if |sessions| == 0 then 0
    else SumPercentages(sessions[..|sessions| - 1]) + sessions[|sessions| - 1].percentage
  }

  /**
   * `Math.round(num / den)` for non-negative integers: the nearest integer,
   * halves rounded up, i.e. r - 1/2 <= num/den < r + 1/2.
   */
  function RoundHalfUp(num: nat, den: nat): (r: nat)
    requires den > 0
    ensures (2 * r - 1) * den <= 2 * num < (2 * r + 1) * den
  {
    var q := (2 * num + den) / (2 * den);
    var rem := (2 * num + den) % (2 * den);
    assert 2 * num + den == q * (2 * den) + rem;
    assert (2 * q - 1) * den == q * (2 * den) - den;
    assert (2 * q + 1) * den == q * (2 * den) + den;
    q
  }

  /**
   * The Average Attendance card: with no sessions the division is 0 / 0 and
   * nothing numeric is shown; otherwise the rounded mean percentage.
   */
  function AverageAttendance(sessions: seq<Session>): (r: Option<nat>)
    ensures r.Some? <==> |sessions| > 0
    ensures r.Some? ==> (2 * r.value - 1) * |sessions| <= 2 * SumPercentages(sessions) < (2 * r.value + 1) * |sessions|
  {
    if |sessions| == 0 then None else Some(RoundHalfUp(SumPercentages(sessions), |sessions|))
  }

  /** The sum of n percentages each within [lo, hi] lies within [n * lo, n * hi]. */
  lemma {:induction false} SumBounds(sessions: seq<Session>, lo: nat, hi: nat)
    requires forall i :: 0 <= i < |sessions| ==> lo <= sessions[i].percentage <= hi
    ensures |sessions| * lo <= SumPercentages(sessions) <= |sessions| * hi
  {
    if |sessions| > 0 {
      var init := sessions[..|sessions| - 1];
      assert forall i :: 0 <= i < |init| ==> init[i] == sessions[i];
      SumBounds(init, lo, hi);
      assert |sessions| * lo == |init| * lo + lo;
      assert |sessions| * hi == |init| * hi + hi;
    }
  }

  /** The average lies between the smallest and the largest session percentage. */
  lemma AverageWithinBounds(sessions: seq<Session>, lo: nat, hi: nat)
    requires |sessions| > 0
    requires forall i :: 0 <= i < |sessions| ==> lo <= sessions[i].percentage <= hi
    ensures AverageAttendance(sessions).Some?
    ensures lo <= AverageAttendance(sessions).value <= hi
  {
    SumBounds(sessions, lo, hi);
    RoundedWithin(|sessions|, SumPercentages(sessions), AverageAttendance(sessions).value, lo, hi);
  }

  /** A value r within half of s / n, where s / n lies in [lo, hi], lies in [lo, hi] too. */
  lemma RoundedWithin(n: nat, s: nat, r: nat, lo: nat, hi: nat)
    requires n > 0
    requires n * lo <= s <= n * hi
    requires (2 * r - 1) * n <= 2 * s < (2 * r + 1) * n
    ensures lo <= r <= hi
  {
    if r < lo {
      MulMonoNat(2 * r + 1, 2 * lo, n);
      assert false;
    }
    if r > hi {
      MulMonoNat(2 * hi + 1, 2 * r - 1, n);
      assert false;
    }
  }

  lemma MulMonoNat(a: int, b: int, n: nat)
    requires a <= b
    ensures a * n <= b * n
  {
  }

  /** Sessions that all have percentage p average to exactly p. */
  lemma ConstantAverage(sessions: seq<Session>, p: nat)
    requires |sessions| > 0
    requires forall i :: 0 <= i < |sessions| ==> sessions[i].percentage == p
    ensures AverageAttendance(sessions) == Some(p)
  {
    AverageWithinBounds(sessions, p, p);
  }

  /** The three 100% sessions of CS101 average to 100. */
  lemma Cs101Average()
    ensures AverageAttendance(MockAttendanceData["CS101"].sessions) == Some(100)
  {
    var sessions := MockAttendanceData["CS101"].sessions;
    ConstantAverage(sessions, 100);
  }

  /** One row of the Student Attendance table: "attended/sessions" and the stored percentage. */
  datatype StudentRow = StudentRow(id: string, name: string, attended: nat, outOf: nat, percentage: nat)

  /** The three summary cards and the student table of a selected course. */
  datatype Overview = Overview(totalSessions: nat, average: Option<nat>, totalStudents: nat, rows: seq<StudentRow>)

  /** One row per student, in order, each showing its attendance over the course's session count. */
  function StudentRows(c: Course): (rows: seq<StudentRow>)
    ensures |rows| == |c.students|
    ensures forall i :: 0 <= i < |rows| ==>
      && rows[i].id == c.students[i].id && rows[i].name == c.students[i].name
      && rows[i].attended == c.students[i].attendance && rows[i].outOf == |c.sessions|
      && rows[i].percentage == c.students[i].percentage
  {
    seq(|c.students|, i requires 0 <= i < |c.students| =>
      StudentRow(c.students[i].id, c.students[i].name, c.students[i].attendance, |c.sessions|, c.students[i].percentage))
  }

  /**
   * What the dashboard shows for a selection: the "No Course Selected"
   * placeholder exactly when there is no course data, else the overview.
   */
  function View(selected: Option<string>): (v: Option<Overview>)
    ensures v.Some? <==> CourseData(selected).Some?
    ensures v.Some? ==>
      var c := CourseData(selected).value;
      && v.value.totalSessions == |c.sessions|
      && v.value.totalStudents == |c.students| == |v.value.rows|
      && v.value.average == AverageAttendance(c.sessions)
      && forall i :: 0 <= i < |v.value.rows| ==> v.value.rows[i].outOf == v.value.totalSessions
  {
    match CourseData(selected)
    case None => None
    case Some(c) => Some(Overview(|c.sessions|, AverageAttendance(c.sessions), |c.students|, StudentRows(c)))
  }

  /** The two overviews the course drop-down can reach. */
  lemma MockOverviews()
    ensures View(Some("CS101")) == Some(Overview(3, Some(100), 4, StudentRows(MockAttendanceData["CS101"])))
    ensures View(Some("CS201")) == Some(Overview(3, Some(88), 4, StudentRows(MockAttendanceData["CS201"])))
    ensures View(None) == None
  {
    Cs101Average();
    var cs201 := MockAttendanceData["CS201"].sessions;
    assert cs201[..3] == cs201;
    assert cs201[..3][..2] == cs201[..2] && cs201[..2][..1] == cs201[..1] && cs201[..1][..0] == [];
    assert SumPercentages(cs201[..1]) == 93;
    assert SumPercentages(cs201[..2]) == 174;
    assert SumPercentages(cs201) == 263;
  }
}
