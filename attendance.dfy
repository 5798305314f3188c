/**
 * The attendance-capture page: a course selection, a detection switch tied
 * to the camera stream, a simulated recogniser that draws a student from a
 * fixed roster, and the session ledger of students marked present.
 * Each handler is one atomic step on the page's current state.
 */
module Attendance {
  import opened Wrappers
  import opened Ledger

  /** The hard-coded roster the recogniser draws from. */
  const MockStudents: seq<Student> := [
    Student("ST001", "John Doe"),
    Student("ST002", "Jane Smith"),
    Student("ST003", "Bob Johnson"),
    Student("ST004", "Alice Brown")
  ]

  /** What pressing "Start Detection" led to. */
  datatype StartResult = MissingInformation | CameraError | DetectionStarted

  /**
   * `Math.floor(u * n)` for a random `u = num / den` in [0, 1): the drawn
   * index is the largest `i` with `i / n <= u`, and it is always in range.
   */
  function DrawIndex(num: nat, den: nat, n: nat): (i: nat)
    requires num < den && n > 0
    ensures i < n
    ensures i * den <= num * n < (i + 1) * den
  {
    var i := (num * n) / den;
    assert num * n == i * den + (num * n) % den;
    assert num * n < den * n;
    i
  }

  class AttendancePage {
    var detecting: bool
    var recognizedStudent: Option<string>
    var course: string
    var courseId: string
    /** A camera stream is attached to the (always rendered) video element. */
    var streamAttached: bool
    var attendanceList: seq<Entry>

    /** The page invariant: distinct ids, roster members only, detecting exactly while a stream is attached. */
    ghost predicate Valid()
      reads this
    {
      && UniqueIds(attendanceList)
      && FromRoster(attendanceList, MockStudents)
      && (detecting <==> streamAttached)
      && (recognizedStudent.Some? ==> exists j :: 0 <= j < |MockStudents| && MockStudents[j].name == recognizedStudent.value)
    }

    /** The page as first rendered. */
    constructor ()
      ensures Valid()
      ensures !detecting && !streamAttached && recognizedStudent == None
      ensures course == "" && courseId == "" && attendanceList == []
    {
      detecting := false;
      recognizedStudent := None;
      course := "";
      courseId := "";
      streamAttached := false;
      attendanceList := [];
    }

    /** The course drop-down's change handler. */
    method SelectCourse(c: string)
      requires Valid()
      modifies this
      ensures Valid()
      ensures course == c
      ensures detecting == old(detecting) && streamAttached == old(streamAttached)
      ensures recognizedStudent == old(recognizedStudent) && courseId == old(courseId)
      ensures attendanceList == old(attendanceList)
    {
      course := c;
    }

    /** The course id input's change handler. */
    method EnterCourseId(c: string)
      requires Valid()
      modifies this
      ensures Valid()
      ensures courseId == c
      ensures detecting == old(detecting) && streamAttached == old(streamAttached)
      ensures recognizedStudent == old(recognizedStudent) && course == old(course)
      ensures attendanceList == old(attendanceList)
    {
      courseId := c;
    }

    /**
     * Start detection: refused while either course field is empty; otherwise
     * the camera request's outcome decides between attaching the stream and
     * switching detection on, or reporting a camera error with nothing changed.
     */
    method StartDetection(cameraGranted: bool) returns (r: StartResult)
      requires Valid()
      modifies this
      ensures Valid()
      ensures r == MissingInformation <==> old(course) == "" || old(courseId) == ""
      ensures r == CameraError <==> old(course) != "" && old(courseId) != "" && !cameraGranted
      ensures r == DetectionStarted ==> detecting && streamAttached
      ensures r != DetectionStarted ==> detecting == old(detecting) && streamAttached == old(streamAttached)
      ensures recognizedStudent == old(recognizedStudent) && course == old(course) && courseId == old(courseId)
      ensures attendanceList == old(attendanceList)
    {
      if course == "" || courseId == "" {
        return MissingInformation;
      }
      if !cameraGranted {
        return CameraError;
      }
      streamAttached := true;
      detecting := true;
      r := DetectionStarted;
    }

    /** Stop detection: only when a stream is attached, which is then released. */
    method StopDetection()
      requires Valid()
      modifies this
      ensures Valid()
      ensures !detecting && !streamAttached
      ensures old(streamAttached) || (detecting == old(detecting) && streamAttached == old(streamAttached))
      ensures recognizedStudent == old(recognizedStudent) && course == old(course) && courseId == old(courseId)
      ensures attendanceList == old(attendanceList)
    {
      if streamAttached {
        streamAttached := false;
        detecting := false;
      }
    }

    /**
     * One detection, with the delayed callback run at once: while detecting,
     * draw a roster student with the random number `num / den`, show the name
     * and record the student in the ledger unless the id is already there.
     */
    method SimulateDetection(num: nat, den: nat, time: string) returns (d: Detection)
      requires Valid()
      requires num < den
      modifies this
      ensures Valid()
      ensures !old(detecting) ==> d == NotDetecting && recognizedStudent == old(recognizedStudent) && attendanceList == old(attendanceList)
      ensures old(detecting) ==>
        var s := MockStudents[DrawIndex(num, den, |MockStudents|)];
        && recognizedStudent == Some(s.name)
        && attendanceList == Mark(old(attendanceList), s, time)
        && d == MarkOutcome(old(attendanceList), s)
      ensures detecting == old(detecting) && streamAttached == old(streamAttached)
      ensures course == old(course) && courseId == old(courseId)
    {
      if !detecting {
        return NotDetecting;
      }
      recognizedStudent := None;
      var i := DrawIndex(num, den, |MockStudents|);
      var student := MockStudents[i];
      recognizedStudent := Some(student.name);
      var updated := attendanceList;
      var existing := FindIndex(updated, student.id);
      if existing == -1 {
        updated := updated + [Entry(student.id, student.name, time)];
        attendanceList := updated;
        d := Marked;
      } else {
        d := Duplicate;
      }
      MarkFromRoster(old(attendanceList), MockStudents, i, time);
    }

    /** Reset List: the ledger becomes empty, whatever it held. */
    method ResetAttendance()
      requires Valid()
      modifies this
      ensures Valid()
      ensures attendanceList == []
      ensures detecting == old(detecting) && streamAttached == old(streamAttached)
      ensures recognizedStudent == old(recognizedStudent) && course == old(course) && courseId == old(courseId)
    {
      attendanceList := [];
    }

    /**
     * The "N Present" badge: the ledger's length, which is the number of
     * distinct students marked and never more than the roster holds.
     */
    function PresentCount(): (n: nat)
      reads this
      requires Valid()
      ensures n == |attendanceList|
      ensures n == |Ids(attendanceList)|
      ensures n <= |MockStudents|
    {
      UniqueIdsCount(attendanceList);
      PresentAtMostRoster(attendanceList, MockStudents);
      |attendanceList|
    }
  }

  /** The first student in the roster drawn twice in one session: marked, then reported as a duplicate. */
  method DuplicateDetectionScenario() returns (first: Detection, second: Detection, present: nat)
    ensures first == Marked && second == Duplicate && present == 1
  {
    var page := new AttendancePage();
    page.SelectCourse("CS101");
    page.EnterCourseId("A1");
    var started := page.StartDetection(true);
    first := page.SimulateDetection(0, 4, "09:00");
    MarkAppendsWhenAbsent([], MockStudents[0], "09:00");
    second := page.SimulateDetection(0, 4, "09:05");
    present := page.PresentCount();
  }

  /** Starting without a course: refused, with detection off and an empty ledger. */
  method MissingCourseScenario(cameraGranted: bool) returns (r: StartResult, detecting: bool, present: nat)
    ensures r == MissingInformation && !detecting && present == 0
  {
    var page := new AttendancePage();
    page.EnterCourseId("A1");
    r := page.StartDetection(cameraGranted);
    detecting := page.detecting;
    present := page.PresentCount();
  }
}
