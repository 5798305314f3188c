# Attendance tracker page logic, modelled in Dafny

This project models the page logic of a front-end prototype for a face-recognition attendance tracker. The camera is real, but "recognition" is a random draw from a fixed roster, and all data is held in memory in the page. Three pages carry logic:

- **Take Attendance** (`Attendance` module, class `AttendancePage`). Starting detection needs a course and a course id, and then a camera grant. Stopping only acts while a stream is attached. A detection draws a roster student and records them in the session ledger (`Ledger` module), unless that id is already there. Reset empties the ledger, and the "N Present" badge shows its length.
- **Register New Student** (`Registration` module, class `RegisterForm`). A camera switch, image capture while the camera is on, and a Register action. Register is guarded on name, id and image all being present; on success it clears the form and runs the stop handler, which turns the camera off only if a stream is attached. The model tracks whether the `<video>` element is mounted. The page puts an image preview in its place once an image is captured and the camera is off. The stop handler only sees a stream attached to a mounted video element.
- **Attendance Dashboard** (`Dashboard` module). It looks up the selected course in the mock data. It shows the session count, the rounded average session percentage and the student count, plus one row per student showing attendance over the session count.

Camera access is a boolean parameter (granted or refused). The random number is a parameter `num / den` in [0, 1). The clock string is an opaque parameter, and captured images are opaque tokens.

Three behaviours of the code, as modelled:

- Starting the camera on the registration page while an image preview shows sets `capturing` to true, but no stream reaches a video element. Stop Camera then does nothing (`Registration.RestartOverPreviewScenario`).
- A detection only records anything while detection is on. The code does not actually guarantee that a callback already in flight stays suppressed after a stop, because its check reads the value from when the detection was triggered. The model runs the callback body as one atomic step on the current state, and it claims no suppression of a callback already in flight.
- Both stop handlers act only when a stream is attached to the video element. With none attached they release nothing, and the model follows the code.

## Model

| member | source | states |
|---|---|---|
| Ledger.FindIndex | Attendance.tsx:131 | the result is -1 exactly when no entry carries the id; otherwise it is the first position holding that id |
| Ledger.Mark | Attendance.tsx:129-138 | the ledger update keeps every old entry in place as a prefix and grows by at most one entry; afterwards the id is present; a new entry is the drawn student with the given time; unique ids are preserved |
| Ledger.MarkOutcome | Attendance.tsx:131-150 | the detection is reported as a duplicate exactly when the id was already present, and as marked otherwise |
| Ledger.MarkAppendsWhenAbsent | Attendance.tsx:132-138 | an absent student is appended as exactly one last entry with that id, name and time; the length grows by one |
| Ledger.MarkKeepsWhenPresent | Attendance.tsx:144-150 | a student already present leaves the list unchanged and is reported as a duplicate |
| Ledger.MarkTwice | Attendance.tsx:129-150 | recording the same student twice gives marked then duplicate; the second recording changes nothing |
| Ledger.MarkFromRoster | Attendance.tsx:122-136 | marking a roster member keeps every ledger entry a roster member, by id and name |
| Ledger.UniqueIdsCount | Attendance.tsx:272 | with unique ids, the list length equals the number of distinct ids present |
| Ledger.PresentAtMostRoster | Attendance.tsx:22-27 | a ledger of distinct roster members never has more entries than the roster |
| Attendance.DrawIndex | Attendance.tsx:122 | `Math.floor(u * n)` for u in [0, 1) is the floor of u·n and always a valid roster index |
| Attendance.AttendancePage.constructor | Attendance.tsx:12-18 | the initial page: not detecting, no stream, nobody recognised, empty course fields and an empty ledger |
| Attendance.AttendancePage.SelectCourse | Attendance.tsx:202 | the course field takes the chosen value; nothing else changes |
| Attendance.AttendancePage.EnterCourseId | Attendance.tsx:219 | the course id field takes the typed value; nothing else changes |
| Attendance.AttendancePage.StartDetection | Attendance.tsx:30-59 | an empty course or course id is refused with nothing changed; otherwise a granted camera attaches the stream and turns detecting on, and a refused camera changes nothing; the ledger is never touched |
| Attendance.AttendancePage.StopDetection | Attendance.tsx:62-74 | with a stream attached, it is released and detecting goes off; without one, nothing changes; afterwards no stream is attached, so a second stop is a no-op |
| Attendance.AttendancePage.SimulateDetection | Attendance.tsx:77-151 | while not detecting, nothing changes; while detecting, the drawn roster student's name is shown and the ledger becomes the marked ledger, with the matching outcome; the invariant (unique ids, roster members only) is kept |
| Attendance.AttendancePage.ResetAttendance | Attendance.tsx:155-161 | the ledger is empty from any state, which makes reset idempotent; nothing else changes |
| Attendance.AttendancePage.PresentCount | Attendance.tsx:272 | the badge count is the ledger's length, which is the number of distinct students marked and at most the roster size |
| Attendance.DuplicateDetectionScenario | Attendance.tsx:119-150 | one student drawn twice in a session is marked once, then reported as a duplicate; one student is present |
| Attendance.MissingCourseScenario | Attendance.tsx:30-38 | starting without a course is refused; detection stays off and the ledger stays empty, whatever the camera would do |
| Registration.RegisterForm.constructor | Register.tsx:11-15 | the empty form: no name or id, camera off, no image, count 0 |
| Registration.RegisterForm.EnterName | Register.tsx:122 | the name field takes the typed value; nothing else changes |
| Registration.RegisterForm.EnterId | Register.tsx:132 | the id field takes the typed value; nothing else changes |
| Registration.RegisterForm.StartCapture | Register.tsx:21-36 | a granted camera turns capturing on and attaches the stream exactly when the video element was mounted (`VideoMounted`: no image preview replaces it, Register.tsx:159); a refusal changes nothing |
| Registration.RegisterForm.StopCapture | Register.tsx:39-46 | with a stream attached to the mounted video element (`VideoMounted`), it is released and capturing goes off; without one, nothing changes; afterwards no stream is attached, so stopping is idempotent |
| Registration.RegisterForm.CaptureImage | Register.tsx:49-67 | while capturing, the frame becomes the captured image and the count rises by exactly one, with no cap at 5; otherwise nothing changes |
| Registration.RegisterForm.SaveStudent | Register.tsx:70-93 | saving succeeds exactly when the Register button's condition `CanRegister` (line 145: name, id and image all present) holds; a refusal changes nothing; a success leaves name and id empty, no image and a count of 0, and applies the stop handler |
| Registration.RegistrationScenario | Register.tsx:70-93 | name, id, camera on, one capture, then Register: saved, the form is cleared and the camera is off |
| Registration.RestartOverPreviewScenario | Register.tsx:21-46 | after capture and stop, restarting the camera over the preview leaves no stream attached, and Stop Camera then leaves capturing on |
| Dashboard.CourseData | Dashboard.tsx:44 | no data without a selected course key; otherwise the mock entry for that key |
| Dashboard.SumPercentages | Dashboard.tsx:94 | the `reduce` sum of the session percentages: 0 for no sessions, and never below any single session's percentage |
| Dashboard.RoundHalfUp | Dashboard.tsx:94 | `Math.round(num / den)` for non-negative integers: r − ½ ≤ num/den < r + ½ |
| Dashboard.AverageAttendance | Dashboard.tsx:94 | defined exactly when there is at least one session; then it is the session mean rounded half up |
| Dashboard.SumBounds | Dashboard.tsx:94 | the `reduce` sum of n percentages within [lo, hi] lies within [n·lo, n·hi] |
| Dashboard.AverageWithinBounds | Dashboard.tsx:94 | the average lies between the lowest and highest session percentage |
| Dashboard.RoundedWithin | Dashboard.tsx:94 | a value within half of a mean inside [lo, hi] is inside [lo, hi] |
| Dashboard.ConstantAverage | Dashboard.tsx:94 | sessions that all have percentage p average to exactly p |
| Dashboard.Cs101Average | Dashboard.tsx:15-17 | the CS101 sessions average to 100 |
| Dashboard.StudentRows | Dashboard.tsx:176-181 | one row per student, in order, each showing that student's attendance over the course's session count |
| Dashboard.View | Dashboard.tsx:75-109 | the placeholder shows exactly when there is no course data; otherwise Total Sessions and Total Students are the list lengths and the average is the rounded mean |
| Dashboard.MockOverviews | Dashboard.tsx:11-40 | the CS101 overview shows 3 sessions, 100% and 4 students; CS201 shows 3 sessions, 88% and 4 students; with no selection, the placeholder shows |

## Left out

- Canvas drawing is not modelled: the detection rectangle, the landmark dots and the frame copy (Attendance.tsx:83-116, Register.tsx:51-56). It is pixel geometry in floating point on the browser canvas. `toDataURL` becomes the opaque `frame` parameter of `CaptureImage`.
- Camera access through `getUserMedia` and the stopping of media tracks are foreign I/O. A request is a `cameraGranted` boolean, and a stream is only a flag saying whether one is attached. The console error on a refused camera is dropped.
- The `await` of the camera request is not modelled. The model does not capture state changes between the click and the grant.
- Timers are not modelled: the 5-second interval, the 2-second delay and React's effect and closure semantics (Attendance.tsx:119, 164-175). The delayed callback runs at once on the current state. In the code, its `detecting` check and its copy of the list come from the render that triggered it. So suppression after a stop, and freedom from lost updates between overlapping callbacks, are not claimed. A related case, read from the code and not executed: a Reset may be followed by a callback still in flight, which copied the list of an earlier render (Attendance.tsx:129). If the drawn id is absent from that stale copy, the callback writes back the pre-reset list plus one entry (Attendance.tsx:138). If the id is present in it, the callback takes the duplicate branch (Attendance.tsx:144) and never sets the list, so the list stays empty while the toast reports a duplicate.
- Attendance.AttendancePage.SimulateDetection: the transient reset of the recognised name to nothing (Attendance.tsx:80) is not visible, because the atomic step sets the drawn name straight away.
- Unmount cleanup (Attendance.tsx:178-182, Register.tsx:96-100) calls the same stop handlers that are modelled. It is not a separate member.
- Toast notifications are not modelled. The toasts of `StartDetection`, `SimulateDetection` and `SaveStudent` match the result values those methods return. The other four are visible only through the state change they accompany: Detection Stopped (Attendance.tsx:69) with `StopDetection`, Attendance Reset (Attendance.tsx:157) with `ResetAttendance`, Camera Error (Register.tsx:30) with `StartCapture`, and Image Captured (Register.tsx:61) with `CaptureImage`.
- `Math.random` becomes the rational `num / den` in [0, 1). Floating-point rounding of `u * n` is not modelled; for the four-student roster, multiplying by 4 is exact.
- Clock formatting (`toLocaleTimeString` at Attendance.tsx:127) is not modelled: the time is an opaque string parameter.
- The Session History table (Dashboard.tsx:134-151) is not modelled. That covers each session's date, with its `toLocaleDateString` formatting, its present and absent counts, and its percentage bar.
- Dashboard.AverageAttendance: the floating-point division before `Math.round` is modelled as exact rational rounding. With no sessions the code shows `NaN`; the model returns no value.
- The mock session percentages and attendance counts are taken as given; no relation between them is asserted.
- The Export Report button (Dashboard.tsx:201) has no handler, so there is nothing to model. Styling, Index.tsx and AppHeader.tsx are static markup and router links only.
