/**
 * The student-registration page: two text fields, a camera switch, face
 * image capture and the Register button.  The captured image is an opaque
 * token; registering only resets the form (nothing is stored).
 *
 * The page shows either the live <video> element or, once an image is
 * captured and the camera is off, a preview of that image in its place.
 * While the preview shows, the video element is not mounted, and a handler
 * that looks at the video element finds none.
 */
module Registration {
  import opened Wrappers

  /** An encoded frame of the camera, as `toDataURL` returns it. */
  datatype Image = Image(dataUrl: string)

  class RegisterForm {
    var studentName: string
    var studentId: string
    var capturing: bool
    var capturedImage: Option<Image>
    var imageCount: nat
    /** A camera stream is attached to the mounted video element. */
    var streamAttached: bool

    /** A stream is only ever attached while the camera is on. */
    ghost predicate Valid()
      reads this
    {
      streamAttached ==> capturing
    }

    /** The video element is in the page unless the image preview replaces it. */
    predicate VideoMounted()
      reads this
    {
      !(capturedImage.Some? && !capturing)
    }

    /** Register is enabled (and saving proceeds) exactly when name, id and image are all present. */
    predicate CanRegister()
      reads this
    {
      !(studentName == "" || studentId == "" || capturedImage.None?)
    }

    /** The empty form. */
    constructor ()
      ensures Valid()
      ensures studentName == "" && studentId == "" && !capturing
      ensures capturedImage == None && imageCount == 0 && !streamAttached
    {
      studentName := "";
      studentId := "";
      capturing := false;
      capturedImage := None;
      imageCount := 0;
      streamAttached := false;
    }

    /** The name input's change handler. */
    method EnterName(name: string)
      requires Valid()
      modifies this
      ensures Valid()
      ensures studentName == name
      ensures studentId == old(studentId) && capturing == old(capturing) && capturedImage == old(capturedImage)
      ensures imageCount == old(imageCount) && streamAttached == old(streamAttached)
    {
      studentName := name;
    }

    /** The id input's change handler. */
    method EnterId(id: string)
      requires Valid()
      modifies this
      ensures Valid()
      ensures studentId == id
      ensures studentName == old(studentName) && capturing == old(capturing) && capturedImage == old(capturedImage)
      ensures imageCount == old(imageCount) && streamAttached == old(streamAttached)
    {
      studentId := id;
    }

    /**
     * Start Camera: when access is granted the camera is on, and the stream
     * is attached only if the video element was mounted; a refusal changes nothing.
     */
    method StartCapture(cameraGranted: bool)
      requires Valid()
      modifies this
      ensures Valid()
      ensures cameraGranted ==> capturing && streamAttached == old(VideoMounted())
      ensures !cameraGranted ==> capturing == old(capturing) && streamAttached == old(streamAttached)
      ensures studentName == old(studentName) && studentId == old(studentId)
      ensures capturedImage == old(capturedImage) && imageCount == old(imageCount)
    {
      if cameraGranted {
        if VideoMounted() {
          streamAttached := true;
        }
        capturing := true;
      }
    }

    /** Stop Camera: only when the mounted video element holds a stream, which is released. */
    method StopCapture()
      requires Valid()
      modifies this
      ensures Valid()
      ensures !streamAttached
      ensures old(streamAttached) ==> !capturing
      ensures !old(streamAttached) ==> capturing == old(capturing)
      ensures studentName == old(studentName) && studentId == old(studentId)
      ensures capturedImage == old(capturedImage) && imageCount == old(imageCount)
    {
      if VideoMounted() && streamAttached {
        streamAttached := false;
        capturing := false;
      }
    }

    /** Capture Image: while the camera is on, `frame` becomes the captured image and one more image is counted. */
    method CaptureImage(frame: Image)
      requires Valid()
      modifies this
      ensures Valid()
      ensures old(capturing) ==> capturedImage == Some(frame) && imageCount == old(imageCount) + 1
      ensures !old(capturing) ==> capturedImage == old(capturedImage) && imageCount == old(imageCount)
      ensures studentName == old(studentName) && studentId == old(studentId)
      ensures capturing == old(capturing) && streamAttached == old(streamAttached)
    {
      if VideoMounted() && capturing {
        capturedImage := Some(frame);
        imageCount := imageCount + 1;
      }
    }

    /**
     * Register Student: refused, with nothing changed, unless name, id and
     * image are present (`CanRegister`); otherwise the form is cleared and the
     * stop handler runs, which turns the camera off only if a stream is attached.
     */
    method SaveStudent() returns (saved: bool)
      requires Valid()
      modifies this
      ensures Valid()
      ensures saved == old(CanRegister())
      ensures !saved ==>
        && studentName == old(studentName) && studentId == old(studentId)
        && capturedImage == old(capturedImage) && imageCount == old(imageCount)
        && capturing == old(capturing) && streamAttached == old(streamAttached)
      ensures saved ==>
        && studentName == "" && studentId == "" && capturedImage == None && imageCount == 0
        && !streamAttached && capturing == (old(capturing) && !old(streamAttached))
    {
      if studentName == "" || studentId == "" || capturedImage.None? {
        return false;
      }
      // The resets below are queued state updates; the stop handler still
      // sees the page as rendered before them, so it runs on that page here.
      StopCapture();
      studentName := "";
      studentId := "";
      capturedImage := None;
      imageCount := 0;
      saved := true;
    }
  }

  /** A complete registration: camera on, one image, both fields, Register. */
  method RegistrationScenario(frame: Image) returns (saved: bool, cleared: bool, cameraOff: bool)
    ensures saved && cleared && cameraOff
  {
    var form := new RegisterForm();
    form.EnterName("Jane Smith");
    form.EnterId("ST002");
    form.StartCapture(true);
    form.CaptureImage(frame);
    saved := form.SaveStudent();
    cleared := form.studentName == "" && form.studentId == "" && form.capturedImage == None && form.imageCount == 0;
    cameraOff := !form.capturing && !form.streamAttached;
  }

  /**
   * Capture, stop (the preview replaces the video), start again: the camera is
   * on but no stream reached the video element, so Stop Camera leaves it on.
   */
  method RestartOverPreviewScenario(frame: Image) returns (capturingAfterStop: bool, attached: bool, count: nat)
    ensures capturingAfterStop && !attached && count == 1
  {
    var form := new RegisterForm();
    form.StartCapture(true);
    form.CaptureImage(frame);
    form.StopCapture();
    form.StartCapture(true);
    form.StopCapture();
    capturingAfterStop := form.capturing;
    attached := form.streamAttached;
    count := form.imageCount;
  }
}
