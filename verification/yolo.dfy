/** The box conversion of the YOLO detector (YoloCamera.LoadModel): the
    model outputs boxes as (centre x, centre y, width, height) rows, and a
    constant 4x4 matrix turns each row into corner form (x1, y1, x2, y2)
    before non-maximum suppression. Coordinates are reals here. */
module YoloBoxes {

  /** centersToCorners, row by row. */
  const CentersToCorners: seq<seq<real>> := [
    [1.0, 0.0, 1.0, 0.0],
    [0.0, 1.0, 0.0, 1.0],
    [-0.5, 0.0, 0.5, 0.0],
    [0.0, -0.5, 0.0, 0.5]
  ]

  predicate IsMatrix(m: seq<seq<real>>, rows: nat, cols: nat) {
    |m| == rows && forall i :: 0 <= i < rows ==> |m[i]| == cols
  }

  function Dot(u: seq<real>, v: seq<real>): real
    requires |u| == |v|
  {
    if |u| == 0 then 0.0 else u[0] * v[0] + Dot(u[1..], v[1..])
  }

  function Column(m: seq<seq<real>>, j: nat): (c: seq<real>)
    requires forall i :: 0 <= i < |m| ==> j < |m[i]|
    ensures |c| == |m|
    ensures forall i :: 0 <= i < |m| ==> c[i] == m[i][j]
  {
    seq(|m|, i requires 0 <= i < |m| => m[i][j])
  }

  /** Row vector times matrix, as MatMul does for each row of boxCoords. */
  function RowTimes(v: seq<real>, m: seq<seq<real>>, cols: nat): (r: seq<real>)
    requires IsMatrix(m, |v|, cols)
    ensures |r| == cols
    ensures forall j :: 0 <= j < cols ==> r[j] == Dot(v, Column(m, j))
  {
    seq(cols, j requires 0 <= j < cols => Dot(v, Column(m, j)))
  }

  datatype Centre = Centre(cx: real, cy: real, w: real, h: real)
  datatype Corners = Corners(x1: real, y1: real, x2: real, y2: real)

  /** One row of boxCorners: the box row multiplied by centersToCorners. */
  function ToCorners(b: Centre): (c: Corners)
    ensures c == Corners(b.cx - b.w / 2.0, b.cy - b.h / 2.0, b.cx + b.w / 2.0, b.cy + b.h / 2.0)
  {
    var v := [b.cx, b.cy, b.w, b.h];
    var r := RowTimes(v, CentersToCorners, 4);
    DotOfFour(v, Column(CentersToCorners, 0));
    DotOfFour(v, Column(CentersToCorners, 1));
    DotOfFour(v, Column(CentersToCorners, 2));
    DotOfFour(v, Column(CentersToCorners, 3));
    Corners(r[0], r[1], r[2], r[3])
  }

  lemma {:induction false} DotOfFour(u: seq<real>, v: seq<real>)
    requires |u| == 4 && |v| == 4
    ensures Dot(u, v) == u[0] * v[0] + u[1] * v[1] + u[2] * v[2] + u[3] * v[3]
  {
    var u1, v1 := u[1..], v[1..];
    var u2, v2 := u1[1..], v1[1..];
    var u3, v3 := u2[1..], v2[1..];
    assert Dot(u3, v3) == u3[0] * v3[0] + Dot(u3[1..], v3[1..]);
    assert Dot(u3[1..], v3[1..]) == 0.0;
    assert Dot(u2, v2) == u2[0] * v2[0] + Dot(u3, v3);
    assert Dot(u1, v1) == u1[0] * v1[0] + Dot(u2, v2);
  }

  /** Corner form keeps the size and the centre of the box. */
  lemma {:induction false} CornersKeepSizeAndCentre(b: Centre)
    ensures var c := ToCorners(b);
      && c.x2 - c.x1 == b.w && c.y2 - c.y1 == b.h
      && (c.x1 + c.x2) / 2.0 == b.cx && (c.y1 + c.y2) / 2.0 == b.cy
  {
  }

  /** A box of non-negative size has its corners in order. */
  lemma {:induction false} CornersOrdered(b: Centre)
    requires b.w >= 0.0 && b.h >= 0.0
    ensures ToCorners(b).x1 <= ToCorners(b).x2 && ToCorners(b).y1 <= ToCorners(b).y2
  {
  }

  /** The inverse conversion: centre and size from the corners. */
  function ToCentre(c: Corners): (b: Centre)
    ensures b.w == c.x2 - c.x1 && b.h == c.y2 - c.y1
  {
    Centre((c.x1 + c.x2) / 2.0, (c.y1 + c.y2) / 2.0, c.x2 - c.x1, c.y2 - c.y1)
  }

  /** The matrix is invertible: the two forms convert into each other
      without loss. */
  lemma {:induction false} CornersRoundTrip(b: Centre, c: Corners)
    ensures ToCentre(ToCorners(b)) == b
    ensures ToCorners(ToCentre(c)) == c
  {
  }

  /** boxCorners: every row of boxCoords in corner form. */
  function AllCorners(boxes: seq<Centre>): (r: seq<Corners>)
    ensures |r| == |boxes|
    ensures forall n :: 0 <= n < |boxes| ==> r[n] == ToCorners(boxes[n])
  {
    seq(|boxes|, n requires 0 <= n < |boxes| => ToCorners(boxes[n]))
  }
}

/** Camera and capture bookkeeping of YoloCamera: which webcam runs, when a
    capture or an inference pass may proceed, the name a capture is saved
    under and the labels an inference pass reports. The webcam, the
    inference worker and the clock are outside the model; their results
    come in as parameters. */
module YoloCamera {
  import opened Optional
  import Text
  import ClipExport

  /** Camera state. `cameras` is the length of availableCameras, None
      while the array is unassigned (no permission yet); `device` is the
      camera the live WebCamTexture was opened on, None when there is none. */
  datatype Camera = Camera(cameras: Option<nat>, current: int, device: Option<nat>, initialized: bool)

  const Initial: Camera := Camera(None, 0, None, false)

  /** The running device is a listed camera, and the stored index is below
      the camera count or still the initial 0 (it may be negative). */
  predicate Consistent(cam: Camera) {
    && (cam.device.Some? ==> cam.cameras.Some? && cam.device.value < cam.cameras.value)
    && (cam.cameras.Some? ==> cam.current == 0 || cam.current < cam.cameras.value)
    && (cam.cameras.None? ==> cam.current == 0 && cam.device.None?)
    && (cam.initialized ==> cam.device.Some?)
  }

  /** StartCamera: an index outside [0, count) is ignored; otherwise the old
      texture is stopped (clearing isInitialized) and one is opened on the
      chosen device. None is the null dereference of availableCameras,
      which a negative index never reaches: that test comes first. */
  function StartCamera(cam: Camera, index: int): (r: Option<Camera>)
    ensures r.None? <==> cam.cameras.None? && index >= 0
    ensures r.Some? && (index < 0 || index >= cam.cameras.value) ==> r.value == cam
    ensures r.Some? && 0 <= index < cam.cameras.value ==>
      r.value == cam.(device := Some(index), initialized := false)
  {
    if index < 0 then Some(cam)
    else match cam.cameras
      case None => None
      case Some(count) =>
        if index >= count then Some(cam)
        else Some(cam.(device := Some(index as nat), initialized := false))
  }

  /** InitializeCamera: without permission nothing happens; otherwise the
      device list is read and, when it is not empty, the current camera is
      started. */
  function InitializeCamera(authorized: bool, devices: nat): (r: Camera)
    ensures !authorized ==> r == Initial
    ensures authorized ==> r.cameras == Some(devices) && r.current == 0
    ensures authorized && devices > 0 ==> r.device == Some(0) && !r.initialized
    ensures devices == 0 ==> r.device.None?
  {
    if !authorized then Initial
    else
      var listed := Initial.(cameras := Some(devices));
      if devices == 0 then listed else StartCamera(listed, listed.current).value
  }

  /** The end of WaitForCameraStart: once the texture plays (and a first
      frame has arrived) the camera counts as initialised. */
  function CameraStarted(cam: Camera, playing: bool): (r: Camera)
    ensures r.initialized <==> cam.initialized || (playing && cam.device.Some?)
    ensures r.(initialized := cam.initialized) == cam
  {
    if playing && cam.device.Some? then cam.(initialized := true) else cam
  }

  /** OnCameraChanged: the index is taken only when it differs from the
      current one and is below the camera count; a negative index is
      stored, then rejected by StartCamera, so the running camera stays.
      None is the null dereference of the camera list, reached only when
      the index differs from the current one (that test comes first). */
  function OnCameraChanged(cam: Camera, index: int): (r: Option<Camera>)
    ensures r.None? <==> cam.cameras.None? && index != cam.current
    ensures r.Some? && (index == cam.current || index >= cam.cameras.value) ==> r.value == cam
    ensures r.Some? && index != cam.current && 0 <= index < cam.cameras.value ==>
      r.value == cam.(current := index, device := Some(index), initialized := false)
    ensures r.Some? && index != cam.current && index < 0 ==> r.value == cam.(current := index)
  {
    if index == cam.current then Some(cam)
    else match cam.cameras
      case None => None
      case Some(count) =>
        if index < count then StartCamera(cam.(current := index), index)
        else Some(cam)
  }

  /** The camera bookkeeping never opens a device outside the list, from
      start-up on and whatever index the dropdown sends. */
  lemma {:induction false} StartKeepsConsistent(cam: Camera, index: int)
    requires Consistent(cam)
    ensures StartCamera(cam, index).Some? ==> Consistent(StartCamera(cam, index).value)
  {
  }

  lemma {:induction false} ChangeKeepsConsistent(cam: Camera, index: int)
    requires Consistent(cam)
    ensures OnCameraChanged(cam, index).Some? ==> Consistent(OnCameraChanged(cam, index).value)
  {
  }

  lemma {:induction false} StartupConsistent(authorized: bool, devices: nat, playing: bool)
    ensures Consistent(CameraStarted(InitializeCamera(authorized, devices), playing))
  {
  }

  /** The guard of CaptureImage: an initialised camera with a playing
      texture. */
  predicate CanCapture(cam: Camera, playing: bool) {
    cam.initialized && cam.device.Some? && playing
  }

  /** The guard of ExecuteML, which does not look at isPlaying. */
  predicate CanInfer(cam: Camera) {
    cam.initialized && cam.device.Some?
  }

  lemma {:induction false} CaptureNeedsInitialized(cam: Camera, playing: bool)
    ensures CanCapture(cam, playing) ==> CanInfer(cam)
    ensures !cam.initialized ==> !CanCapture(cam, playing) && !CanInfer(cam)
  {
  }

  // ---- capture file name ----------------------------------------------

  datatype ImageFormat = PNG | JPG

  /** The local time DateTime.Now supplies. */
  datatype DateTime = DateTime(year: nat, month: nat, day: nat, hour: nat, minute: nat, second: nat)

  predicate ValidTime(t: DateTime) {
    1 <= t.year <= 9999 && 1 <= t.month <= 12 && 1 <= t.day <= 31
    && t.hour < 24 && t.minute < 60 && t.second < 60
  }

  function Pow10(w: nat): (p: nat)
    ensures p >= 1
  {
    if w == 0 then 1 else 10 * Pow10(w - 1)
  }

  predicate IsDigit(c: char) {
    '0' <= c <= '9'
  }

  /** A number written with exactly w decimal digits, zero-padded (the
      "yyyy", "MM", "dd", "HH", "mm" and "ss" fields). */
  function Digits(n: nat, w: nat): (s: string)
    requires n < Pow10(w)
    ensures |s| == w
    ensures forall i :: 0 <= i < w ==> IsDigit(s[i])
  {
    if w == 0 then ""
    else Digits(n / 10, w - 1) + [('0' as int + n % 10) as char]
  }

  /** The number a string of decimal digits denotes. */
  function Value(s: string): nat
    requires forall i :: 0 <= i < |s| ==> IsDigit(s[i])
  {
    if |s| == 0 then 0
    else
      var last := s[|s| - 1];
      assert IsDigit(last);
      10 * Value(s[..|s| - 1]) + (last as int - '0' as int)
  }

  /** Reading the digits back gives the number. */
  lemma {:induction false} DigitsValue(n: nat, w: nat)
    requires n < Pow10(w)
    ensures Value(Digits(n, w)) == n
    decreases w
  {
    if w > 0 {
      DigitsValue(n / 10, w - 1);
      var s := Digits(n, w);
      assert s[..w - 1] == Digits(n / 10, w - 1);
    }
  }

  /** Three fields written one after the other. */
  function Fields3(a: string, b: string, c: string): string {
    a + b + c
  }

  lemma {:induction false} Fields3Parts(a: string, b: string, c: string)
    ensures var s := Fields3(a, b, c);
      s[..|a|] == a && s[|a|..|a| + |b|] == b && s[|a| + |b|..] == c
  {
  }

  /** DateTime.ToString("yyyyMMdd_HHmmss"). */
  function Timestamp(t: DateTime): (s: string)
    requires ValidTime(t)
    ensures |s| == 15 && s[8] == '_'
    ensures forall i :: 0 <= i < 15 && i != 8 ==> IsDigit(s[i])
  {
    Fields3(Digits(t.year, 4), Digits(t.month, 2), Digits(t.day, 2)) + "_"
      + Fields3(Digits(t.hour, 2), Digits(t.minute, 2), Digits(t.second, 2))
  }

  /** Reads a timestamp back into its fields. */
  function ParseTimestamp(s: string): (r: Option<DateTime>)
    ensures r.Some? ==> |s| == 15
  {
    if |s| == 15 && s[8] == '_' && (forall i :: 0 <= i < 15 && i != 8 ==> IsDigit(s[i])) then
      var date, time := s[..8], s[9..];
      Some(DateTime(Value(date[..4]), Value(date[4..6]), Value(date[6..]),
                    Value(time[..2]), Value(time[2..4]), Value(time[4..])))
    else None
  }

  /** The timestamp names the moment it was made from. */
  lemma {:induction false} TimestampRoundTrip(t: DateTime)
    requires ValidTime(t)
    ensures ParseTimestamp(Timestamp(t)) == Some(t)
  {
    var s := Timestamp(t);
    var date := Fields3(Digits(t.year, 4), Digits(t.month, 2), Digits(t.day, 2));
    var time := Fields3(Digits(t.hour, 2), Digits(t.minute, 2), Digits(t.second, 2));
    assert s[..8] == date && s[9..] == time;
    Fields3Parts(Digits(t.year, 4), Digits(t.month, 2), Digits(t.day, 2));
    Fields3Parts(Digits(t.hour, 2), Digits(t.minute, 2), Digits(t.second, 2));
    DigitsValue(t.year, 4);
    DigitsValue(t.month, 2);
    DigitsValue(t.day, 2);
    DigitsValue(t.hour, 2);
    DigitsValue(t.minute, 2);
    DigitsValue(t.second, 2);
  }

  function Extension(format: ImageFormat): string {
    if format == PNG then ".png" else ".jpg"
  }

  /** The name CaptureImageCoroutine saves a frame under: the prefix, the
      timestamp and the extension of the chosen format. */
  function CaptureFileName(prefix: string, t: DateTime, format: ImageFormat): (name: string)
    requires ValidTime(t)
    ensures |name| == |prefix| + 19
    ensures name[..|prefix|] == prefix
    ensures ParseTimestamp(name[|prefix|..|prefix| + 15]) == Some(t)
    ensures name[|prefix| + 15..] == (if format == PNG then ".png" else ".jpg")
  {
    var name := prefix + Timestamp(t) + Extension(format);
    assert name[|prefix|..|prefix| + 15] == Timestamp(t);
    TimestampRoundTrip(t);
    name
  }

  /** A captured frame is a file the CLIP gallery loads: its extension is
      the one of the chosen format whatever the prefix, and both formats
      are accepted there. */
  lemma {:induction false} CapturedFileIsImage(prefix: string, t: DateTime, format: ImageFormat)
    requires ValidTime(t)
    ensures ClipExport.GetExtension(CaptureFileName(prefix, t, format)) == Extension(format)
    ensures ClipExport.IsImageFile(CaptureFileName(prefix, t, format))
  {
    var ext := Extension(format);
    var name := CaptureFileName(prefix, t, format);
    assert name == name[..|prefix| + 15] + ext;
    ExtensionIsPlain(format);
    ClipExport.ExtensionOfSuffix(name[..|prefix| + 15], ext);
  }

  /** Both extensions are dotted, have no further dot or separator and are
      already lower-case. */
  lemma {:induction false} ExtensionIsPlain(format: ImageFormat)
    ensures var ext := Extension(format);
      && |ext| >= 2 && ext[0] == '.'
      && (forall j :: 1 <= j < |ext| ==> ext[j] != '.' && !ClipExport.IsDirSeparator(ext[j]))
      && Text.Lower(ext) == ext
  {
    if format == PNG {
      assert Text.Lower(".png") == ".png";
    } else {
      assert Text.Lower(".jpg") == ".jpg";
    }
  }

  /** What CaptureImage yields: the file name, or None when the guard
      returns early. */
  function CaptureImage(cam: Camera, playing: bool, prefix: string, now: DateTime,
                        format: ImageFormat): (r: Option<string>)
    requires ValidTime(now)
    ensures r.Some? <==> CanCapture(cam, playing)
    ensures r.Some? ==> r.value == CaptureFileName(prefix, now, format)
  {
    if CanCapture(cam, playing) then Some(CaptureFileName(prefix, now, format)) else None
  }

  // ---- labels ---------------------------------------------------------

  predicate IsNewline(c: char) { c == '\n' }

  /** labels: the class file split at every '\n'. */
  function Labels(classes: string): (labels: seq<string>)
    ensures |labels| == |Text.Separators(classes, IsNewline)| + 1
    ensures forall k :: 0 <= k < |labels| ==> Text.NoSeparator(labels[k], IsNewline)
  {
    Text.Split(classes, IsNewline)
  }

  /** What ExecuteML does with the labels: nothing before the camera is
      initialised; otherwise it reports one label per found box, at most
      200, or throws on a class id outside the label list. */
  datatype Inference = Skipped | Reported(names: seq<string>) | IndexOutOfRange

  function Min(a: nat, b: nat): nat {
    if a <= b then a else b
  }

  const MaxReported: nat := 200

  /** The report of ExecuteML for the class ids of the boxes kept by
      non-maximum suppression (one id per box). */
  function ExecuteML(cam: Camera, labels: seq<string>, labelIds: seq<int>): (r: Inference)
    ensures !CanInfer(cam) <==> r.Skipped?
    ensures r.Reported? ==> (|r.names| == Min(|labelIds|, MaxReported)
      && forall n :: 0 <= n < |r.names| ==> 0 <= labelIds[n] < |labels| && r.names[n] == labels[labelIds[n]])
    ensures r.IndexOutOfRange? <==> (CanInfer(cam)
      && exists n :: 0 <= n < Min(|labelIds|, MaxReported) && !(0 <= labelIds[n] < |labels|))
  {
    if !CanInfer(cam) then Skipped
    else ReportFrom(labels, labelIds, 0, Min(|labelIds|, MaxReported))
  }

  /** The label loop from box n up to (excluding) box stop. */
  function ReportFrom(labels: seq<string>, labelIds: seq<int>, n: nat, stop: nat): (r: Inference)
    requires n <= stop <= |labelIds|
    ensures !r.Skipped?
    ensures r.Reported? ==> (|r.names| == stop - n
      && forall k :: 0 <= k < |r.names| ==> 0 <= labelIds[n + k] < |labels| && r.names[k] == labels[labelIds[n + k]])
    ensures r.IndexOutOfRange? <==> exists k :: n <= k < stop && !(0 <= labelIds[k] < |labels|)
    decreases stop - n
  {
    if n == stop then Reported([])
    else if !(0 <= labelIds[n] < |labels|) then IndexOutOfRange
    else match ReportFrom(labels, labelIds, n + 1, stop)
      case Reported(rest) => Reported([labels[labelIds[n]]] + rest)
      case other => other
  }
}
