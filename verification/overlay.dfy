/** What the draw effect paints over the current frame: the detections that
    belong to it, the display size the image is scaled to, each box scaled to
    that size, the label font size and the stroke and label colours. Canvas
    calls are left out; these are the values that feed them. Lengths are
    exact `real`s. */
module Overlay {
  import opened Common
  import opened VideoPlayer
  import Contrast

  // ---------------------------------------------------------------------------
  // Selecting the current frame's detections

  /** The detections whose frame number is `frameNumber`, in list order. */
  function FrameDetections(ds: seq<Detection>, frameNumber: int): (r: seq<Detection>)
    ensures |r| <= |ds|
    ensures forall i :: 0 <= i < |r| ==> r[i].frameNumber == frameNumber
    ensures forall d :: d in r <==> d in ds && d.frameNumber == frameNumber
    decreases |ds|
  {
    if ds == [] then []
    else
      var last := ds[|ds| - 1];
      FrameDetections(ds[..|ds| - 1], frameNumber)
      + (if last.frameNumber == frameNumber then [last] else [])
  }

  /** Selection distributes over concatenation, so it keeps the list order:
      what comes from an earlier part of the list comes earlier. */
  lemma {:induction false} FrameDetectionsConcat(a: seq<Detection>, b: seq<Detection>, frameNumber: int)
    ensures FrameDetections(a + b, frameNumber)
            == FrameDetections(a, frameNumber) + FrameDetections(b, frameNumber)
    decreases |b|
  {
    if b != [] {
      var b' := b[..|b| - 1];
      assert (a + b)[..|a + b| - 1] == a + b';
      FrameDetectionsConcat(a, b', frameNumber);
    } else {
      assert a + b == a;
    }
  }

  /** A list whose detections all belong to the frame is kept whole. */
  lemma {:induction false} FrameDetectionsAllMatch(ds: seq<Detection>, frameNumber: int)
    requires forall i :: 0 <= i < |ds| ==> ds[i].frameNumber == frameNumber
    ensures FrameDetections(ds, frameNumber) == ds
    decreases |ds|
  {
    if ds != [] {
      var init := ds[..|ds| - 1];
      assert FrameDetections(ds, frameNumber) == FrameDetections(init, frameNumber) + [ds[|ds| - 1]];
      FrameDetectionsAllMatch(init, frameNumber);
      assert init + [ds[|ds| - 1]] == ds;
    }
  }

  /** Selecting twice is selecting once. */
  lemma FrameDetectionsIdempotent(ds: seq<Detection>, frameNumber: int)
    ensures FrameDetections(FrameDetections(ds, frameNumber), frameNumber)
            == FrameDetections(ds, frameNumber)
  {
    FrameDetectionsAllMatch(FrameDetections(ds, frameNumber), frameNumber);
  }

  /** The same selection, as the loop `Array.prototype.filter` runs. */
  method SelectDetections(ds: seq<Detection>, frameNumber: int) returns (r: seq<Detection>)
    ensures r == FrameDetections(ds, frameNumber)
  {
    r := [];
    var i := 0;
    while i < |ds|
      invariant 0 <= i <= |ds|
      invariant r == FrameDetections(ds[..i], frameNumber)
    {
      assert ds[..i + 1][..i] == ds[..i];
      if ds[i].frameNumber == frameNumber {
        r := r + [ds[i]];
      }
      i := i + 1;
    }
    assert ds[..i] == ds;
  }

  // ---------------------------------------------------------------------------
  // Display geometry

  /** The canvas size and the factors detections are scaled by. */
  datatype Display = Display(width: real, height: real, scaleX: real, scaleY: real)

  /** `Math.min`. */
  function Min(a: real, b: real): (m: real)
    ensures m <= a && m <= b && (m == a || m == b)
  {
    if a <= b then a else b
  }

  lemma QuotientOfQuotient(w: real, iw: real, ih: real)
    requires iw > 0.0 && ih > 0.0
    ensures (w / (iw / ih)) / ih == w / iw
  {
    var h := w / (iw / ih);
    assert h * (iw / ih) == w;
    assert h * iw == w * ih;
    assert (h / ih) * iw == w;
  }

  /** The image's natural size fitted to the container's width: the display
      width is the smaller of the two widths, the height follows the image's
      aspect ratio, and the two scale factors are the display size over the
      natural size. A loaded image has a positive natural size. */
  function DisplayGeometry(imageWidth: real, imageHeight: real, containerWidth: real): (g: Display)
    requires imageWidth > 0.0 && imageHeight > 0.0 && containerWidth >= 0.0
    ensures g.width == Min(imageWidth, containerWidth)
    // The aspect ratio is kept.
    ensures g.height * imageWidth == g.width * imageHeight
    // One factor for both axes, never above 1: the image is never enlarged.
    ensures g.scaleX == g.scaleY && 0.0 <= g.scaleX <= 1.0
    ensures g.scaleX == 1.0 <==> imageWidth <= containerWidth
    ensures g.width == g.scaleX * imageWidth && g.height == g.scaleY * imageHeight
  {
    var aspect := imageWidth / imageHeight;
    var w := Min(imageWidth, containerWidth);
    var h := w / aspect;
    QuotientOfQuotient(w, imageWidth, imageHeight);
    Display(w, h, w / imageWidth, h / imageHeight)
  }

  // ---------------------------------------------------------------------------
  // Boxes, font and colours

  /** A rectangle as the canvas takes it: corner, width and height. */
  datatype Box = Box(x: real, y: real, width: real, height: real)

  /** A detection's corners scaled to the display. */
  function ScaleBox(d: Detection, g: Display): (b: Box)
    ensures b.x == d.x1 * g.scaleX && b.y == d.y1 * g.scaleY
    ensures b.x + b.width == d.x2 * g.scaleX && b.y + b.height == d.y2 * g.scaleY
    ensures d.x1 <= d.x2 && 0.0 <= g.scaleX ==> 0.0 <= b.width
    ensures d.y1 <= d.y2 && 0.0 <= g.scaleY ==> 0.0 <= b.height
  {
    Box(d.x1 * g.scaleX, d.y1 * g.scaleY, (d.x2 - d.x1) * g.scaleX, (d.y2 - d.y1) * g.scaleY)
  }

  /** The image-pixel corners a display box came from. */
  function UnscaleBox(b: Box, g: Display): (corners: (real, real, real, real))
    requires g.scaleX > 0.0 && g.scaleY > 0.0
  {
    (b.x / g.scaleX, b.y / g.scaleY, (b.x + b.width) / g.scaleX, (b.y + b.height) / g.scaleY)
  }

  /** Scaling loses nothing: with non-zero factors the original corners are
      recovered from the box. */
  lemma ScaleBoxRoundTrip(d: Detection, g: Display)
    requires g.scaleX > 0.0 && g.scaleY > 0.0
    ensures UnscaleBox(ScaleBox(d, g), g) == (d.x1, d.y1, d.x2, d.y2)
  {
    var b := ScaleBox(d, g);
    assert b.x + b.width == d.x2 * g.scaleX;
    assert b.y + b.height == d.y2 * g.scaleY;
    DivCancel(d.x1, g.scaleX);
    DivCancel(d.x2, g.scaleX);
    DivCancel(d.y1, g.scaleY);
    DivCancel(d.y2, g.scaleY);
    var u := UnscaleBox(b, g);
    assert u.0 == d.x1;
    assert u.1 == d.y1;
    assert u.2 == d.x2;
    assert u.3 == d.y2;
  }

  lemma DivCancel(x: real, s: real)
    requires s != 0.0
    ensures (x * s) / s == x
  {
  }

  lemma MulMonotone(a: real, b: real, s: real)
    requires a <= b && s >= 0.0
    ensures a * s <= b * s
  {
    assert b * s - a * s == (b - a) * s;
  }

  /** A span `[lo, hi]` inside `[0, limit]` scaled by a non-negative factor
      stays inside the scaled limit. */
  lemma ScaledSpanInside(lo: real, hi: real, limit: real, s: real)
    requires 0.0 <= lo <= hi <= limit && s >= 0.0
    ensures 0.0 <= lo * s && 0.0 <= (hi - lo) * s && lo * s + (hi - lo) * s <= limit * s
  {
    MulMonotone(0.0, lo, s);
    MulMonotone(lo, hi, s);
    MulMonotone(hi, limit, s);
    assert lo * s + (hi - lo) * s == hi * s;
  }

  /** A detection inside the image gives a box inside the canvas. */
  lemma ScaledBoxInsideDisplay(d: Detection, imageWidth: real, imageHeight: real, containerWidth: real)
    requires imageWidth > 0.0 && imageHeight > 0.0 && containerWidth >= 0.0
    requires 0.0 <= d.x1 <= d.x2 <= imageWidth && 0.0 <= d.y1 <= d.y2 <= imageHeight
    ensures var g := DisplayGeometry(imageWidth, imageHeight, containerWidth);
            var b := ScaleBox(d, g);
            && 0.0 <= b.x && 0.0 <= b.width && b.x + b.width <= g.width
            && 0.0 <= b.y && 0.0 <= b.height && b.y + b.height <= g.height
  {
    var g := DisplayGeometry(imageWidth, imageHeight, containerWidth);
    BoxInside(d, g, imageWidth, imageHeight);
  }

  lemma BoxInside(d: Detection, g: Display, imageWidth: real, imageHeight: real)
    requires 0.0 <= d.x1 <= d.x2 <= imageWidth && 0.0 <= d.y1 <= d.y2 <= imageHeight
    requires 0.0 <= g.scaleX && 0.0 <= g.scaleY
    requires g.width == g.scaleX * imageWidth && g.height == g.scaleY * imageHeight
    ensures var b := ScaleBox(d, g);
            && 0.0 <= b.x && 0.0 <= b.width && b.x + b.width <= g.width
            && 0.0 <= b.y && 0.0 <= b.height && b.y + b.height <= g.height
  {
    ScaledSpanInside(d.x1, d.x2, imageWidth, g.scaleX);
    ScaledSpanInside(d.y1, d.y2, imageHeight, g.scaleY);
  }

  /** The label font size: a sixtieth of the display width, kept within 10 to
      14 pixels. */
  function FontSize(displayWidth: real): (f: real)
    ensures 10.0 <= f <= 14.0
    ensures 600.0 <= displayWidth <= 840.0 ==> f == displayWidth / 60.0
    ensures displayWidth <= 600.0 ==> f == 10.0
    ensures displayWidth >= 840.0 ==> f == 14.0
  {
    var m := if 14.0 <= displayWidth / 60.0 then 14.0 else displayWidth / 60.0;
    if 10.0 >= m then 10.0 else m
  }

  const DefaultBoxColor := "#FF0000"

  /** `det.color || '#FF0000'`: a missing or empty colour is red. */
  function BoxColor(d: Detection): (c: string)
    ensures c != ""
    ensures d.color.Some? && d.color.value != "" ==> c == d.color.value
    ensures d.color.None? || d.color == Some("") ==> c == DefaultBoxColor
  {
    match d.color
    case None => DefaultBoxColor
    case Some(c) => if c == "" then DefaultBoxColor else c
  }

  /** What is painted for one detection. */
  datatype Painted = Painted(
    box: Box,
    color: string,
    labelColor: string,
    fontSize: real,
    objectClass: string,
    confidence: real)

  /** What one detection paints: its scaled box in its colour, and a label
      in the contrasting black or white at the display's font size. */
  function Paint(d: Detection, g: Display): (p: Painted)
    ensures p.box == ScaleBox(d, g)
    ensures p.color == BoxColor(d) && p.color != ""
    ensures p.labelColor == Contrast.ContrastingTextColor(Text(p.color))
    ensures p.labelColor == Contrast.Black || p.labelColor == Contrast.White
    ensures p.fontSize == FontSize(g.width) && 10.0 <= p.fontSize <= 14.0
    ensures p.objectClass == d.objectClass && p.confidence == d.confidence
  {
    var c := BoxColor(d);
    Painted(ScaleBox(d, g), c, Contrast.ContrastingTextColor(Text(c)), FontSize(g.width),
            d.objectClass, d.confidence)
  }

  /** The overlays for one frame: one per selected detection, in order, each
      stroked in the detection's colour with a black or white label sized
      from the display width. */
  function Overlays(frame: Frame, ds: seq<Detection>, g: Display): (r: seq<Painted>)
    ensures var sel := FrameDetections(ds, frame.frameNumber);
            && |r| == |sel|
            && forall i :: 0 <= i < |r| ==>
                 && r[i].box == ScaleBox(sel[i], g)
                 && r[i].color == BoxColor(sel[i])
                 && r[i].objectClass == sel[i].objectClass
                 && r[i].confidence == sel[i].confidence
                 && r[i].labelColor == Contrast.ContrastingTextColor(Text(BoxColor(sel[i])))
                 && (r[i].labelColor == Contrast.Black || r[i].labelColor == Contrast.White)
                 && r[i].fontSize == FontSize(g.width)
                 && 10.0 <= r[i].fontSize <= 14.0
  {
    var sel := FrameDetections(ds, frame.frameNumber);
    seq(|sel|, i requires 0 <= i < |sel| => Paint(sel[i], g))
  }

  /** The draw effect: nothing unless the player view is on screen (only it
      holds the canvas and its container) and the position names a frame;
      otherwise the display geometry for that frame's image and its
      overlays. */
  function Draw(s: PlayerState, imageWidth: real, imageHeight: real, containerWidth: real)
    : (r: Option<(Display, seq<Painted>)>)
    requires imageWidth > 0.0 && imageHeight > 0.0 && containerWidth >= 0.0
    ensures r.Some? <==> Render(s).Player? && CurrentFrame(s).Some?
    ensures r.Some? ==>
              && r.value.0 == DisplayGeometry(imageWidth, imageHeight, containerWidth)
              && r.value.1 == Overlays(s.frames[s.index], s.detections, r.value.0)
              && |r.value.1| == |FrameDetections(s.detections, s.frames[s.index].frameNumber)|
  {
    if !Render(s).Player? then None
    else
      match CurrentFrame(s)
      case None => None
      case Some(f) =>
        var g := DisplayGeometry(imageWidth, imageHeight, containerWidth);
        Some((g, Overlays(f, s.detections, g)))
  }

  /** A detections fetch that throws leaves the error screen up, so nothing is
      drawn even though a frame was loaded. */
  lemma NoDrawOnErrorScreen(frames: seq<Frame>)
    requires |frames| > 0
    ensures var s := Load(Initial(), Fetched(Some(FramesResponse(Some(frames), None))), Failed);
            && CurrentFrame(s).Some?
            && Render(s) == ErrorAlert(LoadError)
            && Draw(s, 640.0, 480.0, 800.0).None?
  {
  }

  // ---------------------------------------------------------------------------
  // A worked session

  function ThreeFrames(): seq<Frame> {
    [Frame(0, "/frames/0.jpg"), Frame(1, "/frames/1.jpg"), Frame(2, "/frames/2.jpg")]
  }

  function TwoDetections(): seq<Detection> {
    [Detection(0, 10.0, 10.0, 110.0, 60.0, "car", 0.9, Some("#FFFFFF")),
     Detection(2, 0.0, 0.0, 50.0, 50.0, "person", 0.8, None)]
  }

  /** Three frames at 5 fps with detections on the first and last: after
      loading, the player shows frame 1 of 3 with the car's box; fast-forward
      shows frame 3 of 3 with the person's box; a tick from there wraps back to
      the first frame. */
  lemma LoadedSession()
    ensures var s := Load(Initial(),
                          Fetched(Some(FramesResponse(Some(ThreeFrames()), Some(5.0)))),
                          Fetched(Some(DetectionsResponse(Some(TwoDetections())))));
            && Render(s) == Player(1, 3)
            && s.fps == 5.0
            && FrameDetections(s.detections, s.frames[s.index].frameNumber) == [TwoDetections()[0]]
            && var e := FastForward(s);
               && Render(e) == Player(3, 3)
               && FrameDetections(e.detections, e.frames[e.index].frameNumber) == [TwoDetections()[1]]
               && Tick(e.(playing := true)).index == 0
  {
    var ds := TwoDetections();
    assert ds[..1] == [ds[0]];
    assert ds[..1][..0] == [];
  }
}
