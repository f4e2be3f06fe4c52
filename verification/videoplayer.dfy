/** The frame-overlay player's state: what the loader stores from the two
    fetches, which screen is shown, and the playback controller (timer tick,
    play/pause, rewind, fast-forward, slider). Fetch results, the interval timer
    and the controls are inputs; every transition is a pure function from one
    state to the next. */
module VideoPlayer {
  import opened Common

  /** One extracted still of the video. */
  datatype Frame = Frame(frameNumber: int, url: string)

  /** One detected object: its frame, its box corners in the image's own pixels,
      its class, its confidence and an optional overlay colour. */
  datatype Detection = Detection(
    frameNumber: int,
    x1: real, y1: real, x2: real, y2: real,
    objectClass: string,
    confidence: real,
    color: Option<string>)

  /** The outcome of awaiting a service call: it threw, or it returned a value. */
  datatype Fetch<T> = Failed | Fetched(body: T)

  /** The body of the frames response; either field may be missing. */
  datatype FramesResponse = FramesResponse(frames: Option<seq<Frame>>, playbackFps: Option<real>)

  /** The body of the detections response; the field may be missing. */
  datatype DetectionsResponse = DetectionsResponse(detections: Option<seq<Detection>>)

  const DefaultFps: real := 2.0
  const LoadError := "Failed to load video data."

  /** The component's state. `error` is `None` while no error has been set. */
  datatype PlayerState = PlayerState(
    frames: seq<Frame>,
    detections: seq<Detection>,
    fps: real,
    loading: bool,
    error: Option<string>,
    index: nat,
    playing: bool)

  /** The state the component mounts with. */
  function Initial(): (s: PlayerState)
    ensures s.loading && s.error.None? && !s.playing && s.index == 0
    ensures s.frames == [] && s.detections == [] && s.fps == DefaultFps
  {
    PlayerState([], [], DefaultFps, true, None, 0, false)
  }

  /** The frame rate is never zero: it starts at 2 and a zero or missing rate
      from the service is replaced by 2. */
  predicate Valid(s: PlayerState) {
    s.fps != 0.0
  }

  // ---------------------------------------------------------------------------
  // Loading

  /** `playback_fps || 2`. */
  function FpsOrDefault(fps: Option<real>): (r: real)
    ensures r != 0.0
    ensures fps.Some? && fps.value != 0.0 ==> r == fps.value
    ensures fps.None? || fps == Some(0.0) ==> r == DefaultFps
  {
    match fps
    case None => DefaultFps
    case Some(f) => if f == 0.0 then DefaultFps else f
  }

  /** The effect's `fetchData`: the frames are awaited first and stored (an
      absent response or missing list stores the empty list and keeps the frame
      rate); only then are the detections awaited and stored the same way. A
      throw at either await records the fixed error message and skips what
      follows; `loading` is cleared in every case. Nothing clears an earlier
      error, and the playback position is left alone. Both awaits are taken
      as one step: the state between them (new frames with the old
      detections, visible on a reload) and overlapping reloads are not
      represented. */
  function Load(s: PlayerState, frames: Fetch<Option<FramesResponse>>,
                detections: Fetch<Option<DetectionsResponse>>): (r: PlayerState)
    ensures !r.loading
    ensures r.index == s.index && r.playing == s.playing
    ensures Valid(s) ==> Valid(r)
    // The frames fetch threw: nothing is stored but the message.
    ensures frames.Failed? ==>
              r == s.(loading := false, error := Some(LoadError))
    // A frames list arrived: it is stored with its rate, or 2 without one.
    ensures frames.Fetched? && frames.body.Some? && frames.body.value.frames.Some? ==>
              r.frames == frames.body.value.frames.value
              && r.fps == FpsOrDefault(frames.body.value.playbackFps)
    // No frames list: the empty list, and the rate is left as it was.
    ensures frames.Fetched? && (frames.body.None? || frames.body.value.frames.None?) ==>
              r.frames == [] && r.fps == s.fps
    // The detections fetch threw after the frames were stored.
    ensures frames.Fetched? && detections.Failed? ==>
              r.error == Some(LoadError) && r.detections == s.detections
    // Both fetches returned.
    ensures frames.Fetched? && detections.Fetched? ==>
              r.error == s.error
              && r.detections == (if detections.body.Some? && detections.body.value.detections.Some?
                                  then detections.body.value.detections.value else [])
  {
    match frames
    case Failed => s.(loading := false, error := Some(LoadError))
    case Fetched(fd) =>
      var s1 :=
        if fd.Some? && fd.value.frames.Some?
        then s.(frames := fd.value.frames.value, fps := FpsOrDefault(fd.value.playbackFps))
        else s.(frames := []);
      match detections
      case Failed => s1.(loading := false, error := Some(LoadError))
      case Fetched(dd) =>
        var ds := if dd.Some? && dd.value.detections.Some? then dd.value.detections.value else [];
        s1.(detections := ds, loading := false)
  }

  // ---------------------------------------------------------------------------
  // What is shown

  /** The four screens, in the order they are tried. */
  datatype View =
    | Spinner
    | ErrorAlert(message: string)
    | NoFrames
    | Player(counter: nat, total: nat)

  /** An error message is set (JavaScript truthiness of the `error` state). */
  predicate HasError(s: PlayerState) {
    s.error.Some? && s.error.value != ""
  }

  /** The component's render: the spinner while loading, else the error, else
      "No frames" for an empty list, else the player with its `Frame i of n`
      counter. */
  function Render(s: PlayerState): (v: View)
    ensures v.Spinner? <==> s.loading
    ensures v.ErrorAlert? <==> !s.loading && HasError(s)
    ensures v.ErrorAlert? ==> v.message == s.error.value
    ensures v.NoFrames? <==> !s.loading && !HasError(s) && |s.frames| == 0
    ensures v.Player? <==> !s.loading && !HasError(s) && |s.frames| > 0
    ensures v.Player? ==> v.counter == s.index + 1 && v.total == |s.frames|
  {
    if s.loading then Spinner
    else if HasError(s) then ErrorAlert(s.error.value)
    else if |s.frames| == 0 then NoFrames
    else Player(s.index + 1, |s.frames|)
  }

  /** The frame the draw effect paints: only when there are frames and the
      position is inside the list. */
  function CurrentFrame(s: PlayerState): (f: Option<Frame>)
    ensures f.Some? <==> 0 < |s.frames| && s.index < |s.frames|
    ensures f.Some? ==> f.value == s.frames[s.index]
  {
    if 0 < |s.frames| && s.index < |s.frames| then Some(s.frames[s.index]) else None
  }

  /** The controls exist only on the player screen. */
  predicate ControlsShown(s: PlayerState) {
    Render(s).Player?
  }

  // ---------------------------------------------------------------------------
  // Playback

  /** The interval the timer effect sets up: one exists only while playing
      with a non-empty list, and fires every `1000 / fps` milliseconds. */
  function TimerPeriod(s: PlayerState): (p: Option<real>)
    requires Valid(s)
    ensures p.Some? <==> TimerRunning(s)
    ensures p.Some? ==> p.value * s.fps == 1000.0
  {
    if s.playing && |s.frames| > 0 then Some(1000.0 / s.fps) else None
  }

  /** `a % n` for a non-negative `a`, by repeated subtraction. */
  function Remainder(a: nat, n: nat): (r: nat)
    requires n > 0
    ensures r < n
    ensures a < n ==> r == a
    decreases a
  {
    if a < n then a else Remainder(a - n, n)
  }

  /** `Remainder` is the remainder of division. */
  lemma {:induction false} RemainderIsMod(a: nat, n: nat)
    requires n > 0
    ensures Remainder(a, n) == a % n
    decreases a
  {
    if a >= n {
      RemainderIsMod(a - n, n);
      ModShift(a, n);
    }
  }

  /** Taking `n` off does not change the remainder by `n`. */
  lemma ModShift(a: nat, n: nat)
    requires n > 0 && a >= n
    ensures (a - n) % n == a % n
  {
    var q, r := (a - n) / n, (a - n) % n;
    assert a - n == q * n + r;
    assert a == (q + 1) * n + r;
    ModUnique(a, n, q + 1, r);
  }

  lemma ModUnique(a: nat, n: nat, q: nat, r: nat)
    requires n > 0 && r < n && a == q * n + r
    ensures a % n == r
  {
    var q', r' := a / n, a % n;
    assert a == q' * n + r';
    assert (q - q') * n == r' - r;
    if q > q' {
      MulAtLeast(q - q', n);
    } else if q < q' {
      MulAtLeast(q' - q, n);
    }
  }

  lemma MulAtLeast(k: nat, n: nat)
    requires k >= 1
    ensures k * n >= n
  {
    assert k * n == (k - 1) * n + n;
  }

  /** An interval is set up (see `TimerPeriod`). */
  predicate TimerRunning(s: PlayerState) {
    Valid(s) && s.playing && |s.frames| > 0
  }

  /** One timer firing: the next frame, wrapping from the last to the first.
      A position left beyond the end by a reload of a shorter list is brought
      back inside by the same remainder. */
  function Tick(s: PlayerState): (r: PlayerState)
    requires TimerRunning(s)
    ensures r.index < |s.frames|
    ensures r.index == (s.index + 1) % |s.frames|
    ensures s.index + 1 < |s.frames| ==> r.index == s.index + 1
    ensures s.index + 1 == |s.frames| ==> r.index == 0
    ensures r == s.(index := r.index)
  {
    RemainderIsMod(s.index + 1, |s.frames|);
    s.(index := Remainder(s.index + 1, |s.frames|))
  }

  /** A reload can leave the position past the end of a shorter list; the
      next firing computes `(7 + 1) % 3` and lands on the third frame. */
  lemma TickPastTheEnd(s: PlayerState)
    requires TimerRunning(s) && |s.frames| == 3 && s.index == 7
    ensures Render(s).Player? ==> Render(s).counter > Render(s).total
    ensures Tick(s).index == 2
  {
  }

  /** The play/pause button flips `isPlaying` and nothing else. */
  function TogglePlay(s: PlayerState): (r: PlayerState)
    requires ControlsShown(s)
    ensures r.playing == !s.playing
    ensures r == s.(playing := r.playing)
  {
    s.(playing := !s.playing)
  }

  /** The rewind button goes to the first frame. */
  function Rewind(s: PlayerState): (r: PlayerState)
    requires ControlsShown(s)
    ensures r.index == 0 && r.index < |s.frames|
    ensures r == s.(index := r.index)
  {
    s.(index := 0)
  }

  /** The fast-forward button goes to the last frame. */
  function FastForward(s: PlayerState): (r: PlayerState)
    requires ControlsShown(s)
    ensures r.index + 1 == |s.frames|
    ensures r == s.(index := r.index)
  {
    s.(index := |s.frames| - 1)
  }

  /** The value a range input with bounds `0..n-1` reports for a requested
      position: the browser keeps it within the bounds. */
  function SliderValue(requested: int, n: nat): (v: nat)
    requires n > 0
    ensures v < n
    ensures 0 <= requested < n ==> v == requested
    ensures requested < 0 ==> v == 0
    ensures requested >= n ==> v == n - 1
  {
    if requested < 0 then 0 else if requested >= n then n - 1 else requested
  }

  /** Moving the slider sets the position to the value it reports. */
  function Seek(s: PlayerState, requested: int): (r: PlayerState)
    requires ControlsShown(s)
    ensures r.index < |s.frames|
    ensures 0 <= requested < |s.frames| ==> r.index == requested
    ensures r == s.(index := r.index)
  {
    s.(index := SliderValue(requested, |s.frames|))
  }

  // ---------------------------------------------------------------------------
  // Properties across transitions

  /** Every transition keeps the frame rate non-zero. */
  lemma TransitionsKeepValid(s: PlayerState, requested: int)
    requires Valid(s)
    ensures TimerPeriod(s).Some? ==> Valid(Tick(s))
    ensures ControlsShown(s) ==>
              Valid(TogglePlay(s)) && Valid(Rewind(s)) && Valid(FastForward(s))
              && Valid(Seek(s, requested))
  {
  }

  /** After any control or tick the position is inside the list, so the frame
      it names is drawn and the counter reads between 1 and n. */
  lemma ControlsKeepFrameDrawn(s: PlayerState, requested: int)
    requires Valid(s) && ControlsShown(s)
    ensures CurrentFrame(Rewind(s)).Some? && CurrentFrame(FastForward(s)).Some?
    ensures CurrentFrame(Seek(s, requested)).Some?
    ensures TimerPeriod(s).Some? ==> CurrentFrame(Tick(s)).Some?
    ensures var v := Render(Seek(s, requested)); v.Player? && 1 <= v.counter <= v.total
  {
  }

  /** Play/pause twice is no change at all. */
  lemma ToggleTwice(s: PlayerState)
    requires ControlsShown(s)
    ensures ControlsShown(TogglePlay(s)) && TogglePlay(TogglePlay(s)) == s
  {
  }

  /** `k` consecutive timer firings. */
  function Ticks(s: PlayerState, k: nat): (r: PlayerState)
    requires TimerRunning(s)
    ensures Valid(r) && r.playing && r.frames == s.frames
    decreases k
  {
    if k == 0 then s else Tick(Ticks(s, k - 1))
  }

  /** Running the timer for `a` then `b` firings is running it for `a + b`. */
  lemma {:induction false} TicksCompose(s: PlayerState, a: nat, b: nat)
    requires TimerRunning(s)
    ensures Ticks(s, a + b) == Ticks(Ticks(s, a), b)
    decreases b
  {
    if b > 0 {
      TicksCompose(s, a, b - 1);
    }
  }

  /** Firings that stay inside the list advance the position one by one. */
  lemma {:induction false} TicksAdvance(s: PlayerState, k: nat)
    requires TimerRunning(s)
    requires s.index + k < |s.frames|
    ensures Ticks(s, k).index == s.index + k
  {
    if k > 0 {
      TicksAdvance(s, k - 1);
    }
  }

  /** Firing once per remaining frame brings the position back to the first. */
  lemma TicksWrap(s: PlayerState, a: nat)
    requires TimerRunning(s) && s.index < |s.frames| && a == |s.frames| - s.index
    ensures Ticks(s, a).index == 0
  {
    TicksAdvance(s, |s.frames| - 1 - s.index);
  }

  /** Firings after a run of firings continue from where it left off. */
  lemma TicksFrom(s: PlayerState, a: nat, k: nat, m: nat)
    requires TimerRunning(s) && Ticks(s, a).index + k < |s.frames| && m == a + k
    ensures Ticks(s, m).index == Ticks(s, a).index + k
  {
    TicksCompose(s, a, k);
    TicksAdvance(Ticks(s, a), k);
  }

  /** Playback loops: after one firing per frame the same frame is shown again. */
  lemma PlaybackLoops(s: PlayerState)
    requires TimerRunning(s) && s.index < |s.frames|
    ensures Ticks(s, |s.frames|).index == s.index
  {
    var a := |s.frames| - s.index;
    TicksWrap(s, a);
    TicksFrom(s, a, s.index, |s.frames|);
  }

  /** What each outcome of the two fetches leaves on screen, starting from
      the mounted state. */
  lemma LoadedView(frames: Fetch<Option<FramesResponse>>,
                   detections: Fetch<Option<DetectionsResponse>>)
    ensures var v := Render(Load(Initial(), frames, detections));
            && (frames.Failed? || detections.Failed? <==> v == ErrorAlert(LoadError))
            && (frames.Fetched? && detections.Fetched? ==>
                  (v.NoFrames? <==> Load(Initial(), frames, detections).frames == []))
            && (v.Player? ==> v.counter == 1)
            && Load(Initial(), frames, detections).fps != 0.0
  {
  }

  /** The tick of a running timer and the wrap-around on a five-frame list. */
  lemma WrapExample(s: PlayerState)
    requires Valid(s) && s.playing && |s.frames| == 5 && s.index == 4
    ensures Tick(s).index == 0
  {
  }

  /** The slider clamps out-of-range requests on a ten-frame list. */
  lemma SeekExamples(s: PlayerState)
    requires ControlsShown(s) && |s.frames| == 10
    ensures Seek(s, -3).index == 0 && Seek(s, 999).index == 9
  {
  }
}
