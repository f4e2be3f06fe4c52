/** `formatDuration` from the shared helpers: a number of seconds as an `MM:SS` display. */
module Duration {
  import opened Common
  import opened Clock


  /** `formatDuration(seconds)`: whole minutes and the whole part of the
      truncating remainder modulo 60, both zero-padded to two digits. `None`
      stands for `undefined`/`null`; both it and `0` are falsy and give
      `"00:00"`. */
  function FormatDuration(seconds: Option<real>): (r: string)
    ensures seconds.None? || seconds == Some(0.0) ==> r == "00:00"
  {
    match seconds
    case None => "00:00"
    case Some(s) =>
      if s == 0.0 then "00:00" else PaddedClock(WholeMinutes(s), WholeSeconds(s))
  }

  /** `Math.floor(seconds / 60)`: for a non-negative number, the whole minutes
      of its whole part. */
  function WholeMinutes(s: real): (m: int)
    ensures s >= 0.0 ==> m == s.Floor / 60
  {
    var m := (s / 60.0).Floor;
    if s >= 0.0 then FloorSplit(s); m else m
  }

  /** `Math.floor(seconds % 60)` with the truncating remainder: for a
      non-negative number, the leftover whole seconds of its whole part; for a
      negative one, a value in `-60..0`. */
  function WholeSeconds(s: real): (sec: int)
    ensures s >= 0.0 ==> sec == s.Floor % 60
    ensures s < 0.0 ==> -60 <= sec <= 0
  {
    var sec := JsRemainder60(s).Floor;
    if s >= 0.0 then FloorSplit(s); sec else sec
  }

  /** For a non-negative number, the two fields of the display are the whole
      minutes and the leftover whole seconds of `floor(s)`. */
  lemma FloorSplit(s: real)
    requires s >= 0.0
    ensures (s / 60.0).Floor == s.Floor / 60
    ensures JsRemainder60(s).Floor == s.Floor % 60
  {
    var m := (s / 60.0).Floor;
    assert 60.0 * (m as real) <= s < 60.0 * (m as real) + 60.0;
  }

  /** A non-negative duration is displayed as the padded clock of the minutes
      and seconds of its whole part; zero too, although it takes the falsy
      shortcut. */
  lemma FormatDurationIsClock(s: real)
    requires s >= 0.0
    ensures FormatDuration(Some(s)) == PaddedClock(s.Floor / 60, s.Floor % 60)
  {
    if s == 0.0 {
      PaddedClockOfZero();
    }
  }

  /** The display of a non-negative duration: the minutes field is the full
      numeral of `floor(s) / 60` padded to two digits, never cut short; the
      seconds field is exactly the two digits of `floor(s) % 60`. */
  lemma FormatDurationFields(s: real)
    requires s >= 0.0
    ensures SplitsAsClock(FormatDuration(Some(s)), PadStart(NatToDecimal(s.Floor / 60), 2, '0'),
                          PadStart(NatToDecimal(s.Floor % 60), 2, '0'))
  {
    var n := s.Floor;
    var m, sec := n / 60, n % 60;
    var mf, sf := PadStart(NatToDecimal(m), 2, '0'), PadStart(NatToDecimal(sec), 2, '0');
    FormatDurationIsClock(s);
    PaddedClockOfNats(m, sec);
    TwoFieldShape(FormatDuration(Some(s)), mf, sf);
  }

  /** `r` is the field `a` of at least two characters, a colon, and the
      two-character field `b`. */
  predicate SplitsAsClock(r: string, a: string, b: string) {
    |r| >= 5 && r[|r| - 3] == ':' && r[..|r| - 3] == a && r[|r| - 2..] == b
  }

  /** `a:b` with a two-character `b`, taken apart from the right. */
  lemma TwoFieldShape(r: string, a: string, b: string)
    requires |a| >= 2 && |b| == 2 && r == a + ":" + b
    ensures SplitsAsClock(r, a, b)
  {
    ColonJoin(a, b);
  }

  /** Read back as a clock, the display of a non-negative duration gives
      seconds in `0..59` and minutes that, times 60 plus the seconds, make
      `floor(s)`. */
  lemma FormatDurationReadsBack(s: real)
    requires s >= 0.0
    ensures ParseClock(FormatDuration(Some(s))).Some?
    ensures var (m, sec) := ParseClock(FormatDuration(Some(s))).value;
            m * 60 + sec == s.Floor && sec < 60
  {
    var n := s.Floor;
    FormatDurationIsClock(s);
    PaddedClockReadsBack(n / 60, n % 60);
    assert (n / 60) * 60 + n % 60 == n;
  }

  /** Negative durations are not guarded against: both fields carry a minus
      sign, because JavaScript's `%` keeps the sign of the dividend. */
  lemma FormatDurationNegative(s: real)
    requires s == -30.0
    ensures FormatDuration(Some(s)) == "-1:-30"
  {
    NegativeThirtyFields(s);
    PaddedClockOfMinusThirty();
  }

  lemma NegativeThirtyFields(s: real)
    requires s == -30.0
    ensures (s / 60.0).Floor == -1 && JsRemainder60(s).Floor == -30
  {
    assert s / 60.0 == -0.5;
    assert Trunc(s / 60.0) == 0;
  }
}
