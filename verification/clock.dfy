/** Clock displays `M:SS` built from whole minutes and seconds, and their reading back. */
module Clock {
  import opened Common

  /** Two numbers as `"MM:SS"`: each rendered in decimal and zero-padded to at
      least two characters, joined by a colon. */
  function PaddedClock(minutes: int, secs: int): string
  {
    PadStart(IntToDecimal(minutes), 2, '0') + ":" + PadStart(IntToDecimal(secs), 2, '0')
  }

  /** For non-negative fields the numerals carry no sign. */
  lemma PaddedClockOfNats(m: nat, sec: nat)
    ensures PaddedClock(m, sec) == PadStart(NatToDecimal(m), 2, '0') + ":" + PadStart(NatToDecimal(sec), 2, '0')
  {
  }

  /** A zero-padded numeral of a non-negative number reads back as it. */
  lemma PaddedFieldParses(n: nat)
    ensures AllDigits(PadStart(NatToDecimal(n), 2, '0'))
    ensures ParseDigits(PadStart(NatToDecimal(n), 2, '0')) == n
  {
    PadStartZeroParses(NatToDecimal(n), 2);
    ParseNatToDecimal(n);
  }

  /** The padded clock of non-negative minutes and of seconds below 60: the
      minutes field is the whole numeral padded to two digits (never cut
      short), then a colon, then exactly two digits of seconds. */
  lemma PaddedClockFields(m: nat, sec: nat)
    requires sec < 60
    ensures var r := PaddedClock(m, sec);
            && |r| >= 5 && r[|r| - 3] == ':'
            && r[..|r| - 3] == PadStart(NatToDecimal(m), 2, '0')
            && r[|r| - 2..] == PadStart(NatToDecimal(sec), 2, '0')
  {
    var mf := PadStart(NatToDecimal(m), 2, '0');
    var sf := PadStart(NatToDecimal(sec), 2, '0');
    assert |sf| == 2;
    ColonJoin(mf, sf);
    assert PaddedClock(m, sec) == mf + ":" + sf;
  }

  /** Reading the padded clock back gives the minutes and seconds. */
  lemma PaddedClockReadsBack(m: nat, sec: nat)
    requires sec < 60
    ensures ParseClock(PaddedClock(m, sec)) == Some((m, sec))
  {
    var mf := PadStart(NatToDecimal(m), 2, '0');
    var sf := PadStart(NatToDecimal(sec), 2, '0');
    PaddedFieldParses(m);
    PaddedFieldParses(sec);
    assert |sf| == 2;
    ClockFields(mf, sf);
    assert PaddedClock(m, sec) == mf + ":" + sf;
  }

  /** Negative fields keep their minus sign and are long enough not to be
      padded. */
  lemma PaddedClockOfMinusThirty()
    ensures PaddedClock(-1, -30) == "-1:-30"
  {
    assert NatToDecimal(1) == "1";
    assert NatToDecimal(30) == NatToDecimal(3) + "0";
    assert PadStart("-1", 2, '0') == "-1";
    assert PadStart("-30", 2, '0') == "-30";
  }

  /** Zero minutes and zero seconds are `00:00`. */
  lemma PaddedClockOfZero()
    ensures PaddedClock(0, 0) == "00:00"
  {
    assert NatToDecimal(0) == "0";
    assert PadStart("0", 2, '0') == "00";
  }
}
