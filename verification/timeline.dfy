/** The dashboard's timeline bar chart: the series it plots and the `M:SS`
    labels of its time axis and tooltip. Timestamps are whole seconds. */
module TimelineChart {
  import opened Common
  import opened Summary

  /** `data?.timeline_data || []`: no record or no series plots nothing. */
  function ChartData(data: Option<AnalysisSummary>): (r: seq<TimelinePoint>)
    ensures data.None? || data.value.timelineData.None? ==> r == []
    ensures data.Some? && data.value.timelineData.Some? ==> r == data.value.timelineData.value
  {
    match data
    case None => []
    case Some(d) => match d.timelineData case None => [] case Some(points) => points
  }

  /** A note that follows from the contract of `ChartData`: the series does
      not depend on the colour counts in the same record, and it keeps its
      length. */
  lemma ChartDataReadsOnlyTimeline(t: seq<TimelinePoint>, c1: Option<seq<(string, int)>>,
                                   c2: Option<seq<(string, int)>>)
    ensures ChartData(Some(AnalysisSummary(Some(t), c1))) == ChartData(Some(AnalysisSummary(Some(t), c2)))
    ensures |ChartData(Some(AnalysisSummary(Some(t), c1)))| == |t|
  {
  }

  /** `formatTime`: the floored minutes in plain decimal, a colon, and the
      truncating remainder by 60 zero-padded to two characters. For a
      non-negative time it reads back as the minutes and the seconds. */
  function FormatTime(seconds: int): (r: string)
    ensures seconds >= 0 ==> ParseClock(r) == Some((seconds / 60, seconds % 60))
  {
    var mins := seconds / 60;
    var secs := JsIntRemainder60(seconds);
    var r := IntToDecimal(mins) + ":" + PadStart(IntToDecimal(secs), 2, '0');
    if seconds < 0 then r else MinutesSecondsReadBack(mins, secs); r
  }

  lemma MinutesSecondsReadBack(m: nat, sec: nat)
    ensures ParseClock(NatToDecimal(m) + ":" + PadStart(NatToDecimal(sec), 2, '0')) == Some((m, sec))
  {
    ParseNatToDecimal(m);
    ParseNatToDecimal(sec);
    PadStartZeroParses(NatToDecimal(sec), 2);
    ParseClockJoin(NatToDecimal(m), PadStart(NatToDecimal(sec), 2, '0'));
  }

  /** The label's shape for a non-negative time: the minutes numeral unpadded
      and never cut short, a colon, and exactly two digits of seconds, which
      together give back the time. */
  lemma FormatTimeFields(seconds: nat)
    ensures var r := FormatTime(seconds);
            && |r| >= 4 && r[|r| - 3] == ':'
            && r[..|r| - 3] == NatToDecimal(seconds / 60)
            && AllDigits(r[|r| - 2..])
            && ParseDigits(r[..|r| - 3]) * 60 + ParseDigits(r[|r| - 2..]) == seconds
  {
    var m, sec := seconds / 60, seconds % 60;
    var mf, sf := NatToDecimal(m), PadStart(NatToDecimal(sec), 2, '0');
    FormatTimeIsJoin(seconds);
    ParseNatToDecimal(m);
    ParseNatToDecimal(sec);
    PadStartZeroParses(NatToDecimal(sec), 2);
    UnpaddedClockFields(FormatTime(seconds), mf, sf, m, sec);
  }

  /** For a non-negative time the label joins the plain numerals of the
      Euclidean quotient and remainder. */
  lemma FormatTimeIsJoin(seconds: nat)
    ensures FormatTime(seconds) == NatToDecimal(seconds / 60) + ":" + PadStart(NatToDecimal(seconds % 60), 2, '0')
  {
  }

  /** A minutes numeral, a colon and two seconds digits, taken apart and read
      back. */
  lemma UnpaddedClockFields(r: string, mf: string, sf: string, m: nat, sec: nat)
    requires |mf| >= 1 && AllDigits(mf) && ParseDigits(mf) == m
    requires |sf| == 2 && AllDigits(sf) && ParseDigits(sf) == sec
    requires r == mf + ":" + sf
    ensures && |r| >= 4 && r[|r| - 3] == ':' && r[..|r| - 3] == mf && r[|r| - 2..] == sf
            && AllDigits(r[|r| - 2..])
            && ParseDigits(r[..|r| - 3]) * 60 + ParseDigits(r[|r| - 2..]) == m * 60 + sec
  {
    ColonJoin(mf, sf);
  }

  /** Ninety seconds is `1:30`. */
  lemma FormatTimeNinety(s: int)
    requires s == 90
    ensures FormatTime(s) == "1:30"
  {
    assert s / 60 == 1 && JsIntRemainder60(s) == 30;
    assert NatToDecimal(1) == "1" && NatToDecimal(30) == "30";
  }

  /** A minute past the hour is `61:00`: the minutes are not wrapped into
      hours. */
  lemma FormatTimeHour(s: int)
    requires s == 3660
    ensures FormatTime(s) == "61:00"
  {
    assert s / 60 == 61 && JsIntRemainder60(s) == 0;
    assert NatToDecimal(61) == "61" && NatToDecimal(0) == "0";
    assert PadStart("0", 2, '0') == "00";
  }

  /** A negative time keeps the minus sign in both fields, as the truncating
      remainder gives: `-30` is `-1:-30`. */
  lemma FormatTimeNegative(s: int)
    requires s == -30
    ensures FormatTime(s) == "-1:-30"
  {
    NegativeNumerals();
    assert s / 60 == -1 && JsIntRemainder60(s) == -30;
  }

  lemma NegativeNumerals()
    ensures IntToDecimal(-1) == "-1" && IntToDecimal(-30) == "-30"
    ensures PadStart("-30", 2, '0') == "-30"
  {
    assert NatToDecimal(1) == "1" && NatToDecimal(30) == "30";
  }

  /** The tooltip's label: `Time: ` and the formatted time. */
  function TooltipLabel(value: int): (r: string)
    ensures |r| >= 6 && r[..6] == "Time: "
    ensures value >= 0 ==> ParseClock(r[6..]) == Some((value / 60, value % 60))
  {
    var t := FormatTime(value);
    assert ("Time: " + t)[6..] == t;
    "Time: " + t
  }
}
