/** The dashboard's colour-distribution pie: one slice per colour key of the
    analysis, named with a capital, sized by its count and filled from a fixed
    table. */
module ColorDistribution {
  import opened Common
  import ColorNames
  import opened Summary

  /** The component's `colorMap`, looked up by the raw key. */
  function SliceTable(key: string): (r: Option<string>)
    ensures r.Some? ==> ColorNames.IsHexColor(r.value)
  {
    match key
    case "red" => Some("#ef4444")
    case "blue" => Some("#3b82f6")
    case "green" => Some("#10b981")
    case "yellow" => Some("#eab308")
    case "white" => Some("#e5e7eb")
    case "black" => Some("#1f2937")
    case "gray" => Some("#6b7280")
    case "orange" => Some("#f97316")
    case "purple" => Some("#a855f7")
    case "brown" => Some("#92400e")
    case _ => None
  }

  const OtherSliceColor := "#9ca3af"

  /** `colorMap[color] || '#9ca3af'`: the table's colour for the exact key,
      else neutral gray. */
  function SliceColor(key: string): (c: string)
    ensures ColorNames.IsHexColor(c)
    ensures SliceTable(key).Some? ==> c == SliceTable(key).value
    ensures SliceTable(key).None? ==> c == OtherSliceColor
  {
    match SliceTable(key)
    case Some(c) => c
    case None => OtherSliceColor
  }

  /** `charAt(0).toUpperCase() + slice(1)`: the first character upper-cased,
      the rest as it was; the empty key stays empty. */
  function Capitalize(key: string): (r: string)
    ensures |r| == |key|
    ensures key != "" ==> r[0] == UpperChar(key[0]) && r[1..] == key[1..]
  {
    if key == "" then "" else [UpperChar(key[0])] + key[1..]
  }

  /** A key already in lower case is recovered from its slice name. */
  lemma CapitalizeLowerRoundTrip(key: string)
    requires forall i :: 0 <= i < |key| ==> !('A' <= key[i] <= 'Z')
    ensures ToLower(Capitalize(key)) == key
  {
    var r := Capitalize(key);
    forall i | 0 <= i < |key|
      ensures ToLower(r)[i] == key[i]
    {
      if i > 0 {
        assert r[i] == key[1..][i - 1];
      }
    }
  }

  /** One pie slice. */
  datatype Slice = Slice(name: string, value: int, color: string)

  /** The map callback: one entry becomes one slice, with a name as long as
      the key, the count unchanged and a hex fill. */
  function SliceOf(entry: (string, int)): (sl: Slice)
    ensures |sl.name| == |entry.0| && sl.value == entry.1
    ensures ColorNames.IsHexColor(sl.color)
  {
    Slice(Capitalize(entry.0), entry.1, SliceColor(entry.0))
  }

  /** The pie's `chartData`: one slice per entry, in entry order, with the
      capitalised key as name, the count unchanged and the key's colour. No
      record or no distribution gives no slices. */
  function ChartData(data: Option<AnalysisSummary>): (r: seq<Slice>)
    ensures data.None? || data.value.colorDistribution.None? ==> r == []
    ensures data.Some? && data.value.colorDistribution.Some? ==>
              var entries := data.value.colorDistribution.value;
              && |r| == |entries|
              && forall i :: 0 <= i < |r| ==>
                   && r[i].name == Capitalize(entries[i].0)
                   && r[i].value == entries[i].1
                   && r[i].color == SliceColor(entries[i].0)
    ensures forall i :: 0 <= i < |r| ==> ColorNames.IsHexColor(r[i].color)
  {
    match data
    case None => []
    case Some(d) =>
      match d.colorDistribution
      case None => []
      case Some(entries) => seq(|entries|, i requires 0 <= i < |entries| => SliceOf(entries[i]))
  }

  /** The lookup is by the raw key, so case matters: `red` is red, `Red` is
      the neutral gray, yet both are named `Red`. */
  lemma LookupIsCaseSensitive()
    ensures SliceColor("red") == "#ef4444" && SliceColor("Red") == OtherSliceColor
    ensures Capitalize("red") == "Red" && Capitalize("Red") == "Red"
  {
  }

  /** Splitting the entries splits the slices the same way, whatever the
      timeline beside them. */
  lemma ChartDataConcat(t: Option<seq<TimelinePoint>>, a: seq<(string, int)>, b: seq<(string, int)>)
    ensures ChartData(Some(AnalysisSummary(t, Some(a + b))))
            == ChartData(Some(AnalysisSummary(t, Some(a)))) + ChartData(Some(AnalysisSummary(t, Some(b))))
  {
    var l := ChartData(Some(AnalysisSummary(t, Some(a + b))));
    var r := ChartData(Some(AnalysisSummary(t, Some(a)))) + ChartData(Some(AnalysisSummary(t, Some(b))));
    forall i | 0 <= i < |l|
      ensures l[i] == r[i]
    {
      if i >= |a| {
        assert (a + b)[i] == b[i - |a|];
      }
    }
  }
}
