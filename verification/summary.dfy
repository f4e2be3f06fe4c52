/** The analysis page's `summary` record, as far as the dashboard charts read
    it. Both charts are handed the same record. */
module Summary {
  import opened Common

  /** One bar group of the timeline: a time in whole seconds and the counts
      plotted at it. */
  datatype TimelinePoint = TimelinePoint(timestamp: int, vehicles: int, persons: int)

  /** The timeline series and the colour counts, each possibly missing. The
      counts are listed in the order `Object.entries` gives them. */
  datatype AnalysisSummary = AnalysisSummary(
    timelineData: Option<seq<TimelinePoint>>,
    colorDistribution: Option<seq<(string, int)>>)
}
