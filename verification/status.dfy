/** `getStatusColor` from the shared helpers: the badge classes for a video status. */
module StatusBadge {
  import opened Common


  const CompletedClasses := "text-green-600 bg-green-100"
  const ProcessingClasses := "text-blue-600 bg-blue-100"
  const FailedClasses := "text-red-600 bg-red-100"
  const DefaultClasses := "text-gray-600 bg-gray-100"

  /** `getStatusColor(status)`: the badge classes for a video status. */
  function StatusColor(status: Value): (r: string)
    ensures status == Text("completed") <==> r == CompletedClasses
    ensures status == Text("processing") <==> r == ProcessingClasses
    ensures status == Text("failed") <==> r == FailedClasses
    ensures status !in {Text("completed"), Text("processing"), Text("failed")} <==> r == DefaultClasses
  {
    match status
    case Text("completed") => CompletedClasses
    case Text("processing") => ProcessingClasses
    case Text("failed") => FailedClasses
    case _ => DefaultClasses
  }
}
