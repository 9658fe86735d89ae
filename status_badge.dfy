/**
 * The colour classes of the status badge (`getStatusClasses`): a total map
 * from an open status value, possibly `undefined`, to one of three class
 * strings.
 */
module StatusBadge {
  import opened Wrappers
  import JsString

  const DraftClasses: string := "bg-gray-200 text-gray-800"
  const InProgressClasses: string := "bg-yellow-200 text-yellow-800"
  const CompletedClasses: string := "bg-green-200 text-green-800"
  const DefaultClasses: string := "bg-gray-200 text-gray-800"

  /**
   * Only the exact strings "In Progress" and "Completed" are coloured; every
   * other value, "Draft" and `undefined` included, is gray.
   */
  function StatusClasses(status: Option<string>): (r: string)
    ensures r == DraftClasses || r == InProgressClasses || r == CompletedClasses
    ensures r == InProgressClasses <==> status == Some("In Progress")
    ensures r == CompletedClasses <==> status == Some("Completed")
    ensures r == DefaultClasses <==> status != Some("In Progress") && status != Some("Completed")
  {
    if status == Some("Draft") then DraftClasses
    else if status == Some("In Progress") then InProgressClasses
    else if status == Some("Completed") then CompletedClasses
    else DefaultClasses
  }

  /** The cases the component's unit tests pin down. */
  lemma StatusClassesOfTestedValues()
    ensures StatusClasses(Some("Draft")) == "bg-gray-200 text-gray-800"
    ensures StatusClasses(Some("In Progress")) == "bg-yellow-200 text-yellow-800"
    ensures StatusClasses(Some("Completed")) == "bg-green-200 text-green-800"
    ensures StatusClasses(Some("Unknown")) == "bg-gray-200 text-gray-800"
  {
  }

  /**
   * Any drifted status falls back to gray: the drift leaves no upper-case
   * letter and no space, and both coloured statuses have them.
   */
  lemma DriftedStatusIsGray(s: string)
    ensures StatusClasses(Some(JsString.Drift(s))) == DefaultClasses
  {
  }
}
