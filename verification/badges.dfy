/**
 * The status and grade badges of the call table: which colour classes and
 * which label a call's status and grade get.
 */
module Badges {
  import opened Wrappers
  import opened JsString

  const EmeraldBadge: string := "bg-emerald-50 text-emerald-700 ring-emerald-600/20"
  const BlueBadge: string := "bg-blue-50 text-blue-700 ring-blue-600/20"
  const RoseBadge: string := "bg-rose-50 text-rose-700 ring-rose-600/20"
  const GrayStatusBadge: string := "bg-gray-50 text-gray-700 ring-gray-600/20"
  const GrayGradeBadge: string := "bg-gray-50 text-gray-600 ring-gray-500/20"

  /** `getStatusColor(status)`: the switch on the lower-cased status. */
  function StatusColor(status: string): (r: string)
    ensures r == EmeraldBadge <==> ToLower(status) == "completed"
    ensures r == BlueBadge <==> ToLower(status) == "in progress"
    ensures r == RoseBadge <==> ToLower(status) == "failed"
    ensures r == GrayStatusBadge <==>
              ToLower(status) !in {"completed", "in progress", "failed"}
  {
    match ToLower(status)
    case "completed" => EmeraldBadge
    case "in progress" => BlueBadge
    case "failed" => RoseBadge
    case _ => GrayStatusBadge
  }

  /** Statuses that differ only in letter case get the same badge. */
  lemma StatusColorIgnoresCase(a: string, b: string)
    requires |a| == |b|
    requires forall i :: 0 <= i < |a| ==> LowerChar(a[i]) == LowerChar(b[i])
    ensures StatusColor(a) == StatusColor(b)
  {
    assert ToLower(a) == ToLower(b);
  }

  /** `getGradeColor(grade)`: `None` stands for `null`. */
  function GradeColor(grade: Option<bool>): (r: string)
    ensures r == EmeraldBadge <==> grade == Some(true)
    ensures r == RoseBadge <==> grade == Some(false)
    ensures r == GrayGradeBadge <==> grade.None?
  {
    match grade
    case Some(true) => EmeraldBadge
    case Some(false) => RoseBadge
    case None => GrayGradeBadge
  }

  /** The text inside the grade badge. */
  function GradeLabel(grade: Option<bool>): (r: string)
    ensures r in {"Pass", "Fail", "N/A"}
    ensures r == "Pass" <==> grade == Some(true)
    ensures r == "N/A" <==> grade.None?
  {
    match grade
    case Some(true) => "Pass"
    case Some(false) => "Fail"
    case None => "N/A"
  }

  /**
   * The grade label and colour always agree, and a pass or fail shares its
   * colour with a completed or failed status.
   */
  lemma GradeBadgeConsistent(grade: Option<bool>)
    ensures GradeLabel(grade) == "Pass" <==> GradeColor(grade) == StatusColor("completed")
    ensures GradeLabel(grade) == "Fail" <==> GradeColor(grade) == StatusColor("failed")
    ensures GradeLabel(grade) == "N/A" <==> GradeColor(grade) == GrayGradeBadge
  {
    assert ToLower("completed") == "completed";
    assert ToLower("failed") == "failed";
  }

  /**
   * The statuses the pages feeding this view produce, "Completed" and
   * "In Progress", get the emerald and blue badges; "Failed" gets rose and
   * any other status grey.
   */
  lemma StatusExamples()
    ensures StatusColor("Completed") == EmeraldBadge
    ensures StatusColor("In Progress") == BlueBadge
    ensures StatusColor("Failed") == RoseBadge
    ensures StatusColor("queued") == GrayStatusBadge
  {
    assert ToLower("Completed") == "completed";
    assert ToLower("In Progress") == "in progress";
    assert ToLower("Failed") == "failed";
    assert ToLower("queued") == "queued";
  }
}
