/** The lifecycle of one entry (domain/execution/status.go). */
module Statuses {

  datatype EntryStatus = Pending | Running | Succeeded | Failed | Canceled | Aborted | Skipped
  {
    predicate Terminal() {
      !Pending? && !Running?
    }

    predicate CanTransitionTo(to: EntryStatus) {
      match this
      case Pending => to.Running? || to.Failed? || to.Canceled? || to.Skipped?
      case Running => to.Succeeded? || to.Failed? || to.Canceled? || to.Aborted?
      case _ => false
    }

    /** The persisted spelling. */
    function Wire(): (s: string)
      ensures |s| < 20
    {
      match this
      case Pending => "PENDING"
      case Running => "RUNNING"
      case Succeeded => "SUCCEEDED"
      case Failed => "FAILED"
      case Canceled => "CANCELED"
      case Aborted => "ABORTED"
      case Skipped => "SKIPPED"
    }
  }
}
