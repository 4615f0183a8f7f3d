/** The shared error handler: an error notification unless the caller opted
    out, and a diagnostic log line in every case. */
module Notify {
  import opened Wrappers
  import opened Types

  /** `showError` defaults to true when absent; only an explicit `false` mutes. */
  predicate ShowsError(showError: Option<bool>) {
    showError != Some(false)
  }

  /** The effects of reporting `error`. */
  function ReportError(error: NormalizedError, showError: Option<bool>): (effects: seq<Effect>)
    ensures |effects| > 0 && effects[|effects| - 1] == Log(error)
    ensures ErrorToast(error.message) in effects <==> ShowsError(showError)
    ensures forall e :: e in effects ==> e == ErrorToast(error.message) || e == Log(error)
    ensures ShowIndicator !in effects && CloseIndicator !in effects
  {
    (if ShowsError(showError) then [ErrorToast(error.message)] else []) + [Log(error)]
  }

  /** Muting the notification removes exactly the toast: the log stays. */
  lemma MutingKeepsLog(error: NormalizedError)
    ensures ReportError(error, Some(false)) == [Log(error)]
    ensures ReportError(error, None) == ReportError(error, Some(true)) == [ErrorToast(error.message), Log(error)]
  {
  }
}
