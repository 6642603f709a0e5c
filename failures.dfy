/** What an output parser reports about a failed step. */
module Failures {
  import opened Wrappers

  /**
   * A parsed failure: the status message and, when the tool reported them, the numbers of
   * errors and of warnings (an absent field is `None`).
   */
  datatype ParsedFailure = ParsedFailure(message: string, errors: Option<nat>, warnings: Option<nat>)
}
