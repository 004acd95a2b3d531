/**
 * Interpretation of the exit code of `taskkill /IM SourceTree.exe`
 * (src/sourcetree_actions.rs). Running the command is not modelled.
 */
module SourceTreeActions {
  import opened Wrappers

  /** A process exit code as the operating system reports it. */
  newtype i32 = x: int | -0x8000_0000 <= x < 0x8000_0000

  /** The exit code with which `taskkill` reports that no such process was running. */
  const PROCESS_NOT_FOUND: i32 := 128

  datatype CloseResult = Closed | ProcessNotRunning

  /** Why closing failed: an unexpected exit code, or none at all (killed by a signal). */
  datatype CloseError = UnknownExitCode(code: i32) | NoExitCode

  /**
   * The `match` in `close_sourcetree`: 0 means the host application was
   * closed, 128 that it was not running (not an error), and any other code,
   * or no code, is an error.
   */
  function ClassifyExitCode(code: Option<i32>): (r: Result<CloseResult, CloseError>)
    ensures r == Success(Closed) <==> code == Some(0)
    ensures r == Success(ProcessNotRunning) <==> code == Some(PROCESS_NOT_FOUND)
    ensures r.Failure? <==> code != Some(0) && code != Some(PROCESS_NOT_FOUND)
    ensures r.Failure? && code.Some? ==> r.error == UnknownExitCode(code.value)
    ensures code.None? ==> r == Failure(NoExitCode)
  {
    match code
    case Some(0) => Success(Closed)
    case Some(128) => Success(ProcessNotRunning)
    case Some(c) => Failure(UnknownExitCode(c))
    case None => Failure(NoExitCode)
  }
}
