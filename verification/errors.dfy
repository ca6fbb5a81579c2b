/**
 * Errors of the sidecar core. Go returns `error` values; the model keeps the
 * kind of each error the core itself creates, and wraps the text of every
 * error that comes from a library (git, process execution, duration parsing)
 * in `Foreign`.
 */
module Errors {

  datatype Option<+T> = None | Some(value: T)

  datatype Error =
    | NoMatchRefreshConfig                      // no refresh rule matched the changed files
    | RunCmdFailed(cmd: string, cause: string)  // a command failed; names the command
    | SyncHandlerNotFound(name: string)         // the registry has no handler of that name
    | Foreign(cause: string)                    // an error produced outside the core
    | NonPositiveInterval                       // the panic of `time.NewTicker` on an interval <= 0
  {
    /** The text Go's `Error()` gives for this error. */
    function Message(): string {
      match this
      case NoMatchRefreshConfig => "no match refresh config"
      case RunCmdFailed(cmd, cause) => "run cmd " + cmd + " failed, err: " + cause
      case SyncHandlerNotFound(name) => "sync handler " + name + " not found"
      case Foreign(cause) => cause
      case NonPositiveInterval => "non-positive interval for NewTicker"
    }
  }

  datatype Result<+T> = Success(value: T) | Failure(error: Error)
}
