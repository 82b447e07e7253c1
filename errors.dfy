// The error kinds of the build tool and the result type every fallible
// operation of the model returns.

module Errors {

  datatype Option<+T> = None | Some(value: T)

  /** One variant per error kind of the build tool. Paths are plain strings.
      A cycle is kept as the list of task names on it; the tool shows it to
      the user joined with " → " (see CycleMessage). */
  datatype ForgeError =
    | ConfigNotFound(path: string)
    | ConfigParseError(message: string)
    | ConfigMissingField(field: string)
    | UnsupportedLanguage(lang: string)
    | CyclicDependency(cycle: seq<string>)
    | TaskNotFound(taskName: string)
    | TaskFailed(taskName: string, exitCode: int)
    | CommandNotFound(command: string)
    | TaskTimeout(taskName: string, seconds: nat)
    | DependencyResolutionFailed(dependency: string)
    | DownloadError(url: string, message: string)
    | IoError(path: string, message: string)
    | CacheCorrupted(path: string)

  datatype Result<+T> = Ok(value: T) | Err(error: ForgeError)

  /** The cycle joined into the chain the user sees: "a → b → c → a". */
  function CycleMessage(cycle: seq<string>): string
  {
    if |cycle| == 0 then ""
    else if |cycle| == 1 then cycle[0]
    else cycle[0] + " → " + CycleMessage(cycle[1..])
  }

  /** The outcome of a file-system step whose only result is success or an
      error message. */
  datatype IoOutcome = Succeeded | Failed(message: string)

  /** `StatusCode::is_success`: the 2xx range. */
  predicate IsSuccess(status: nat)
  {
    200 <= status <= 299
  }
}
