/** The external scanner as seen by the stage executors: a command goes in, an outcome comes out. */
module Subprocess {
  import opened Wrappers
  import opened Errors

  /** An argument vector, as handed to subprocess.run with shell=False. */
  type Command = seq<string>

  /** What subprocess.run yields within its 300-second limit: an exit code and the captured
      standard output, or the limit was reached (TimeoutExpired). */
  datatype Outcome = Exit(code: int, stdout: string) | Timeout

  /** The external scanner: which outcome each command has. */
  type Runner = Command -> Outcome

  /** The result of one executor call together with the commands it ran, in order. */
  datatype Invoked<T> = Invoked(result: Result<T, Error>, commands: seq<Command>)
}
