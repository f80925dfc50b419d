/** What the harness sees of an external process: the argument vector and
    working directory it launches, and the outcome it observes. */
module Process {

  /** One launch: `argv[0]` is the executable, `cwd` the working directory. */
  datatype Call = Call(argv: seq<string>, cwd: string)

  /** `NotLaunched` is the `OSError` Python raises when the executable cannot
      be started; otherwise the exit status and captured standard output. */
  datatype Outcome = Exited(code: int, stdout: string) | NotLaunched
}
