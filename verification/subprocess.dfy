/** What one `subprocess.run([sys.executable, script])` call can come back
    with, as seen by the two pipeline drivers. The child process itself is
    not modelled: each driver receives its outcomes as a parameter. */
module Subprocess {
  datatype Outcome =
    | Exited(returnCode: int, stdout: string, stderr: string)
    | Raised(message: string)

  /** Both drivers count a run as successful exactly when the child exits
      with return code 0; a raised exception never counts. */
  predicate Succeeded(o: Outcome) {
    o.Exited? && o.returnCode == 0
  }
}
