/** The external `datasphere` executable, seen from the gateway. What a
    command prints and returns is not computed here: the shell answers from a
    fixed oracle, indexed by the position of the call and the command text,
    and records every command string it is given, in order. */
module Process {

  /** `subprocess.CompletedProcess`: exit status and captured output. */
  datatype Completed = Completed(returncode: int, stdout: string, stderr: string)

  class Shell {
    /** Every command string run so far, oldest first. */
    var issued: seq<string>
    /** What the `n`-th command run in this shell returns. */
    const outcomes: (nat, string) -> Completed

    constructor (outcomes: (nat, string) -> Completed)
      ensures issued == [] && this.outcomes == outcomes
    {
      issued := [];
      this.outcomes := outcomes;
    }

    /** `subprocess.run(command, shell=True, capture_output=True, text=True)`. */
    method Run(command: string) returns (c: Completed)
      modifies this
      ensures issued == old(issued) + [command]
      ensures c == outcomes(|old(issued)|, command)
    {
      c := outcomes(|issued|, command);
      issued := issued + [command];
    }
  }
}
