/**
  The dumper's view of its collaborators: the Docker Engine calls become
  outcomes handed to the model, and every call the model makes is logged so
  that contracts can say which commands were issued, in which order.
*/
module Effects {

  /** A command line executed inside the target container. */
  type Argv = seq<string>

  /**
    What executing a command inside the container returned. `ExecErr` is a
    failed Docker API round trip (create, start, decode or read); the command's
    exit status is never read, so a command that exits non-zero is `ExecOk`.
  */
  datatype ExecOutcome = ExecOk(output: string) | ExecErr(cause: string)

  /** The container's answer to every command it may be asked to run during one call. */
  type Exec = Argv -> ExecOutcome

  /** One call to the container runtime. */
  datatype Call =
    | SampleCall                          // a stats request
    | ExecCall(argv: Argv)                // an exec request
    | CopyCall(src: string, dst: string)  // an archive request, written to a host file

  /** The errors the core returns, one per `fmt.Errorf` site that matters for control flow. */
  datatype Error =
    | ExecFailed(cause: string)                     // running a command failed
    | InstallFailed(tool: string, cause: string)    // "error installing <tool>"
    | UnsupportedTool(tool: string)                 // "unsupported dump tool: <tool>"
    | UnsupportedDumpTool                           // "unsupported dump tool"
    | NoProcess(processName: string, output: string)
    | BadPid(field: string)                         // "failed to parse PID"
    | SampleFailed(cause: string)                   // "failed to get memory usage"

  /** A finished call with a value or an error, or one still waiting for memory to grow. */
  datatype Status<+T> = Ok(value: T) | Err(error: Error) | Waiting

  /** The calls an operation made, and what it returned. */
  datatype Traced<+T> = Traced(calls: seq<Call>, status: Status<T>)

  /** No call in the log is a copy to the host. */
  predicate NoCopies(calls: seq<Call>) {
    forall i :: 0 <= i < |calls| ==> !calls[i].CopyCall?
  }

  /** The number of copies to the host in a call log. */
  function CopyCount(calls: seq<Call>): (n: nat)
    ensures n <= |calls|
    ensures n == 0 <==> NoCopies(calls)
  {
    if calls == [] then 0
    else (if calls[|calls| - 1].CopyCall? then 1 else 0) + CopyCount(calls[..|calls| - 1])
  }

  lemma {:induction false} CopyCountAppend(a: seq<Call>, b: seq<Call>)
    ensures CopyCount(a + b) == CopyCount(a) + CopyCount(b)
    decreases |b|
  {
    if b == [] {
      assert a + b == a;
    } else {
      assert (a + b)[..|a + b| - 1] == a + b[..|b| - 1];
      CopyCountAppend(a, b[..|b| - 1]);
    }
  }
}
