/**
  `getPIDInContainer` (and its copy `GetPIDInContainer`): run a `ps` pipeline
  in the container and take the first whitespace-separated field that
  `strconv.Atoi` accepts as the process id.
*/
module Pid {
  import opened Wrappers
  import opened Effects
  import opened Decimal
  import opened Text
  import Commands

  /** Whether `strconv.Atoi` accepts a field. */
  predicate Accepts(field: string) {
    Atoi(field).Some?
  }

  /**
    The field the search loop stops at: the first one `accepts` holds of, or ""
    when there is none (the loop's zero value).
  */
  function FirstWhere(fields: seq<string>, accepts: string -> bool): (f: string)
    ensures f != "" ==> accepts(f)
    decreases |fields|
  {
    if fields == [] then ""
    else if accepts(fields[0]) then fields[0]
    else FirstWhere(fields[1..], accepts)
  }

  /** The loop stops at the first accepted field, and finds none only when no field is accepted. */
  lemma {:induction false} FirstWhereIsFirst(fields: seq<string>, accepts: string -> bool)
    requires forall i :: 0 <= i < |fields| ==> fields[i] != ""
    ensures FirstWhere(fields, accepts) == "" <==> forall i :: 0 <= i < |fields| ==> !accepts(fields[i])
    ensures FirstWhere(fields, accepts) != "" ==>
      exists i :: 0 <= i < |fields| && fields[i] == FirstWhere(fields, accepts)
        && forall j :: 0 <= j < i ==> !accepts(fields[j])
    decreases |fields|
  {
    if fields != [] && !accepts(fields[0]) {
      var rest := fields[1..];
      FirstWhereIsFirst(rest, accepts);
      if FirstWhere(rest, accepts) != "" {
        var i :| 0 <= i < |rest| && rest[i] == FirstWhere(rest, accepts)
          && forall j :: 0 <= j < i ==> !accepts(rest[j]);
        assert fields[i + 1] == rest[i];
        forall j | 0 <= j < i + 1
          ensures !accepts(fields[j])
        {
          if j > 0 {
            assert fields[j] == rest[j - 1];
          }
        }
      } else {
        forall i | 0 <= i < |fields|
          ensures !accepts(fields[i])
        {
          if i > 0 {
            assert fields[i] == rest[i - 1];
          }
        }
      }
    }
  }

  /**
    The parsing half of `getPIDInContainer`: "no process found" when no field
    parses, otherwise the value of the first field that does. The
    "failed to parse PID" branch re-parses a field already accepted, so it is
    never taken.
  */
  function PidFromOutput(processName: string, output: string): (r: Status<int>)
    ensures !r.Waiting?
    ensures !(r.Err? && r.error.BadPid?)
    ensures r.Ok? ==> InIntRange(r.value)
  {
    var fields := Fields(output);
    var pidStr := FirstWhere(fields, Accepts);
    if pidStr == "" then Err(NoProcess(processName, output))
    else
      match Atoi(pidStr)
      case None => Err(BadPid(pidStr))
      case Some(pid) => Ok(pid)
  }

  /** Unfolds the definition of `PidFromOutput`: a proof step for `PidFromOutputFirstField`. */
  lemma PidFromOutputShape(processName: string, output: string)
    ensures var f := FirstWhere(Fields(output), Accepts);
      PidFromOutput(processName, output)
        == if f == "" then Err(NoProcess(processName, output)) else Ok(Atoi(f).value)
  {
  }

  /**
    The pid is the value of the first field `Atoi` accepts, and there is a pid
    exactly when some field is accepted; with none, the error is "no process found".
  */
  lemma PidFromOutputFirstField(processName: string, output: string)
    ensures var fields := Fields(output);
      && (PidFromOutput(processName, output) == Err(NoProcess(processName, output))
          <==> forall i :: 0 <= i < |fields| ==> !Accepts(fields[i]))
      && (PidFromOutput(processName, output).Ok? <==> exists i :: 0 <= i < |fields| && Accepts(fields[i]))
      && (PidFromOutput(processName, output).Ok? ==>
          exists i :: 0 <= i < |fields| && Atoi(fields[i]) == Some(PidFromOutput(processName, output).value)
            && forall j :: 0 <= j < i ==> !Accepts(fields[j]))
  {
    var fields := Fields(output);
    FirstWhereIsFirst(fields, Accepts);
    PidFromOutputShape(processName, output);
    var f := FirstWhere(fields, Accepts);
    if f != "" {
      var i :| 0 <= i < |fields| && fields[i] == f && forall j :: 0 <= j < i ==> !Accepts(fields[j]);
      assert Atoi(fields[i]) == Some(Atoi(f).value);
    }
  }

  lemma AtoiOf1234()
    ensures Atoi("1234") == Some(1234)
  {
    assert NatDigits(1234) == "1234";
    NatDigitsValue(1234);
    assert Unsigned("1234") == "1234";
  }

  /** The unit test's `ps` line, "1234 root      0:00 test-process\n", yields pid 1234. */
  lemma PidOfTestLine()
    ensures PidFromOutput("test-process", "1234" + " root      0:00 test-process\n") == Ok(1234)
  {
    var rest := " root      0:00 test-process\n";
    FieldsLeadingWord("1234", rest);
    AtoiOf1234();
  }

  /**
    `getPIDInContainer`: one exec of the `ps` pipeline; an exec error is wrapped
    and returned with no pid, otherwise the output is parsed.
  */
  function GetPidInContainer(processName: string, exec: Exec): (r: Traced<int>)
    ensures r.calls == [ExecCall(Commands.PsArgv(processName))]
    ensures exec(Commands.PsArgv(processName)).ExecErr? ==>
      r.status == Err(ExecFailed(exec(Commands.PsArgv(processName)).cause))
    ensures exec(Commands.PsArgv(processName)).ExecOk? ==>
      r.status == PidFromOutput(processName, exec(Commands.PsArgv(processName)).output)
  {
    var argv := Commands.PsArgv(processName);
    match exec(argv)
    case ExecErr(cause) => Traced([ExecCall(argv)], Err(ExecFailed(cause)))
    case ExecOk(output) => Traced([ExecCall(argv)], PidFromOutput(processName, output))
  }
}
