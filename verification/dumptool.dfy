/**
  One dump cycle's tool steps: `installDumpTool`, `createMemoryDump` with the
  busy-wait of `createDotnetDump`, and the command of `cleanupDumps`.
*/
module DumpTool {
  import opened Wrappers
  import opened Effects
  import opened Memory
  import opened Commands

  /** A command's outcome as a Go `(output, err)` pair read by the caller. */
  function ExecStatus(o: ExecOutcome): (s: Status<string>)
    ensures o.ExecOk? ==> s == Ok(o.output)
    ensures o.ExecErr? ==> s == Err(ExecFailed(o.cause))
  {
    match o
    case ExecOk(output) => Ok(output)
    case ExecErr(cause) => Err(ExecFailed(cause))
  }

  /**
    `installDumpTool`: an unknown tool fails before any command runs; otherwise
    `which <tool>` runs first, and the install command runs only when that exec
    errors, its error becoming the result.
  */
  function InstallDumpTool(dumpTool: string, exec: Exec): (r: Traced<()>)
    ensures !r.status.Waiting?
    ensures r.calls == [] <==> ParseTool(dumpTool).None?
    ensures ParseTool(dumpTool).None? ==> r.status == Err(UnsupportedTool(dumpTool))
    ensures ParseTool(dumpTool).Some? ==>
      var t := ParseTool(dumpTool).value;
      && r.calls[0] == ExecCall(ProbeArgv(t))
      && (exec(ProbeArgv(t)).ExecOk? ==> |r.calls| == 1 && r.status.Ok?)
      && (exec(ProbeArgv(t)).ExecErr? ==>
            && r.calls == [ExecCall(ProbeArgv(t)), ExecCall(InstallArgv(t))]
            && (r.status.Ok? <==> exec(InstallArgv(t)).ExecOk?))
    ensures r.status.Err? && r.calls != [] ==> r.status.error.InstallFailed?
    ensures NoCopies(r.calls)
  {
    match ParseTool(dumpTool)
    case None => Traced([], Err(UnsupportedTool(dumpTool)))
    case Some(t) =>
      var probe := ProbeArgv(t);
      if exec(probe).ExecOk? then Traced([ExecCall(probe)], Ok(()))
      else
        var install := InstallArgv(t);
        match exec(install)
        case ExecOk(_) => Traced([ExecCall(probe), ExecCall(install)], Ok(()))
        case ExecErr(cause) => Traced([ExecCall(probe), ExecCall(install)], Err(InstallFailed(ToolName(t), cause)))
  }

  /** A sample on which `createDotnetDump` keeps waiting: the limit in MB is below the threshold. */
  predicate Below(o: SampleOutcome, thresholdMB: real) {
    o.Success? && (o.value.limitMB as real) < thresholdMB
  }

  /** `n` stats requests in a row. */
  function SampleCalls(n: nat): (calls: seq<Call>)
    ensures |calls| == n
    ensures forall i :: 0 <= i < n ==> calls[i] == SampleCall
  {
    seq(n, _ => SampleCall)
  }

  /** What the wait loop does with the first sample it does not wait on, at 0-based position `k`. */
  function Settle(o: SampleOutcome, k: nat, pid: int, file: string, exec: Exec): Traced<string> {
    match o
    case Failure(cause) => Traced(SampleCalls(k + 1), Err(SampleFailed(cause)))
    case Success(_) =>
      var argv := DotnetDumpArgv(pid, file);
      Traced(SampleCalls(k + 1) + [ExecCall(argv)], ExecStatus(exec(argv)))
  }

  /**
    `createDotnetDump`: sample memory until a sample fails (an error, no dump)
    or the sample's second value, the limit in MB, reaches the threshold (then
    the dotnet-dump command runs once). `samples` are the successive answers to
    the stats requests; when they run out first, the call is still waiting.
  */
  function CreateDotnetDump(pid: int, file: string, thresholdMB: real, samples: seq<SampleOutcome>, exec: Exec)
    : (r: Traced<string>)
    ensures r.status.Waiting? <==> forall i :: 0 <= i < |samples| ==> Below(samples[i], thresholdMB)
    ensures r.status.Waiting? ==> r.calls == SampleCalls(|samples|)
    ensures NoCopies(r.calls)
    decreases |samples|
  {
    if samples == [] then Traced([], Waiting)
    else
      match samples[0]
      case Failure(cause) => Traced([SampleCall], Err(SampleFailed(cause)))
      case Success(s) =>
        if s.limitMB as real >= thresholdMB then
          var argv := DotnetDumpArgv(pid, file);
          Traced([SampleCall, ExecCall(argv)], ExecStatus(exec(argv)))
        else
          var rest := CreateDotnetDump(pid, file, thresholdMB, samples[1..], exec);
          Traced([SampleCall] + rest.calls, rest.status)
  }

  /** The wait loop stops at its first sample that is not below the threshold, and acts on that one. */
  lemma {:induction false} CreateDotnetDumpSettles(
    pid: int, file: string, thresholdMB: real, samples: seq<SampleOutcome>, exec: Exec, k: nat)
    requires k < |samples| && !Below(samples[k], thresholdMB)
    requires forall j :: 0 <= j < k ==> Below(samples[j], thresholdMB)
    ensures CreateDotnetDump(pid, file, thresholdMB, samples, exec) == Settle(samples[k], k, pid, file, exec)
  {
    if k > 0 {
      assert Below(samples[0], thresholdMB);
      var tail := samples[1..];
      assert forall j :: 0 <= j < k - 1 ==> Below(tail[j], thresholdMB) by {
        forall j | 0 <= j < k - 1 ensures Below(tail[j], thresholdMB) {
          assert tail[j] == samples[j + 1];
        }
      }
      CreateDotnetDumpSettles(pid, file, thresholdMB, tail, exec, k - 1);
      assert [SampleCall] + SampleCalls(k) == SampleCalls(k + 1);
      assert [SampleCall] + (SampleCalls(k) + [ExecCall(DotnetDumpArgv(pid, file))])
          == SampleCalls(k + 1) + [ExecCall(DotnetDumpArgv(pid, file))];
    } else {
      assert [SampleCall] == SampleCalls(1);
      assert [SampleCall, ExecCall(DotnetDumpArgv(pid, file))] == SampleCalls(1) + [ExecCall(DotnetDumpArgv(pid, file))];
    }
  }

  /**
    `createMemoryDump`: procdump runs once with the threshold in MB; dotnet-dump
    goes through the wait loop; any other tool is an error and runs nothing.
  */
  function CreateMemoryDump(
    dumpTool: string, pid: int, file: string, thresholdMB: real, samples: seq<SampleOutcome>, exec: Exec)
    : (r: Traced<string>)
    ensures ParseTool(dumpTool).None? ==> r == Traced([], Err(UnsupportedDumpTool))
    ensures ParseTool(dumpTool) == Some(ProcDump) ==>
      var argv := ProcdumpArgv(thresholdMB, pid, file);
      r.calls == [ExecCall(argv)] && r.status == ExecStatus(exec(argv))
    ensures ParseTool(dumpTool) == Some(DotnetDump) ==>
      r == CreateDotnetDump(pid, file, thresholdMB, samples, exec)
    ensures r.status.Waiting? ==> ParseTool(dumpTool) == Some(DotnetDump)
    ensures NoCopies(r.calls)
  {
    match ParseTool(dumpTool)
    case None => Traced([], Err(UnsupportedDumpTool))
    case Some(ProcDump) =>
      var argv := ProcdumpArgv(thresholdMB, pid, file);
      Traced([ExecCall(argv)], ExecStatus(exec(argv)))
    case Some(DotnetDump) => CreateDotnetDump(pid, file, thresholdMB, samples, exec)
  }

  /**
    The gate compares the container limit, not the usage, with the threshold:
    for a threshold of at most 100 percent of an unchanged limit, the first
    successful sample opens it, whatever the memory usage.
  */
  lemma DotnetGateOpensAtOnce(
    pid: int, file: string, limitMB: nat, threshold: real, samples: seq<SampleOutcome>, exec: Exec)
    requires threshold <= 100.0
    requires |samples| > 0 && samples[0].Success? && samples[0].value.limitMB >= limitMB
    ensures var r := CreateDotnetDump(pid, file, ThresholdMB(limitMB, threshold), samples, exec);
      && r.calls == [SampleCall, ExecCall(DotnetDumpArgv(pid, file))]
      && r.status == ExecStatus(exec(DotnetDumpArgv(pid, file)))
  {
  }

  /**
    The gate compares each new sample's limit with a threshold fixed at the
    start of the iteration: after the limit drops from 1024 MB to 1000 MB, a
    100 percent threshold is not reached and the loop keeps waiting.
  */
  lemma DotnetGateWaitsWhenLimitDrops(pid: int, file: string, usage: Percent, exec: Exec)
    ensures var r := CreateDotnetDump(pid, file, ThresholdMB(1024, 100.0), [Success(Sample(usage, 1000))], exec);
      r.status.Waiting? && r.calls == [SampleCall]
  {
  }

  /** `cleanupDumps`: one `rm -rf` of the container dump directory; an exec error is returned. */
  function CleanupDumps(dumpDirContainer: string, exec: Exec): (r: Traced<()>)
    ensures r.calls == [ExecCall(CleanupArgv(dumpDirContainer))]
    ensures r.status.Ok? <==> exec(CleanupArgv(dumpDirContainer)).ExecOk?
    ensures !r.status.Waiting?
  {
    var argv := CleanupArgv(dumpDirContainer);
    match exec(argv)
    case ExecOk(_) => Traced([ExecCall(argv)], Ok(()))
    case ExecErr(cause) => Traced([ExecCall(argv)], Err(ExecFailed(cause)))
  }
}
