/**
  The monitoring loop of the dumper's `main`: one iteration as a step function
  from the dump counter to what the loop does next, and a run of the loop over
  a finite sequence of iterations.
*/
module Monitor {
  import opened Wrappers
  import opened Effects
  import opened Memory
  import opened Commands
  import Pid
  import DumpTool

  /** The flags that steer the loop. */
  datatype Config = Config(
    threshold: real,           // `-threshold`, a percentage
    processName: string,       // `-process`
    dumpDirContainer: string,  // `-dumpdir-container`
    dumpDirHost: string,       // `-dumpdir-host`
    monitor: bool,             // `-monitor`
    dumpsCount: int,           // `-dumps-count`
    dumpTool: string)          // `-dump-tool`

  /**
    What the world answers during one iteration: the stats sample, every exec,
    the samples the dotnet-dump wait loop reads, and the clock in Unix seconds.
  */
  datatype Env = Env(sample: SampleOutcome, exec: Exec, gate: seq<SampleOutcome>, now: int)

  datatype StopReason =
    | SampleError   // the stats request failed in single-shot mode
    | SingleShot    // "Dumping only once"
    | MkdirFailed   // the dump directory could not be created in the container
    | LimitReached  // the dump counter reached `-dumps-count`

  /** Where the loop goes after an iteration, with the dump counter. */
  datatype Next =
    | Continue(counter: int)
    | Stop(reason: StopReason, counter: int)
    | Blocked(counter: int)   // still inside the dotnet-dump wait loop when its samples ran out

  datatype Iteration = Iteration(calls: seq<Call>, next: Next)

  /** The sample shows the usage at or above the threshold. */
  predicate Breach(cfg: Config, env: Env) {
    env.sample.Success? && AtLeast(env.sample.value.usage, cfg.threshold)
  }

  /** The pid the iteration finds, when it gets that far. */
  function PidOf(cfg: Config, env: Env): Status<int> {
    Pid.GetPidInContainer(cfg.processName, env.exec).status
  }

  /** The dump file of an iteration that found `pid`. */
  function FileOf(cfg: Config, env: Env, pid: int): string {
    DumpFile(cfg.dumpDirContainer, pid, env.now)
  }

  /** The dump step of an iteration that found `pid`, with the threshold in MB from the sample's limit. */
  function DumpOf(cfg: Config, env: Env, pid: int): Traced<string>
    requires env.sample.Success?
  {
    DumpTool.CreateMemoryDump(cfg.dumpTool, pid, FileOf(cfg, env, pid),
      ThresholdMB(env.sample.value.limitMB, cfg.threshold), env.gate, env.exec)
  }

  /**
    Every condition under which an iteration produces a dump, one per step of
    the loop body: a breach, the tool installed, the pid found, the directory
    created, the dump command succeeded.
  */
  predicate Dumps(cfg: Config, env: Env) {
    && Breach(cfg, env)
    && DumpTool.InstallDumpTool(cfg.dumpTool, env.exec).status.Ok?
    && PidOf(cfg, env).Ok?
    && env.exec(MkdirArgv).ExecOk?
    && DumpOf(cfg, env, PidOf(cfg, env).value).status.Ok?
  }

  /** How the iteration leaves the loop after its last call, once the counter is `counter`. */
  function After(cfg: Config, counter: int): Next {
    if counter >= cfg.dumpsCount then Stop(LimitReached, counter)
    else if !cfg.monitor then Stop(SingleShot, counter)
    else Continue(counter)
  }

  /** An iteration whose calls follow `pre`; a prefix without copies leaves the copy count alone. */
  function Prefixed(pre: seq<Call>, it: Iteration): (r: Iteration)
    ensures r.next == it.next
    ensures |r.calls| == |pre| + |it.calls| && r.calls[..|pre|] == pre
    ensures |it.calls| > 0 ==> r.calls[|r.calls| - 1] == it.calls[|it.calls| - 1]
    ensures NoCopies(pre) ==> CopyCount(r.calls) == CopyCount(it.calls)
  {
    CopyCountAppend(pre, it.calls);
    assert (pre + it.calls)[..|pre|] == pre;
    Iteration(pre + it.calls, it.next)
  }

  /** The copy to the host of the dump of `pid`. */
  function CopyOf(cfg: Config, env: Env, pid: int): Call {
    var file := FileOf(cfg, env, pid);
    CopyCall(CopySource(file, pid), HostDestination(cfg.dumpDirHost, file))
  }

  /**
    What every part of an iteration keeps: the counter goes up by at most one;
    each increment comes with exactly one copy to the host, made last, and
    leaves the loop as the limit and the mode say; without an increment the
    loop goes round again, stops on a failed mkdir, or waits inside dotnet-dump.
  */
  predicate Accounted(cfg: Config, counter: int, it: Iteration) {
    && (it.next.counter == counter || it.next.counter == counter + 1)
    && CopyCount(it.calls) == it.next.counter - counter
    && (it.next.counter == counter + 1 ==> it.next == After(cfg, counter + 1) && |it.calls| > 0)
    && (it.next.counter == counter ==>
          || it.next == Continue(counter)
          || it.next == Stop(MkdirFailed, counter)
          || (it.next == Blocked(counter) && ParseTool(cfg.dumpTool) == Some(DotnetDump)))
  }

  /**
    The end of an iteration once the pid is known and the directory exists: the
    dump, then on success the copy to the host and the counter check.
  */
  function DumpStage(cfg: Config, counter: int, env: Env, pid: int): (it: Iteration)
    requires env.sample.Success?
    ensures Accounted(cfg, counter, it)
    ensures it.next.counter == counter + 1 <==> DumpOf(cfg, env, pid).status.Ok?
    ensures it.next.Blocked? <==> DumpOf(cfg, env, pid).status.Waiting?
    ensures it.next.counter == counter + 1 ==> it.calls[|it.calls| - 1] == CopyOf(cfg, env, pid)
  {
    var dump := DumpOf(cfg, env, pid);
    match dump.status
    case Waiting => Iteration(dump.calls, Blocked(counter))
    case Err(_) => Iteration(dump.calls, Continue(counter))
    case Ok(_) =>
      var copy := CopyOf(cfg, env, pid);
      CopyCountAppend(dump.calls, [copy]);
      assert [copy][..0] == [];
      Iteration(dump.calls + [copy], After(cfg, counter + 1))
  }

  /** `mkdir -p /tmp/dumps` in the container; its failure ends the program. */
  function MkdirStage(cfg: Config, counter: int, env: Env, pid: int): (it: Iteration)
    requires env.sample.Success?
    ensures Accounted(cfg, counter, it)
    ensures env.exec(MkdirArgv).ExecErr? ==> it == Iteration([ExecCall(MkdirArgv)], Stop(MkdirFailed, counter))
    ensures it.next.counter == counter + 1 <==> env.exec(MkdirArgv).ExecOk? && DumpOf(cfg, env, pid).status.Ok?
    ensures it.next.Blocked? <==> env.exec(MkdirArgv).ExecOk? && DumpOf(cfg, env, pid).status.Waiting?
    ensures it.next.counter == counter + 1 ==> it.calls[|it.calls| - 1] == CopyOf(cfg, env, pid)
  {
    if env.exec(MkdirArgv).ExecErr? then Iteration([ExecCall(MkdirArgv)], Stop(MkdirFailed, counter))
    else
      assert NoCopies([ExecCall(MkdirArgv)]);
      Prefixed([ExecCall(MkdirArgv)], DumpStage(cfg, counter, env, pid))
  }

  /** The pid lookup; its failure sends the loop round again. */
  function PidStage(cfg: Config, counter: int, env: Env): (it: Iteration)
    requires env.sample.Success?
    ensures Accounted(cfg, counter, it)
    ensures it.next.counter == counter + 1 <==>
      PidOf(cfg, env).Ok? && env.exec(MkdirArgv).ExecOk? && DumpOf(cfg, env, PidOf(cfg, env).value).status.Ok?
    ensures it.next.Blocked? <==>
      PidOf(cfg, env).Ok? && env.exec(MkdirArgv).ExecOk? && DumpOf(cfg, env, PidOf(cfg, env).value).status.Waiting?
    ensures it.next.counter == counter + 1 ==> it.calls[|it.calls| - 1] == CopyOf(cfg, env, PidOf(cfg, env).value)
  {
    var found := Pid.GetPidInContainer(cfg.processName, env.exec);
    if !found.status.Ok? then Iteration(found.calls, Continue(counter))
    else
      assert NoCopies(found.calls);
      Prefixed(found.calls, MkdirStage(cfg, counter, env, found.status.value))
  }

  /** Everything after a breach: the install, whose failure sends the loop round again, then the pid lookup. */
  function BreachStage(cfg: Config, counter: int, env: Env): (it: Iteration)
    requires env.sample.Success?
    ensures Accounted(cfg, counter, it)
    ensures it.next.counter == counter + 1 <==>
      DumpTool.InstallDumpTool(cfg.dumpTool, env.exec).status.Ok? && PidOf(cfg, env).Ok?
        && env.exec(MkdirArgv).ExecOk? && DumpOf(cfg, env, PidOf(cfg, env).value).status.Ok?
    ensures it.next.Blocked? <==>
      DumpTool.InstallDumpTool(cfg.dumpTool, env.exec).status.Ok? && PidOf(cfg, env).Ok?
        && env.exec(MkdirArgv).ExecOk? && DumpOf(cfg, env, PidOf(cfg, env).value).status.Waiting?
    ensures it.next.counter == counter + 1 ==> it.calls[|it.calls| - 1] == CopyOf(cfg, env, PidOf(cfg, env).value)
  {
    var install := DumpTool.InstallDumpTool(cfg.dumpTool, env.exec);
    if !install.status.Ok? then Iteration(install.calls, Continue(counter))
    else Prefixed(install.calls, PidStage(cfg, counter, env))
  }

  /** One pass of the `for` loop of `main`, from the dump counter before it. */
  function Step(cfg: Config, counter: int, env: Env): (it: Iteration)
    ensures |it.calls| >= 1 && it.calls[0] == SampleCall
    ensures it.next.counter == counter || it.next.counter == counter + 1
    ensures CopyCount(it.calls) == it.next.counter - counter
    ensures it.next.counter == counter + 1 ==> it.next == After(cfg, counter + 1)
    ensures !Breach(cfg, env) ==> it.calls == [SampleCall]
    ensures !Breach(cfg, env) && cfg.monitor ==> it.next == Continue(counter)
    ensures !Breach(cfg, env) && !cfg.monitor ==>
      it.next == Stop(if env.sample.Failure? then SampleError else SingleShot, counter)
  {
    match env.sample
    case Failure(_) => Iteration([SampleCall], if cfg.monitor then Continue(counter) else Stop(SampleError, counter))
    case Success(s) =>
      if !AtLeast(s.usage, cfg.threshold) then
        Iteration([SampleCall], if cfg.monitor then Continue(counter) else Stop(SingleShot, counter))
      else
        assert NoCopies([SampleCall]);
        Prefixed([SampleCall], BreachStage(cfg, counter, env))
  }

  /** The counter goes up exactly in the iterations that produce a dump. */
  lemma StepCountsDumps(cfg: Config, counter: int, env: Env)
    ensures Step(cfg, counter, env).next.counter == counter + 1 <==> Dumps(cfg, env)
  {
    if Breach(cfg, env) {
      var it := BreachStage(cfg, counter, env);
      assert Step(cfg, counter, env).next == it.next;
    }
  }

  /** A dumping iteration ends by copying the file it dumped to the host, and leaves as the limit and mode say. */
  lemma StepCopiesDump(cfg: Config, counter: int, env: Env)
    requires Dumps(cfg, env)
    ensures var it := Step(cfg, counter, env);
      && it.calls[|it.calls| - 1] == CopyOf(cfg, env, PidOf(cfg, env).value)
      && it.next == After(cfg, counter + 1)
  {
    StepCountsDumps(cfg, counter, env);
    var it := BreachStage(cfg, counter, env);
    assert Step(cfg, counter, env) == Prefixed([SampleCall], it);
  }

  /** After a breach the iteration is the breach stage behind the stats request. */
  lemma StepAfterBreach(cfg: Config, counter: int, env: Env)
    requires Breach(cfg, env)
    ensures Step(cfg, counter, env).next == BreachStage(cfg, counter, env).next
    ensures Accounted(cfg, counter, BreachStage(cfg, counter, env))
  {
  }

  /** A breach with a known tool starts the dump cycle with that tool's probe. */
  lemma BreachStartsDumpCycle(cfg: Config, counter: int, env: Env)
    requires Breach(cfg, env) && ParseTool(cfg.dumpTool).Some?
    ensures |Step(cfg, counter, env).calls| >= 2
    ensures Step(cfg, counter, env).calls[1] == ExecCall(ProbeArgv(ParseTool(cfg.dumpTool).value))
  {
    var it := BreachStage(cfg, counter, env);
    assert Step(cfg, counter, env) == Prefixed([SampleCall], it);
    assert it.calls[0] == ExecCall(ProbeArgv(ParseTool(cfg.dumpTool).value));
  }

  /** A failed install or pid lookup goes round again with the counter unchanged, in either mode. */
  lemma StepRetriesAfterInstallOrPidFailure(cfg: Config, counter: int, env: Env)
    requires Breach(cfg, env)
    requires !DumpTool.InstallDumpTool(cfg.dumpTool, env.exec).status.Ok? || !PidOf(cfg, env).Ok?
    ensures Step(cfg, counter, env).next == Continue(counter)
  {
  }

  /** Once the pid is known, a failed mkdir stops the loop and a failed dump goes round again. */
  lemma StepAfterPid(cfg: Config, counter: int, env: Env)
    requires Breach(cfg, env)
    requires DumpTool.InstallDumpTool(cfg.dumpTool, env.exec).status.Ok? && PidOf(cfg, env).Ok?
    ensures env.exec(MkdirArgv).ExecErr? ==> Step(cfg, counter, env).next == Stop(MkdirFailed, counter)
    ensures env.exec(MkdirArgv).ExecOk? && DumpOf(cfg, env, PidOf(cfg, env).value).status.Err? ==>
      Step(cfg, counter, env).next == Continue(counter)
  {
  }

  /** In single-shot mode only the failures between the breach and the dump go round again. */
  lemma SingleShotContinuesOnlyAfterBreach(cfg: Config, counter: int, env: Env)
    requires !cfg.monitor
    ensures Step(cfg, counter, env).next.Continue? ==>
      Breach(cfg, env) && !Dumps(cfg, env) && Step(cfg, counter, env).next.counter == counter
  {
    StepCountsDumps(cfg, counter, env);
  }

  /** In monitor mode the loop stops only when the directory cannot be made or the limit is reached. */
  lemma MonitorStopsOnlyForMkdirOrLimit(cfg: Config, counter: int, env: Env)
    requires cfg.monitor
    ensures Step(cfg, counter, env).next.Stop? ==> Step(cfg, counter, env).next.reason in {MkdirFailed, LimitReached}
  {
    if Step(cfg, counter, env).next.Stop? && Breach(cfg, env) {
      StepAfterBreach(cfg, counter, env);
    }
  }

  /**
    An iteration is left unfinished exactly when dotnet-dump's wait loop never
    opens after the install, the pid lookup and the mkdir all succeeded; only
    dotnet-dump waits, and the counter has not moved.
  */
  lemma StepBlocksExactlyWhileDotnetDumpWaits(cfg: Config, counter: int, env: Env)
    ensures Step(cfg, counter, env).next.Blocked? <==>
      && Breach(cfg, env)
      && DumpTool.InstallDumpTool(cfg.dumpTool, env.exec).status.Ok? && PidOf(cfg, env).Ok?
      && env.exec(MkdirArgv).ExecOk? && DumpOf(cfg, env, PidOf(cfg, env).value).status.Waiting?
    ensures Step(cfg, counter, env).next.Blocked? ==>
      ParseTool(cfg.dumpTool) == Some(DotnetDump) && Step(cfg, counter, env).next.counter == counter
  {
    if Breach(cfg, env) {
      StepAfterBreach(cfg, counter, env);
    }
  }

  /** An iteration with an unknown tool stops after the stats request, whatever the exec answers. */
  lemma UnknownToolRunsNothing(cfg: Config, counter: int, env: Env)
    requires ParseTool(cfg.dumpTool).None?
    ensures Step(cfg, counter, env).calls == [SampleCall]
    ensures Breach(cfg, env) ==> Step(cfg, counter, env).next == Continue(counter)
  {
  }

  /** Where the loop is after a sequence of iterations. */
  datatype State =
    | Running(counter: int)                    // every iteration went round again
    | Finished(reason: StopReason, counter: int)
    | Stuck(counter: int)                      // waiting inside the dotnet-dump loop

  datatype Trace = Trace(calls: seq<Call>, state: State)

  /** The loop from the dump counter `counter`, one iteration per element of `envs`, until it stops. */
  function Run(cfg: Config, counter: int, envs: seq<Env>): (t: Trace)
    ensures envs == [] <==> t.calls == []
    ensures t.state.counter >= counter
    decreases |envs|
  {
    if envs == [] then Trace([], Running(counter))
    else
      var it := Step(cfg, counter, envs[0]);
      match it.next
      case Continue(c) =>
        var rest := Run(cfg, c, envs[1..]);
        Trace(it.calls + rest.calls, rest.state)
      case Stop(reason, c) => Trace(it.calls, Finished(reason, c))
      case Blocked(c) => Trace(it.calls, Stuck(c))
  }

  predicate EveryIterationDumps(cfg: Config, envs: seq<Env>) {
    forall i :: 0 <= i < |envs| ==> Dumps(cfg, envs[i])
  }

  lemma EveryIterationDumpsTail(cfg: Config, envs: seq<Env>)
    requires |envs| > 0 && EveryIterationDumps(cfg, envs)
    ensures Dumps(cfg, envs[0]) && EveryIterationDumps(cfg, envs[1..])
  {
    forall i | 0 <= i < |envs[1..]| ensures Dumps(cfg, envs[1..][i]) {
      assert envs[1..][i] == envs[i + 1];
    }
  }

  /** With `-monitor`, a dumping iteration ends the run at the limit and otherwise hands the raised counter on. */
  lemma RunAfterDump(cfg: Config, counter: int, envs: seq<Env>)
    requires cfg.monitor && |envs| > 0
    ensures Dumps(cfg, envs[0]) ==>
      Run(cfg, counter, envs).state ==
        (if counter + 1 >= cfg.dumpsCount then Finished(LimitReached, counter + 1)
         else Run(cfg, counter + 1, envs[1..]).state)
  {
    if Dumps(cfg, envs[0]) {
      StepCopiesDump(cfg, counter, envs[0]);
    }
  }

  /** Every dump of a run is copied to the host exactly once: the copies count the dumps. */
  lemma {:induction false} RunCountsDumps(cfg: Config, counter: int, envs: seq<Env>)
    ensures CopyCount(Run(cfg, counter, envs).calls) == Run(cfg, counter, envs).state.counter - counter
    decreases |envs|
  {
    if envs != [] {
      var it := Step(cfg, counter, envs[0]);
      if it.next.Continue? {
        RunCountsDumps(cfg, it.next.counter, envs[1..]);
        CopyCountAppend(it.calls, Run(cfg, it.next.counter, envs[1..]).calls);
      }
    }
  }

  function Max(a: int, b: int): int {
    if a >= b then a else b
  }

  /** The counter never passes `-dumps-count`, or one dump past its start when that is already reached. */
  lemma {:induction false} RunCounterBound(cfg: Config, counter: int, envs: seq<Env>)
    ensures Run(cfg, counter, envs).state.counter <= Max(cfg.dumpsCount, counter + 1)
    decreases |envs|
  {
    if envs != [] {
      var it := Step(cfg, counter, envs[0]);
      if it.next.Continue? {
        RunCounterBound(cfg, it.next.counter, envs[1..]);
      }
    }
  }

  /** From a fresh start the loop makes at most `-dumps-count` dumps, and at most one when that is below 1. */
  lemma RunMakesAtMostDumpsCount(cfg: Config, envs: seq<Env>)
    ensures CopyCount(Run(cfg, 0, envs).calls) <= Max(cfg.dumpsCount, 1)
  {
    RunCountsDumps(cfg, 0, envs);
    RunCounterBound(cfg, 0, envs);
  }

  /** Without `-monitor` the loop makes at most one dump, whatever `-dumps-count` says. */
  lemma {:induction false} SingleShotAtMostOneDump(cfg: Config, counter: int, envs: seq<Env>)
    requires !cfg.monitor
    ensures Run(cfg, counter, envs).state.counter <= counter + 1
    decreases |envs|
  {
    if envs != [] {
      var it := Step(cfg, counter, envs[0]);
      if it.next.Continue? {
        SingleShotContinuesOnlyAfterBreach(cfg, counter, envs[0]);
        SingleShotAtMostOneDump(cfg, counter, envs[1..]);
      }
    }
  }

  /** With `-monitor` and an iteration that dumps each time, the loop stops after exactly `-dumps-count` dumps. */
  lemma {:induction false} MonitorMakesExactlyDumpsCount(cfg: Config, counter: int, envs: seq<Env>)
    requires cfg.monitor
    requires 0 <= counter < cfg.dumpsCount <= counter + |envs|
    requires EveryIterationDumps(cfg, envs)
    ensures Run(cfg, counter, envs).state == Finished(LimitReached, cfg.dumpsCount)
    ensures CopyCount(Run(cfg, counter, envs).calls) == cfg.dumpsCount - counter
    decreases |envs|
  {
    EveryIterationDumpsTail(cfg, envs);
    RunAfterDump(cfg, counter, envs);
    if counter + 1 < cfg.dumpsCount {
      EveryIterationDumpsTail(cfg, envs);
      MonitorMakesExactlyDumpsCount(cfg, counter + 1, envs[1..]);
    }
    RunCountsDumps(cfg, counter, envs);
  }

  /** Without `-monitor` a dumping first iteration ends the run with one dump, even below `-dumps-count`. */
  lemma SingleShotStopsAfterOneDump(cfg: Config, counter: int, envs: seq<Env>)
    requires !cfg.monitor && |envs| > 0
    ensures Dumps(cfg, envs[0]) ==>
      && Run(cfg, counter, envs).state.Finished?
      && Run(cfg, counter, envs).state.counter == counter + 1
      && Run(cfg, counter, envs).state.reason == (if counter + 1 >= cfg.dumpsCount then LimitReached else SingleShot)
  {
    StepCountsDumps(cfg, counter, envs[0]);
  }

  /** Without `-monitor` and without a breach, the run is one stats request and no dump. */
  lemma SingleShotQuietStops(cfg: Config, counter: int, envs: seq<Env>)
    requires !cfg.monitor
    requires |envs| > 0 && !Breach(cfg, envs[0])
    ensures Run(cfg, counter, envs).calls == [SampleCall]
    ensures Run(cfg, counter, envs).state.Finished? && Run(cfg, counter, envs).state.counter == counter
  {
  }

  /**
    An unsupported `-dump-tool` never stops the loop while memory stays high,
    even without `-monitor`: each iteration is one stats request and nothing else.
  */
  lemma {:induction false} UnknownToolNeverStops(cfg: Config, counter: int, envs: seq<Env>)
    requires ParseTool(cfg.dumpTool).None?
    requires forall i :: 0 <= i < |envs| ==> Breach(cfg, envs[i])
    ensures Run(cfg, counter, envs) == Trace(DumpTool.SampleCalls(|envs|), Running(counter))
    decreases |envs|
  {
    if envs != [] {
      UnknownToolRunsNothing(cfg, counter, envs[0]);
      assert forall i :: 0 <= i < |envs[1..]| ==> Breach(cfg, envs[1..][i]) by {
        forall i | 0 <= i < |envs[1..]| ensures Breach(cfg, envs[1..][i]) {
          assert envs[1..][i] == envs[i + 1];
        }
      }
      UnknownToolNeverStops(cfg, counter, envs[1..]);
      assert [SampleCall] + DumpTool.SampleCalls(|envs| - 1) == DumpTool.SampleCalls(|envs|);
    }
  }
}
