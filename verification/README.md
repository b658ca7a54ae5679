# docker-ram-dumper in Dafny

A model of the decision logic of `docker-ram-dumper`. The tool watches a Docker
container's memory. When usage reaches a threshold, it makes a memory dump of a
process inside the container with `procdump` or `dotnet-dump` and copies the dump
to the host.

Every call to the Docker Engine becomes an input to the model:

- **Commands.** An `Exec` is a total function from a command line to its outcome
  (`ExecOk(output)` or `ExecErr(cause)`). `ExecErr` is a failed Docker API round
  trip: marshalling the request, creating or starting the exec instance, decoding
  the reply, or reading the output (main.go:166-218). `execInContainer` never
  reads the command's exit status. So a command that runs and exits non-zero is
  `ExecOk`: a `which procdump` that finds nothing does not trigger the install,
  and a dump command that fails inside the container still counts as a dump.
- **Memory samples.** Each sample is a `Result` holding the usage percentage and
  the limit in MB.
- **The log.** Each operation returns the calls it made (`Traced`), so a contract
  can say which commands ran and in what order.

The modules follow the program:

- `Decimal` — Go's `strconv.Atoi` (64-bit `int`), `strconv.Itoa` / `%d`, and
  `%.0f` formatting (round half to even).
- `Text` — `unicode.IsSpace` and `strings.Fields`.
- `FilePath` — `filepath.Base`, `Join` and the lexical `Clean` behind `Join`, on
  Unix.
- `Memory` — the MB division, the usage percentage (finite, +Inf or NaN), Go's
  float `>=`, and the threshold in MB.
- `Commands` — the command lines run in the container, the dump file naming
  scheme, and the `docker run` command line of the test helper.
- `Pid` — `getPIDInContainer` / `GetPIDInContainer`: one `ps` pipeline, then the
  first field that `Atoi` accepts.
- `DumpTool` — `installDumpTool`, `createMemoryDump`, the wait loop of
  `createDotnetDump`, and the command of `cleanupDumps`.
- `Monitor` — one iteration of the `for` loop of `main` as a step function, split
  into one stage per step of the loop body, and a run of the loop over a finite
  sequence of iterations.

The dotnet-dump wait loop compares the second value of the stats call with the
threshold in MB. That value is the container limit in MB, not the usage. So for
any threshold of at most 100 percent, the loop goes ahead on its first successful
sample, whatever the usage, provided the container's memory limit has not dropped
since the iteration's first stats call (`DumpTool.DotnetGateOpensAtOnce`). The
threshold in MB is computed once per iteration (main.go:75) and compared with the
limit of every new sample (main.go:373). So a limit that drops below it makes the
loop wait (`DumpTool.DotnetGateWaitsWhenLimitDrops`). The model keeps this as the
code has it.

Where the program's own documentation and its code part ways, the model follows
the code:

- The help text of `-dumps-count` (cmd/docker-ram-dumper/main.go:42) promises
  that many dumps "before stopping". Without `-monitor`, the loop stops after
  its first dump whatever the count (main.go:147-150). So a count above 1 takes
  effect only with `-monitor`.
- The flag list at the top of
  test/integration/docker_dotnet_dump_integration_test.go (line 31) documents a
  `-timeout` flag with a global deadline. main.go declares no such flag
  (lines 35-45) and has no deadline.
- The same test passes `"threshold": "10MB"` (line 193). `-threshold` is a
  float64 percentage (main.go:35), and the model has only the percentage.

## Model

| member | source | states |
|---|---|---|
| `Decimal.Atoi` | internal/_helpers/helpers.go:243 | accepts exactly an optional sign followed by decimal digits whose value fits in 64 bits, and then returns that value |
| `Decimal.Itoa` | cmd/docker-ram-dumper/main.go:132 | the text starts with '-' exactly for negative numbers and is digits otherwise |
| `Decimal.ItoaLiteral` | cmd/docker-ram-dumper/main.go:132 | the decimal text of n is a well-formed literal whose value is n |
| `Decimal.AtoiItoa` | cmd/docker-ram-dumper/main.go:356 | round trip: parsing the `%d` text of any 64-bit n gives n back |
| `Decimal.ItoaInjective` | cmd/docker-ram-dumper/main.go:119 | distinct integers have distinct decimal texts |
| `Decimal.RoundHalfEven` | cmd/docker-ram-dumper/main.go:356 | the result is within 0.5 of x, and even when x is exactly halfway |
| `Decimal.FormatFixed0` | cmd/docker-ram-dumper/main.go:356 | `%.0f` text is non-empty and starts with '-' exactly for negative values |
| `Decimal.FormatFixed0Parses` | cmd/docker-ram-dumper/main.go:356 | in the 64-bit range, the `%.0f` text parses back to an integer within 0.5 of the threshold |
| `Text.Fields` | internal/_helpers/helpers.go:240 | every field is non-empty and space-free, and the fields concatenated are the input with its white space removed |
| `Text.FieldsSkipSpaces` | internal/_helpers/helpers.go:240 | leading white space does not change the fields |
| `Text.FieldsLeadingWord` | internal/_helpers/helpers.go:240 | a word followed by white space or the end is the first field |
| `Text.FieldsUnwords` | internal/_helpers/helpers.go:240 | round trip: splitting space-joined fields gives the fields back |
| `FilePath.Split` | cmd/docker-ram-dumper/main.go:131 | there is at least one part and no part contains a separator |
| `FilePath.SplitJoinAll` | cmd/docker-ram-dumper/main.go:131 | splitting undoes joining for separator-free parts |
| `FilePath.JoinAllSplit` | cmd/docker-ram-dumper/main.go:131 | joining undoes splitting |
| `FilePath.Lexical` | cmd/docker-ram-dumper/main.go:131 | the kept elements are plain names or "..", every ".." comes before all names, and a rooted path keeps no ".." |
| `FilePath.BaseOfChild` | cmd/docker-ram-dumper/main.go:131 | the base of dir/name is name, for any dir |
| `FilePath.JoinPlainName` | cmd/docker-ram-dumper/main.go:131 | joining a plain name gives the name alone for an empty or "." directory, "/name" for the root, and otherwise the cleaned directory, one separator and the name |
| `FilePath.BaseOfJoin` | cmd/docker-ram-dumper/main.go:131 | the base of Join(dir, name) is name, for every directory |
| `Memory.WholeMB` | internal/_helpers/helpers.go:175 | the result is the largest whole number of MiB that fits in the byte count |
| `Memory.UsagePercent` | cmd/docker-ram-dumper/main.go:304 | finite exactly when the limit is positive, NaN exactly when both figures are zero, and at least 100 exactly when usage reaches the limit |
| `Memory.SampleOfOneGiB` | cmd/docker-ram-dumper/main_test.go:81-89 | 100 MiB used of a 1073741824-byte limit gives 9.765625 percent and 1024 MB |
| `Memory.ThresholdMB` | cmd/docker-ram-dumper/main.go:75 | a threshold of at most 100 percent gives at most the limit in MB, and a non-negative threshold gives a non-negative result |
| `Commands.ParseTool` | cmd/docker-ram-dumper/main.go:319-348 | only "procdump" and "dotnet-dump" name a tool; every other name is unsupported |
| `Commands.ProcdumpArgvReadsBack` | cmd/docker-ram-dumper/main.go:356 | the procdump command has 12 words; its `-M` value parses to within 0.5 of the threshold, its `-p` value parses to the pid, and `-o` gives the file |
| `Commands.DotnetDumpArgvReadsBack` | cmd/docker-ram-dumper/main.go:374 | the dotnet-dump command is `collect` with a `-p` value that parses to the pid and `-o` the file |
| `Commands.IterationCommandsDistinct` | cmd/docker-ram-dumper/main.go:92-126 | the probe, install, ps, mkdir, procdump and dotnet-dump commands of one iteration are pairwise distinct, so one exec function gives each its own outcome |
| `Commands.ProcdumpProbeText` | cmd/docker-ram-dumper/main_test.go:253 | the procdump probe joined by spaces is "which procdump" |
| `Commands.ProcdumpInstallText` | cmd/docker-ram-dumper/main_test.go:305 | the procdump install command joined by spaces is `sh -c` and the install script |
| `Commands.ProcdumpCommandWords` | cmd/docker-ram-dumper/main_test.go:185-196 | a 1800 MB threshold, pid 1234 and the test file give the expected procdump words |
| `Commands.DotnetDumpCommandWords` | cmd/docker-ram-dumper/main_test.go:217-231 | pid 1234 and the test file give the expected dotnet-dump words |
| `Commands.DumpNameIsPlain` | cmd/docker-ram-dumper/main.go:119 | the dump name `core_<pid>_<unix>.dmp` is a single plain path element |
| `Commands.DumpFileBase` | cmd/docker-ram-dumper/main.go:119 | the base of the dump file is the dump name, whatever the container directory |
| `Commands.HostDestinationName` | cmd/docker-ram-dumper/main.go:131 | the host copy is the dump name joined onto the host directory, without the `_0.<pid>` suffix |
| `Commands.CopySourceName` | cmd/docker-ram-dumper/main.go:132 | the copy source is the dump file with the `_0.<pid>` suffix, so its base differs from the dump name |
| `Commands.DumpNameInjective` | cmd/docker-ram-dumper/main.go:119 | two dump names are equal only for the same pid and the same second |
| `Commands.DumpFileInjective` | cmd/docker-ram-dumper/main.go:119 | two dump files in one directory are equal only for the same pid and the same second |
| `Commands.FlagArgs` | internal/_helpers/helpers.go:129-131 | one `-key=value` word per key, in the iteration order |
| `Commands.EnumerationLength` | internal/_helpers/helpers.go:129 | a map iteration order has exactly one key per entry |
| `Commands.DockerRunArgv` | internal/_helpers/helpers.go:117-131 | the command is the fixed 13-word `docker run` prefix followed by one word per map entry |
| `Commands.DockerRunArgvHasEveryFlag` | internal/_helpers/helpers.go:129-131 | every map entry's flag appears after the prefix, whatever the iteration order |
| `Commands.DockerRunArgvOnlyFlags` | internal/_helpers/helpers.go:129-131 | every word after the prefix is the flag of some map entry |
| `Pid.FirstWhereIsFirst` | internal/_helpers/helpers.go:241-247 | the search finds nothing exactly when no field is accepted; otherwise it finds the first accepted field |
| `Pid.PidFromOutput` | internal/_helpers/helpers.go:239-257 | parsing never waits and never reports "failed to parse PID"; a pid it returns is in the 64-bit range |
| `Pid.PidFromOutputFirstField` | internal/_helpers/helpers.go:240-250 | "no process found" exactly when no field is accepted; a pid exactly when some field is accepted, and then it is the value of the first accepted field |
| `Pid.PidOfTestLine` | cmd/docker-ram-dumper/main_test.go:94-109 | the test's `ps` line for test-process gives pid 1234 |
| `Pid.GetPidInContainer` | internal/_helpers/helpers.go:232-258 | exactly one exec of the `ps` pipeline; an exec error is returned with no pid; otherwise the output is parsed |
| `DumpTool.InstallDumpTool` | cmd/docker-ram-dumper/main.go:318-349 | an unknown tool fails before any command runs; otherwise `which <tool>` runs first; the install runs only when the probe errors, and the result is OK exactly when the install succeeds |
| `DumpTool.CreateDotnetDump` | cmd/docker-ram-dumper/main.go:366-386 | it keeps waiting exactly when every sample succeeds below the threshold, and while waiting it makes only stats requests |
| `DumpTool.CreateDotnetDumpSettles` | cmd/docker-ram-dumper/main.go:366-386 | the loop stops at its first sample not below the threshold: a failed sample is an error with no dump, a passing sample runs the dump command once |
| `DumpTool.CreateMemoryDump` | cmd/docker-ram-dumper/main.go:352-364 | procdump runs its command once; dotnet-dump goes through the wait loop; any other tool is an error with no command run |
| `DumpTool.DotnetGateOpensAtOnce` | cmd/docker-ram-dumper/main.go:373 | with a threshold of at most 100 percent and an unchanged limit, the first successful sample runs the dump |
| `DumpTool.DotnetGateWaitsWhenLimitDrops` | cmd/docker-ram-dumper/main.go:373 | at 100 percent of a 1024 MB limit, a wait-loop sample whose limit has dropped to 1000 MB does not open the gate, so the loop keeps waiting |
| `DumpTool.CleanupDumps` | cmd/docker-ram-dumper/main.go:156-164 | one `rm -rf` of the container dump directory, which succeeds exactly when the exec does |
| `Monitor.DumpStage` | cmd/docker-ram-dumper/main.go:118-144 | the counter rises, with one copy made last, exactly when the dump command succeeds; the iteration is left waiting exactly when the dotnet-dump wait loop never opens |
| `Monitor.MkdirStage` | cmd/docker-ram-dumper/main.go:110-116 | a failed mkdir is the only call and stops the run; otherwise the iteration goes on to the dump, rising exactly when the dump succeeds and waiting exactly when the dump waits |
| `Monitor.PidStage` | cmd/docker-ram-dumper/main.go:100-108 | the counter rises exactly when the pid is found and the mkdir and the dump succeed; the iteration waits exactly when those succeed up to a dump that waits |
| `Monitor.BreachStage` | cmd/docker-ram-dumper/main.go:89-98 | the counter rises exactly when the install, pid lookup, mkdir and dump all succeed; the iteration waits exactly when all succeed up to a dump that waits |
| `Monitor.Step` | cmd/docker-ram-dumper/main.go:70-153 | the stats request comes first; the counter rises by at most one, with exactly one copy per rise; a rise leaves as the limit and the mode say; without a breach the iteration is the stats request alone, going round again with `-monitor` and otherwise stopping |
| `Monitor.StepCountsDumps` | cmd/docker-ram-dumper/main.go:88-141 | the counter rises exactly when there is a breach, the tool installs, the pid is found, the mkdir succeeds and the dump succeeds, whatever the copy does |
| `Monitor.StepCopiesDump` | cmd/docker-ram-dumper/main.go:119-144 | a dumping iteration ends by copying `<file>_0.<pid>` to the host under the dump name, then stops at the limit or in single-shot mode |
| `Monitor.BreachStartsDumpCycle` | cmd/docker-ram-dumper/main.go:88-93 | a breach with a known tool goes on to that tool's probe |
| `Monitor.StepRetriesAfterInstallOrPidFailure` | cmd/docker-ram-dumper/main.go:92-104 | a failed install or pid lookup goes round again with the counter unchanged, in either mode |
| `Monitor.StepAfterPid` | cmd/docker-ram-dumper/main.go:110-126 | a failed mkdir stops the run; a failed dump goes round again with the counter unchanged |
| `Monitor.SingleShotContinuesOnlyAfterBreach` | cmd/docker-ram-dumper/main.go:74-150 | without `-monitor`, the loop goes round again only after a breach whose dump cycle failed |
| `Monitor.MonitorStopsOnlyForMkdirOrLimit` | cmd/docker-ram-dumper/main.go:74-150 | with `-monitor`, only a failed mkdir or the dump limit stops the loop |
| `Monitor.StepBlocksExactlyWhileDotnetDumpWaits` | cmd/docker-ram-dumper/main.go:366-386 | an iteration is left unfinished exactly when, after a breach, the install, pid lookup and mkdir succeed and the dotnet-dump wait loop never opens; only dotnet-dump waits, and the counter has not moved |
| `Monitor.UnknownToolRunsNothing` | cmd/docker-ram-dumper/main.go:346-347 | with an unsupported tool an iteration is the stats request alone, and after a breach it goes round again |
| `Monitor.Run` | cmd/docker-ram-dumper/main.go:72-153 | a run makes calls exactly when it has iterations, and its counter never decreases |
| `Monitor.RunCountsDumps` | cmd/docker-ram-dumper/main.go:128-141 | the copies in a run's log are exactly the dumps the counter counts |
| `Monitor.RunCounterBound` | cmd/docker-ram-dumper/main.go:141-144 | the counter never passes `-dumps-count`, or one past its start when that is already reached |
| `Monitor.RunMakesAtMostDumpsCount` | cmd/docker-ram-dumper/main.go:141-144 | from a fresh start, a run makes at most `-dumps-count` dumps, and at most one when `-dumps-count` is below 1 |
| `Monitor.SingleShotAtMostOneDump` | cmd/docker-ram-dumper/main.go:141-150 | without `-monitor`, a run makes at most one dump, whatever `-dumps-count` says |
| `Monitor.RunAfterDump` | cmd/docker-ram-dumper/main.go:141-153 | with `-monitor`, a dumping iteration stops the run at the limit and otherwise passes on the raised counter |
| `Monitor.MonitorMakesExactlyDumpsCount` | cmd/docker-ram-dumper/main.go:141-144 | with `-monitor` and every iteration dumping, the run stops at the limit after exactly `-dumps-count` dumps |
| `Monitor.SingleShotStopsAfterOneDump` | cmd/docker-ram-dumper/main.go:141-150 | without `-monitor`, a first iteration that dumps ends the run with one dump, at the limit or as a single shot |
| `Monitor.SingleShotQuietStops` | cmd/docker-ram-dumper/main.go:88-150 | without `-monitor` and without a breach, the run is one stats request and no dump |
| `Monitor.UnknownToolNeverStops` | cmd/docker-ram-dumper/main.go:92-97 | with an unsupported tool and memory above the threshold, the loop never stops, even without `-monitor`, and makes only stats requests |

## Left out

- Docker Engine HTTP plumbing is not modelled: exec requests, archive copies, stats requests and JSON decoding (main.go:166-218, 248-308; helpers.go:145-230, 260-289). Each call is an outcome given to the model. The outcome of the copy to the host is not an input, because the loop does the same thing whether it succeeds or not.
- Floating point: the usage percentage, the threshold and the threshold in MB are exact reals, not rounded float64 values. The Inf and NaN cases of a zero limit are kept as `Percent` values. A NaN or infinite `-threshold` flag is not modelled.
- Time: `time.Sleep` is dropped, and `time.Now().Unix()` is the `now` field of each iteration's `Env`.
- The unbounded `for` loop is modelled as a finite sequence of iterations (`Monitor.Run`). The dotnet-dump busy-wait reads a finite sequence of samples. When they run out, the call is `Waiting` and the loop is `Stuck`. Termination is not claimed.
- Process bootstrap is left out: flag parsing and defaults, the unix-socket client, the host `os.MkdirAll`, and the deferred wiring of `cleanupDumps` (main.go:20-68). `DumpTool.CleanupDumps` models only the command and its result.
- Console output (`fmt.Print*`) is left out, including the `printStats` switch of `GetContainerMemoryUsage`.
- `getPIDInContainer` in main.go (lines 220-246) has the same text as `GetPIDInContainer` in helpers.go, so one model, `Pid.GetPidInContainer`, covers both.
- Decimal.Atoi: models only whether a field is accepted and its value. It does not tell a syntax error from a range error, because the code only tests for an error.
- Text.Fields: works on Unicode code points. Go decodes UTF-8 bytes, so invalid UTF-8 in the `ps` output is not modelled.
- Commands.DockerRunArgv: Go's map iteration order is unspecified, so the order is an explicit parameter, and the lemmas hold for every order.
- The dump counter is a Go `int`. Its overflow is not modelled: from a fresh start the counter never passes max(`-dumps-count`, 1) (`Monitor.RunCounterBound`).
- The test container lifecycle, the integration tests under test/integration, and the signatures that main_test.go expects are not part of this model. Those tests call functions with arguments main.go does not have. The model uses them only for the expected command words and parse results.
