/**
  The command lines the dumper runs inside the target container, and the
  names it gives the dump file in the container and on the host.
*/
module Commands {
  import opened Wrappers
  import opened Effects
  import opened Decimal
  import FilePath
  import Text

  /** The two dump tools `installDumpTool` and `createMemoryDump` know. */
  datatype Tool = ProcDump | DotnetDump

  function ToolName(t: Tool): string {
    match t
    case ProcDump => "procdump"
    case DotnetDump => "dotnet-dump"
  }

  /** The `-dump-tool` value as the tool switch reads it; every other value is unsupported. */
  function ParseTool(name: string): (r: Option<Tool>)
    ensures r.Some? ==> ToolName(r.value) == name
    ensures r.None? ==> forall t: Tool :: ToolName(t) != name
  {
    if name == "procdump" then Some(ProcDump)
    else if name == "dotnet-dump" then Some(DotnetDump)
    else None
  }

  /** The probe that decides whether the tool must be installed. */
  function ProbeArgv(t: Tool): Argv {
    ["which", ToolName(t)]
  }

  /** The procdump install script: the Alpine package, or else the Debian one. */
  const ProcdumpInstallScript: string :=
    "apk add --no-cache procdump" + " || apt-get update && apt-get install -y procdump"

  /** The dotnet-dump install script, one `&&` step per line. */
  const DotnetDumpInstallScript: string :=
    "apt-get update && apt-get install -y curl"
    + (" && curl -sSL https://dot.net/v1/dotnet-install.sh -o dotnet-install.sh"
       + " && chmod +x dotnet-install.sh"
       + " && ./dotnet-install.sh --channel 7.0 --install-dir /root/.dotnet"
       + " && dotnet tool install --global dotnet-dump")

  function InstallArgv(t: Tool): Argv {
    ["sh", "-c", match t case ProcDump => ProcdumpInstallScript case DotnetDump => DotnetDumpInstallScript]
  }

  /** The directory the loop creates in the container, whatever `-dumpdir-container` says. */
  const ContainerDumpDir: string := "/tmp/dumps"

  const MkdirArgv: Argv := ["mkdir", "-p", ContainerDumpDir]

  /** The command of `cleanupDumps`. */
  function CleanupArgv(dumpDirContainer: string): Argv {
    ["rm", "-rf", dumpDirContainer]
  }

  /** The shell pipeline that prints the last `ps` line mentioning the process name. */
  function PsArgv(processName: string): Argv {
    ["sh", "-c", "ps -ef | grep '" + processName + "' | grep -v grep | tail -n1"]
  }

  const DotnetDumpPath: string := "/root/.dotnet/tools/dotnet-dump"

  /** The procdump command: one dump (`-n 1`) of `pid` once it uses `-M` MB or more. */
  function ProcdumpArgv(thresholdMB: real, pid: int, file: string): Argv {
    ["procdump", "-d", "-n", "1", "-s", "1", "-M", FormatFixed0(thresholdMB), "-p", Itoa(pid), "-o", file]
  }

  function DotnetDumpArgv(pid: int, file: string): Argv {
    [DotnetDumpPath, "collect", "-p", Itoa(pid), "-o", file]
  }

  /** The arguments of the procdump command read back as the values they were built from. */
  lemma ProcdumpArgvReadsBack(thresholdMB: real, pid: int, file: string)
    requires InIntRange(pid)
    requires -(IntMax as real) <= thresholdMB <= IntMax as real
    ensures var argv := ProcdumpArgv(thresholdMB, pid, file);
      && |argv| == 12 && argv[0] == "procdump"
      && argv[6] == "-M" && Atoi(argv[7]).Some?
      && Atoi(argv[7]).value as real - thresholdMB <= 0.5
      && thresholdMB - Atoi(argv[7]).value as real <= 0.5
      && argv[8] == "-p" && Atoi(argv[9]) == Some(pid)
      && argv[10] == "-o" && argv[11] == file
  {
    AtoiItoa(pid);
    FormatFixed0Parses(thresholdMB);
  }

  lemma DotnetDumpArgvReadsBack(pid: int, file: string)
    requires InIntRange(pid)
    ensures var argv := DotnetDumpArgv(pid, file);
      && |argv| == 6 && argv[0] == DotnetDumpPath && argv[1] == "collect"
      && argv[2] == "-p" && Atoi(argv[3]) == Some(pid)
      && argv[4] == "-o" && argv[5] == file
  {
    AtoiItoa(pid);
  }

  lemma InstallScriptsStartWithA()
    ensures ProcdumpInstallScript[0] == 'a' && DotnetDumpInstallScript[0] == 'a'
  {
    assert ("apk add --no-cache procdump")[0] == 'a';
    assert ("apt-get update && apt-get install -y curl")[0] == 'a';
  }

  /**
    The commands one iteration can run are pairwise distinct, so a single
    `Exec` per iteration still gives each of them an outcome of its own.
  */
  lemma IterationCommandsDistinct(t: Tool, processName: string, thresholdMB: real, pid: int, file: string)
    ensures var cmds := [ProbeArgv(t), InstallArgv(t), PsArgv(processName), MkdirArgv,
                         ProcdumpArgv(thresholdMB, pid, file), DotnetDumpArgv(pid, file)];
      forall i, j :: 0 <= i < j < |cmds| ==> cmds[i] != cmds[j]
  {
    var cmds := [ProbeArgv(t), InstallArgv(t), PsArgv(processName), MkdirArgv,
                 ProcdumpArgv(thresholdMB, pid, file), DotnetDumpArgv(pid, file)];
    // Only the three-word commands share a length; their first or third words differ.
    assert |cmds[0]| == 2 && |cmds[4]| == 12 && |cmds[5]| == 6;
    assert |cmds[1]| == 3 && |cmds[2]| == 3 && |cmds[3]| == 3;
    assert cmds[3][0] == "mkdir" && cmds[1][0] == "sh" && cmds[2][0] == "sh";
    InstallScriptsStartWithA();
    assert cmds[2][2][0] == 'p';
  }

  /** The procdump probe, joined by spaces as the unit tests print it. */
  lemma ProcdumpProbeText()
    ensures Text.Unwords(ProbeArgv(ProcDump)) == "which procdump"
  {
    assert ProbeArgv(ProcDump)[1..] == ["procdump"];
  }

  /** The procdump install command, joined by spaces as the unit tests print it. */
  lemma ProcdumpInstallText()
    ensures Text.Unwords(InstallArgv(ProcDump)) == "sh -c " + ProcdumpInstallScript
  {
    var ws := InstallArgv(ProcDump);
    assert ws[1..] == ["-c", ProcdumpInstallScript];
    assert ws[1..][1..] == [ProcdumpInstallScript];
    assert Text.Unwords(ws[1..]) == "-c" + " " + ProcdumpInstallScript;
    assert Text.Unwords(ws) == "sh" + " " + ("-c" + " " + ProcdumpInstallScript);
  }

  /** The procdump command for a 1800 MB threshold, word by word as the unit test expects it. */
  lemma ProcdumpCommandWords()
    ensures ProcdumpArgv(1800.0, 1234, "/tmp/dumps/test.dmp")
      == ["procdump", "-d", "-n", "1", "-s", "1", "-M", "1800", "-p", "1234", "-o", "/tmp/dumps/test.dmp"]
  {
    assert RoundHalfEven(1800.0) == 1800;
    assert NatDigits(1800) == "1800";
    assert Itoa(1234) == "1234";
  }

  /** The dotnet-dump command, word by word as the unit test expects it. */
  lemma DotnetDumpCommandWords()
    ensures DotnetDumpArgv(1234, "/tmp/dumps/test.dmp")
      == ["/root/.dotnet/tools/dotnet-dump", "collect", "-p", "1234", "-o", "/tmp/dumps/test.dmp"]
  {
    assert Itoa(1234) == "1234";
  }

  /** The file name of a dump: `core_<pid>_<unix seconds>.dmp`. */
  function DumpName(pid: int, unix: int): string {
    "core_" + Itoa(pid) + "_" + Itoa(unix) + ".dmp"
  }

  /** Where the dump is written inside the container. */
  function DumpFile(dumpDirContainer: string, pid: int, unix: int): string {
    dumpDirContainer + "/" + DumpName(pid, unix)
  }

  /** The file the copy asks the container for: the dump file with procdump's `_0.<pid>` suffix. */
  function CopySource(dumpFile: string, pid: int): string {
    dumpFile + "_0." + Itoa(pid)
  }

  /** Where the copy is written on the host: the dump file's base name under the host directory. */
  function HostDestination(dumpDirHost: string, dumpFile: string): string {
    FilePath.Join(dumpDirHost, FilePath.Base(dumpFile))
  }

  lemma ItoaHasNoMarkers(n: int)
    ensures '/' !in Itoa(n) && '_' !in Itoa(n)
  {
  }

  lemma DumpNameIsPlain(pid: int, unix: int)
    ensures FilePath.IsPlainName(DumpName(pid, unix))
  {
    ItoaHasNoMarkers(pid);
    ItoaHasNoMarkers(unix);
    assert DumpName(pid, unix)[0] == 'c';
  }

  /** The container file's base name is the dump name. */
  lemma DumpFileBase(dumpDirContainer: string, pid: int, unix: int)
    ensures FilePath.Base(DumpFile(dumpDirContainer, pid, unix)) == DumpName(pid, unix)
  {
    DumpNameIsPlain(pid, unix);
    FilePath.BaseOfChild(dumpDirContainer, DumpName(pid, unix));
  }

  /**
    The host copy is the dump name joined onto the host directory, so it carries
    the container file's name and not the `_0.<pid>` suffix.
  */
  lemma HostDestinationName(dumpDirContainer: string, dumpDirHost: string, pid: int, unix: int)
    ensures var file := DumpFile(dumpDirContainer, pid, unix);
      && HostDestination(dumpDirHost, file) == FilePath.Join(dumpDirHost, DumpName(pid, unix))
      && FilePath.Base(HostDestination(dumpDirHost, file)) == DumpName(pid, unix)
  {
    DumpFileBase(dumpDirContainer, pid, unix);
    DumpNameIsPlain(pid, unix);
    FilePath.BaseOfJoin(dumpDirHost, DumpName(pid, unix));
  }

  /** The copy source is the container file plus the `_0.<pid>` suffix, and so names a different file. */
  lemma CopySourceName(dumpDirContainer: string, pid: int, unix: int)
    ensures var file := DumpFile(dumpDirContainer, pid, unix);
      && FilePath.Base(CopySource(file, pid)) == DumpName(pid, unix) + "_0." + Itoa(pid)
      && FilePath.Base(CopySource(file, pid)) != DumpName(pid, unix)
  {
    var name := DumpName(pid, unix);
    var suffixed := name + "_0." + Itoa(pid);
    ItoaHasNoMarkers(pid);
    DumpNameIsPlain(pid, unix);
    assert '/' !in suffixed by {
      assert suffixed == name + ("_0." + Itoa(pid));
    }
    assert CopySource(DumpFile(dumpDirContainer, pid, unix), pid) == dumpDirContainer + "/" + suffixed;
    FilePath.BaseOfChild(dumpDirContainer, suffixed);
    assert |suffixed| > |name|;
  }

  lemma FirstMarker(a: string, b: string, m: char)
    requires m !in a
    ensures (a + [m] + b)[|a|] == m
    ensures forall i :: 0 <= i < |a| ==> (a + [m] + b)[i] != m
  {
  }

  /** Text before the first `m` and text after it determine each other. */
  lemma SplitAtMarker(a: string, b: string, a': string, b': string, m: char)
    requires m !in a && m !in a'
    requires a + [m] + b == a' + [m] + b'
    ensures a == a' && b == b'
  {
    var s := a + [m] + b;
    FirstMarker(a, b, m);
    FirstMarker(a', b', m);
    assert |a| == |a'|;
    assert a == s[..|a|];
    assert b == s[|a| + 1..];
  }

  lemma PrefixCancel(p: string, x: string, y: string)
    requires p + x == p + y
    ensures x == y
  {
    assert x == (p + x)[|p|..];
    assert y == (p + y)[|p|..];
  }

  lemma SuffixCancel(x: string, y: string, t: string)
    requires x + t == y + t
    ensures x == y
  {
    assert x == (x + t)[..|x|];
    assert y == (y + t)[..|y|];
  }

  lemma DumpNameParts(pid: int, unix: int)
    ensures DumpName(pid, unix) == "core_" + (Itoa(pid) + "_" + (Itoa(unix) + ".dmp"))
  {
  }

  lemma DumpNameInjective(pid1: int, unix1: int, pid2: int, unix2: int)
    requires DumpName(pid1, unix1) == DumpName(pid2, unix2)
    ensures pid1 == pid2 && unix1 == unix2
  {
    var a1, b1 := Itoa(pid1), Itoa(unix1) + ".dmp";
    var a2, b2 := Itoa(pid2), Itoa(unix2) + ".dmp";
    DumpNameParts(pid1, unix1);
    DumpNameParts(pid2, unix2);
    PrefixCancel("core_", a1 + "_" + b1, a2 + "_" + b2);
    ItoaHasNoMarkers(pid1);
    ItoaHasNoMarkers(pid2);
    SplitAtMarker(a1, b1, a2, b2, '_');
    SuffixCancel(Itoa(unix1), Itoa(unix2), ".dmp");
    ItoaInjective(pid1, pid2);
    ItoaInjective(unix1, unix2);
  }

  /**
    Dump files are unique per (pid, timestamp): two cycles write the same file
    only for the same pid in the same second.
  */
  lemma DumpFileInjective(dir: string, pid1: int, unix1: int, pid2: int, unix2: int)
    requires DumpFile(dir, pid1, unix1) == DumpFile(dir, pid2, unix2)
    ensures pid1 == pid2 && unix1 == unix2
  {
    assert DumpName(pid1, unix1) == DumpFile(dir, pid1, unix1)[|dir| + 1..];
    assert DumpName(pid2, unix2) == DumpFile(dir, pid2, unix2)[|dir| + 1..];
    DumpNameInjective(pid1, unix1, pid2, unix2);
  }

  /** The fixed `docker run` prefix the integration tests start the dumper with. */
  const DockerRunPrefix: Argv := [
    "docker", "run",
    "--cap-add=SYS_PTRACE",
    "--security-opt", "seccomp=unconfined",
    "--user=root",
    "-v", "/var/run/docker.sock:/var/run/docker.sock",
    "-v", "/tmp/test-dumps:/tmp/dumps",
    "--net=host",
    "-i", "docker-ram-dumper"
  ]

  function FlagArg(key: string, value: string): string {
    "-" + key + "=" + value
  }

  /** One `-key=value` argument per key of `order`, in that order. */
  function FlagArgs(args: map<string, string>, order: seq<string>): (flags: seq<string>)
    requires forall i :: 0 <= i < |order| ==> order[i] in args
    ensures |flags| == |order|
    ensures forall i :: 0 <= i < |order| ==> flags[i] == FlagArg(order[i], args[order[i]])
  {
    if order == [] then [] else [FlagArg(order[0], args[order[0]])] + FlagArgs(args, order[1..])
  }

  /** `order` lists every key exactly once: one possible order of Go's map iteration. */
  predicate Enumerates(order: seq<string>, keys: set<string>) {
    && (forall i, j :: 0 <= i < j < |order| ==> order[i] != order[j])
    && (forall k :: k in keys ==> k in order)
    && (forall i :: 0 <= i < |order| ==> order[i] in keys)
  }

  lemma {:induction false} DistinctCardinality(order: seq<string>)
    requires forall i, j :: 0 <= i < j < |order| ==> order[i] != order[j]
    ensures |set k | k in order| == |order|
  {
    if order != [] {
      var rest := order[1..];
      DistinctCardinality(rest);
      assert (set k | k in order) == {order[0]} + (set k | k in rest);
      assert order[0] !in rest;
    }
  }

  lemma FlagArgsCover(args: map<string, string>, order: seq<string>)
    requires Enumerates(order, args.Keys)
    ensures forall k :: k in args ==> FlagArg(k, args[k]) in FlagArgs(args, order)
  {
    var flags := FlagArgs(args, order);
    forall k | k in args
      ensures FlagArg(k, args[k]) in flags
    {
      var i :| 0 <= i < |order| && order[i] == k;
      assert flags[i] == FlagArg(k, args[k]);
    }
  }

  lemma EnumerationLength(args: map<string, string>, order: seq<string>)
    requires Enumerates(order, args.Keys)
    ensures |order| == |args|
  {
    DistinctCardinality(order);
    assert (set k | k in order) == args.Keys;
  }

  /**
    `RunDockerRamDumper`: the 13-word prefix, then one `-key=value` argument per
    map entry, in the unspecified order `order` of Go's map iteration.
  */
  function DockerRunArgv(args: map<string, string>, order: seq<string>): (argv: Argv)
    requires Enumerates(order, args.Keys)
    ensures |argv| == |DockerRunPrefix| + |args|
    ensures argv[..|DockerRunPrefix|] == DockerRunPrefix
  {
    EnumerationLength(args, order);
    DockerRunPrefix + FlagArgs(args, order)
  }

  /** After the prefix, every map entry appears as a flag. */
  lemma DockerRunArgvHasEveryFlag(args: map<string, string>, order: seq<string>)
    requires Enumerates(order, args.Keys)
    ensures forall k :: k in args ==> FlagArg(k, args[k]) in DockerRunArgv(args, order)[|DockerRunPrefix|..]
  {
    var prefix := DockerRunPrefix;
    var flags := FlagArgs(args, order);
    assert DockerRunArgv(args, order)[|prefix|..] == flags;
    FlagArgsCover(args, order);
  }

  /** After the prefix, every argument is the flag of some map entry. */
  lemma DockerRunArgvOnlyFlags(args: map<string, string>, order: seq<string>)
    requires Enumerates(order, args.Keys)
    ensures var argv := DockerRunArgv(args, order);
      forall i :: |DockerRunPrefix| <= i < |argv| ==> exists k :: k in args && argv[i] == FlagArg(k, args[k])
  {
    var argv := DockerRunArgv(args, order);
    var prefix := DockerRunPrefix;
    var flags := FlagArgs(args, order);
    forall i | |prefix| <= i < |argv|
      ensures exists k :: k in args && argv[i] == FlagArg(k, args[k])
    {
      var j := i - |prefix|;
      assert argv[i] == flags[j];
      assert order[j] in args && flags[j] == FlagArg(order[j], args[order[j]]);
    }
  }
}
