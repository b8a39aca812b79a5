/** com.github.mrstampy.poisonivy.PoisonIvy: read the arguments, retrieve the libraries
    with a configured retriever, and launch the application jar or main class. */
module Launcher {
  import opened Common
  import opened LibraryDirectory
  import opened Retrieval
  import opened LaunchArgs
  import Retriever

  /** The options commons-cli parsed out of the arguments (`-h`, `-ivy`, `-ivysettings`,
      `-rp`, `-f`, `-nc`, `-libdir`, `-mj`, `-mc`, `-D`, `-X`). `properties` lists the
      entries of the `-D` Properties object in the order its entrySet yields them;
      `xOptions` the `-X` values in the order given. */
  datatype CommandLine = CommandLine(
    help: bool,
    ivy: Option<string>,
    ivySettings: Option<string>,
    resolvePattern: Option<string>,
    force: bool,
    noClean: bool,
    libdir: Option<string>,
    mainJar: Option<string>,
    mainClass: Option<string>,
    properties: seq<(string, string)>,
    xOptions: seq<string>)

  /** A `-D` property as one element of the launch command. */
  function PropertyFlag(key: string, value: string): string {
    "-D" + key + "=" + value
  }

  /** A `-X` value as one element of the launch command. */
  function XFlag(x: string): string {
    "-X" + x
  }

  /** What the command starts: `-jar` and the main jar, else the main class, else
      nothing. */
  function MainTarget(cli: CommandLine): (t: seq<string>)
    ensures cli.mainJar.Some? ==> t == ["-jar", cli.mainJar.value]
    ensures cli.mainJar.None? && cli.mainClass.Some? ==> t == [cli.mainClass.value]
    ensures cli.mainJar.None? && cli.mainClass.None? ==> t == []
  {
    match cli.mainJar
    case Some(jar) => ["-jar", jar]
    case None => if cli.mainClass.Some? then [cli.mainClass.value] else []
  }

  /** `getCommand`: "java -cp" and the classpath, one element per `-D` property, then
      one per `-X` value in order, then the main target. */
  function LaunchCommand(classpath: string, cli: CommandLine): (cmd: seq<string>)
    ensures |cmd| == 3 + |cli.properties| + |cli.xOptions| + |MainTarget(cli)|
    ensures cmd[..3] == ["java", "-cp", classpath]
    ensures forall i :: 0 <= i < |cli.properties| ==>
      cmd[3 + i] == PropertyFlag(cli.properties[i].0, cli.properties[i].1)
    ensures forall j :: 0 <= j < |cli.xOptions| ==>
      cmd[3 + |cli.properties| + j] == XFlag(cli.xOptions[j])
    ensures cmd[3 + |cli.properties| + |cli.xOptions|..] == MainTarget(cli)
  {
    ["java", "-cp", classpath]
    + seq(|cli.properties|, i requires 0 <= i < |cli.properties| =>
        PropertyFlag(cli.properties[i].0, cli.properties[i].1))
    + seq(|cli.xOptions|, j requires 0 <= j < |cli.xOptions| => XFlag(cli.xOptions[j]))
    + MainTarget(cli)
  }

  /** Every `-D` element comes before every `-X` element, and both come after the
      classpath and before the main target. */
  lemma PropertiesBeforeXOptions(classpath: string, cli: CommandLine, i: int, j: int)
    requires 0 <= i < |cli.properties| && 0 <= j < |cli.xOptions|
    ensures var cmd := LaunchCommand(classpath, cli);
      3 <= 3 + i < 3 + |cli.properties| + j < |cmd| - |MainTarget(cli)| &&
      cmd[3 + i] == PropertyFlag(cli.properties[i].0, cli.properties[i].1) &&
      cmd[3 + |cli.properties| + j] == XFlag(cli.xOptions[j])
  {
  }

  /** `addDOptions`: appends one element per property entry. */
  method AddDOptions(properties: seq<(string, string)>, command: seq<string>) returns (r: seq<string>)
    ensures |r| == |command| + |properties|
    ensures r[..|command|] == command
    ensures forall i :: 0 <= i < |properties| ==>
      r[|command| + i] == PropertyFlag(properties[i].0, properties[i].1)
  {
    r := command;
    if |properties| == 0 {
      return;
    }
    var k := 0;
    while k < |properties|
      invariant 0 <= k <= |properties|
      invariant |r| == |command| + k
      invariant r[..|command|] == command
      invariant forall i :: 0 <= i < k ==> r[|command| + i] == PropertyFlag(properties[i].0, properties[i].1)
    {
      r := r + [PropertyFlag(properties[k].0, properties[k].1)];
      k := k + 1;
    }
  }

  /** `addXOptions`: appends one element per `-X` value, in order. */
  method AddXOptions(xs: seq<string>, command: seq<string>) returns (r: seq<string>)
    ensures |r| == |command| + |xs|
    ensures r[..|command|] == command
    ensures forall j :: 0 <= j < |xs| ==> r[|command| + j] == XFlag(xs[j])
  {
    r := command;
    if |xs| == 0 {
      return;
    }
    for k := 0 to |xs|
      invariant |r| == |command| + k
      invariant r[..|command|] == command
      invariant forall j :: 0 <= j < k ==> r[|command| + j] == XFlag(xs[j])
    {
      r := r + [XFlag(xs[k])];
    }
  }

  /** `getCommand`, appending to the list step by step. */
  method GetCommand(classpath: string, cli: CommandLine) returns (cmd: seq<string>)
    ensures cmd == LaunchCommand(classpath, cli)
  {
    cmd := ["java", "-cp", classpath];
    cmd := AddDOptions(cli.properties, cmd);
    cmd := AddXOptions(cli.xOptions, cmd);
    if cli.mainJar.Some? {
      cmd := cmd + ["-jar", cli.mainJar.value];
    } else if cli.mainClass.Some? {
      cmd := cmd + [cli.mainClass.value];
    }
    var spec := LaunchCommand(classpath, cli);
    assert |cmd| == |spec|;
    assert forall k :: 0 <= k < |cmd| ==> cmd[k] == spec[k] by {
      forall k | 0 <= k < |cmd| ensures cmd[k] == spec[k] {
        if k < 3 {
          assert cmd[k] == cmd[..3][k] && spec[k] == spec[..3][k];
        } else if k >= 3 + |cli.properties| + |cli.xOptions| {
          var m := 3 + |cli.properties| + |cli.xOptions|;
          assert spec[k] == spec[m..][k - m];
        }
      }
    }
  }

  /** The retriever settings `executeLibraryRetrieval` produces: cleanup unless `-nc`,
      the `-libdir` directory when given, and the resolve pattern the retriever was
      constructed with, which still names the default directory; `-rp` is not used. */
  function RetrievalConfigFor(cli: CommandLine): (cfg: RetrieverConfig)
    ensures cfg.clean == !cli.noClean
    ensures cfg.libdir == if cli.libdir.Some? then cli.libdir.value else Retriever.LibrariesDir
    ensures cfg.resolvePattern == Retriever.LibrariesDir + Retriever.Separator + Retriever.ResolvePattern
    ensures cfg.lookup == FileSystemThenClasspath
  {
    RetrieverConfig(cli.libdir.GetOr(Retriever.LibrariesDir),
                    Retriever.LibrariesDir + Retriever.Separator + Retriever.ResolvePattern,
                    !cli.noClean, FileSystemThenClasspath)
  }

  /** `executeLibraryRetrieval`: a fresh retriever, `setLibdir` only when `-libdir` is
      given, `setCleanSourcesAndJavadoc(!-nc)`, then `retrieveLibraries(-f, -ivy,
      -ivysettings)`. */
  method ExecuteLibraryRetrieval(cli: CommandLine, d: Disk, env: Env) returns (run: Retrieval)
    ensures run == Retrieve(RetrievalConfigFor(cli), d, cli.force, cli.ivy, cli.ivySettings, env)
  {
    var retriever := new Retriever.IvyLibraryRetriever();
    if cli.libdir.Some? {
      retriever.SetLibdir(cli.libdir);
    }
    retriever.SetCleanSourcesAndJavadoc(!cli.noClean);
    assert retriever.Config() == RetrievalConfigFor(cli);
    run := retriever.RetrieveLibraries(d, cli.force, cli.ivy, cli.ivySettings, env);
  }

  /** What one call did: how it ended, the filesystem afterwards, the retrieval it ran
      (if any), and the application command handed to Runtime.exec (if any). */
  datatype Run = Run(completion: Completion, disk: Disk, retrieval: Option<Retrieval>,
                     launch: Option<seq<string>>)

  /** `executeImpl`. `parse` stands for commons-cli on the options of `getOptions`
      (None: a ParseException). */
  function ExecuteImplOutcome(args: Option<seq<string>>, config: ConfigFile,
                              parse: seq<string> -> Option<CommandLine>, d: Disk, env: Env): (run: Run)
    ensures run.launch.Some? ==> run.retrieval.Some? && run.retrieval.value.result == Ok(true)
    ensures run.retrieval.Some? ==> run.disk == run.retrieval.value.disk
    ensures run.retrieval.None? ==> run.disk == d
  {
    match GetArgs(args, config)
    case Exit(status) => Run(Exited(status), d, None, None)
    case Failed(e) => Run(Threw(e), d, None, None)
    case Args(poisonArgs) =>
      match parse(poisonArgs)
      case None => Run(Threw(ParseError), d, None, None)
      case Some(cli) =>
        if cli.help then Run(Returned(true), d, None, None)
        else
          var r := Retrieve(RetrievalConfigFor(cli), d, cli.force, cli.ivy, cli.ivySettings, env);
          match r.result
          case Throw(e) => Run(Threw(e), r.disk, Some(r), None)
          case Ok(false) => Run(Returned(false), r.disk, Some(r), None)
          case Ok(true) =>
            if cli.mainJar.Some? || cli.mainClass.Some? then
              var cmd := LaunchCommand(env.classpath, cli);
              Run(if env.appStarts then Returned(true) else Threw(IOError), r.disk, Some(r), Some(cmd))
            else Run(Returned(true), r.disk, Some(r), None)
  }

  /** `execute`: an exception from `executeImpl` is logged and turned into false. */
  function ExecuteOutcome(args: Option<seq<string>>, config: ConfigFile,
                          parse: seq<string> -> Option<CommandLine>, d: Disk, env: Env): (run: Run)
    ensures !run.completion.Threw?
    ensures var impl := ExecuteImplOutcome(args, config, parse, d, env);
      run == if impl.completion.Threw? then impl.(completion := Returned(false)) else impl
  {
    var impl := ExecuteImplOutcome(args, config, parse, d, env);
    if impl.completion.Threw? then impl.(completion := Returned(false)) else impl
  }

  // The decision table of `executeImpl` and `execute`.

  /** The parsed options of a call whose arguments were obtained and parsed. */
  predicate ParsedAs(args: Option<seq<string>>, config: ConfigFile,
                     parse: seq<string> -> Option<CommandLine>, cli: CommandLine)
  {
    GetArgs(args, config).Args? && parse(GetArgs(args, config).args) == Some(cli)
  }

  /** `-h` prints help and returns true; no retrieval, no launch, no change on disk. */
  lemma HelpReturnsWithoutRetrieval(args: Option<seq<string>>, config: ConfigFile,
                                    parse: seq<string> -> Option<CommandLine>, cli: CommandLine,
                                    d: Disk, env: Env)
    requires ParsedAs(args, config, parse, cli) && cli.help
    ensures ExecuteImplOutcome(args, config, parse, d, env) == Run(Returned(true), d, None, None)
  {
  }

  /** Without `-h`, the libraries are retrieved with the settings the options give; on
      success the call returns true and the application is launched exactly when `-mj`
      or `-mc` is given, with the command `getCommand` builds. */
  lemma SuccessLaunchesOnlyWithTarget(args: Option<seq<string>>, config: ConfigFile,
                                      parse: seq<string> -> Option<CommandLine>, cli: CommandLine,
                                      d: Disk, env: Env)
    requires ParsedAs(args, config, parse, cli) && !cli.help
    requires Retrieve(RetrievalConfigFor(cli), d, cli.force, cli.ivy, cli.ivySettings, env).result == Ok(true)
    requires env.appStarts
    ensures var run := ExecuteImplOutcome(args, config, parse, d, env);
      run.completion == Returned(true) &&
      run.retrieval == Some(Retrieve(RetrievalConfigFor(cli), d, cli.force, cli.ivy, cli.ivySettings, env)) &&
      (run.launch.Some? <==> cli.mainJar.Some? || cli.mainClass.Some?) &&
      (run.launch.Some? ==> run.launch.value == LaunchCommand(env.classpath, cli))
  {
  }

  /** A retrieval that returns false makes the call return false and launch nothing. */
  lemma FailedRetrievalLaunchesNothing(args: Option<seq<string>>, config: ConfigFile,
                                       parse: seq<string> -> Option<CommandLine>, cli: CommandLine,
                                       d: Disk, env: Env)
    requires ParsedAs(args, config, parse, cli) && !cli.help
    requires Retrieve(RetrievalConfigFor(cli), d, cli.force, cli.ivy, cli.ivySettings, env).result == Ok(false)
    ensures ExecuteImplOutcome(args, config, parse, d, env).completion == Returned(false)
    ensures ExecuteImplOutcome(args, config, parse, d, env).launch.None?
  {
  }

  /** With no arguments and no config file, the JVM exits with -1 before any
      parsing; `execute` does not catch that. */
  lemma NoArgumentsAndNoConfigExits(args: Option<seq<string>>,
                                    parse: seq<string> -> Option<CommandLine>, d: Disk, env: Env)
    requires args.None? || args == Some([])
    ensures ExecuteOutcome(args, Missing, parse, d, env) == Run(Exited(-1), d, None, None)
  {
  }

  /** `-libdir` moves where the retriever looks and cleans, but the resolver command
      still retrieves into the default directory. */
  lemma LibdirKeepsDefaultRetrievePattern(cli: CommandLine, d: Disk, env: Env)
    requires Retrieve(RetrievalConfigFor(cli), d, cli.force, cli.ivy, cli.ivySettings, env).command.Some?
    ensures var cmd := Retrieve(RetrievalConfigFor(cli), d, cli.force, cli.ivy, cli.ivySettings, env).command.value;
      cmd[|cmd| - 1] == Retriever.LibrariesDir + Retriever.Separator + Retriever.ResolvePattern
  {
    var cfg := RetrievalConfigFor(cli);
    var r := Retrieve(cfg, d, cli.force, cli.ivy, cli.ivySettings, env);
    var cleared := if cli.force then ClearedDisk(d, cfg.libdir, env.undeletable) else Ok(d);
    var ivy := GetFile(cleared.value, env, cfg.lookup, cli.ivy.GetOr(DefaultIvyFile));
    assert r.command == Some(ResolverCommand(env.classpath, ivy.value, cli.ivySettings, cfg.resolvePattern));
  }
}
