/** com.github.mrtstampy.poisonivy.PoisonIvy: the older launcher, which retrieves into
    the fixed `ivylib` directory and starts only an application jar. */
module LegacyLauncher {
  import opened Common
  import opened LibraryDirectory
  import opened Retrieval
  import opened LaunchArgs
  import LegacyRetriever

  /** The options commons-cli parsed out of the arguments (`-help`, `-ivy`,
      `-ivysettings`, `-rp`, `-force`, `-nc`, `-libdir`, `-javaopts`, `-mainjar`). */
  datatype CommandLine = CommandLine(
    help: bool,
    ivy: Option<string>,
    ivySettings: Option<string>,
    resolvePattern: Option<string>,
    force: bool,
    noClean: bool,
    libdir: Option<string>,
    javaOpts: Option<string>,
    mainJar: Option<string>)

  /** `getCommand` for a given main jar: "java -cp" and the classpath, the `-javaopts`
      value as one single element when given, then "-jar" and the jar. */
  function LaunchCommand(classpath: string, javaOpts: Option<string>, mainJar: string): (cmd: seq<string>)
    ensures |cmd| == if javaOpts.Some? then 6 else 5
    ensures cmd[..3] == ["java", "-cp", classpath]
    ensures javaOpts.Some? ==> cmd[3] == javaOpts.value
    ensures cmd[|cmd| - 2..] == ["-jar", mainJar]
  {
    ["java", "-cp", classpath] + (if javaOpts.Some? then [javaOpts.value] else []) + ["-jar", mainJar]
  }

  /** `getCommand`, appending to the list step by step. */
  method GetCommand(classpath: string, javaOpts: Option<string>, mainJar: string) returns (cmd: seq<string>)
    ensures cmd == LaunchCommand(classpath, javaOpts, mainJar)
  {
    cmd := ["java"];
    cmd := cmd + ["-cp"];
    cmd := cmd + [classpath];
    if javaOpts.Some? {
      cmd := cmd + [javaOpts.value];
    }
    cmd := cmd + ["-jar"];
    cmd := cmd + [mainJar];
  }

  /** The retriever settings `executeLibraryRetrieval` produces: only the cleanup flag
      follows the options (`!-nc`); the directory and pattern are the fixed ones. */
  function RetrievalConfigFor(cli: CommandLine): (cfg: RetrieverConfig)
    ensures cfg == LegacyRetriever.FixedConfig(!cli.noClean)
  {
    LegacyRetriever.FixedConfig(!cli.noClean)
  }

  /** `executeLibraryRetrieval`: a fresh retriever, `setCleanSourcesAndJavadoc(!-nc)`,
      then `retrieveLibraries(-force, -ivy, -ivysettings)`. */
  method ExecuteLibraryRetrieval(cli: CommandLine, d: Disk, env: Env) returns (run: Retrieval)
    ensures run == Retrieve(RetrievalConfigFor(cli), d, cli.force, cli.ivy, cli.ivySettings, env)
  {
    var retriever := new LegacyRetriever.IvyLibraryRetriever();
    retriever.SetCleanSourcesAndJavadoc(!cli.noClean);
    run := retriever.RetrieveLibraries(d, cli.force, cli.ivy, cli.ivySettings, env);
  }

  /** What one call did: how it ended, the filesystem afterwards, the retrieval it ran
      (if any), and the application command handed to Runtime.exec (if any). */
  datatype Run = Run(completion: Completion, disk: Disk, retrieval: Option<Retrieval>,
                     launch: Option<seq<string>>)

  /** `execute`. `parse` stands for commons-cli on the options of `getOptions`
      (None: a ParseException). Every exception is caught and gives false; only the
      System.exit of `getArgs` is not a return. */
  function ExecuteOutcome(args: Option<seq<string>>, config: ConfigFile,
                          parse: seq<string> -> Option<CommandLine>, d: Disk, env: Env): (run: Run)
    ensures run.launch.Some? ==> run.retrieval.Some? && run.retrieval.value.result == Ok(true)
    ensures run.retrieval.Some? ==> run.disk == run.retrieval.value.disk
    ensures run.retrieval.None? ==> run.disk == d
  {
    match GetArgs(args, config)
    case Exit(status) => Run(Exited(status), d, None, None)
    case Failed(_) => Run(Returned(false), d, None, None)
    case Args(poisonArgs) =>
      match parse(poisonArgs)
      case None => Run(Returned(false), d, None, None)
      case Some(cli) =>
        if cli.help then Run(Returned(true), d, None, None)
        else
          var r := Retrieve(RetrievalConfigFor(cli), d, cli.force, cli.ivy, cli.ivySettings, env);
          match r.result
          case Throw(_) => Run(Returned(false), r.disk, Some(r), None)
          case Ok(false) => Run(Returned(false), r.disk, Some(r), None)
          case Ok(true) =>
            if cli.mainJar.Some? then
              var cmd := LaunchCommand(env.classpath, cli.javaOpts, cli.mainJar.value);
              Run(Returned(env.appStarts), r.disk, Some(r), Some(cmd))
            else Run(Returned(true), r.disk, Some(r), None)
  }

  // The decision table of `execute`.

  predicate ParsedAs(args: Option<seq<string>>, config: ConfigFile,
                     parse: seq<string> -> Option<CommandLine>, cli: CommandLine)
  {
    GetArgs(args, config).Args? && parse(GetArgs(args, config).args) == Some(cli)
  }

  /** `execute` never lets an exception out: it returns, or the JVM exits in
      `getArgs`. */
  lemma ExecuteNeverThrows(args: Option<seq<string>>, config: ConfigFile,
                           parse: seq<string> -> Option<CommandLine>, d: Disk, env: Env)
    ensures var run := ExecuteOutcome(args, config, parse, d, env);
      run.completion.Returned? || run.completion == Exited(-1)
  {
  }

  /** `-help` returns true; no retrieval, no launch, no change on disk. */
  lemma HelpReturnsWithoutRetrieval(args: Option<seq<string>>, config: ConfigFile,
                                    parse: seq<string> -> Option<CommandLine>, cli: CommandLine,
                                    d: Disk, env: Env)
    requires ParsedAs(args, config, parse, cli) && cli.help
    ensures ExecuteOutcome(args, config, parse, d, env) == Run(Returned(true), d, None, None)
  {
  }

  /** A successful retrieval returns true, and the jar is launched exactly when
      `-mainjar` is given. */
  lemma SuccessLaunchesOnlyWithJar(args: Option<seq<string>>, config: ConfigFile,
                                   parse: seq<string> -> Option<CommandLine>, cli: CommandLine,
                                   d: Disk, env: Env)
    requires ParsedAs(args, config, parse, cli) && !cli.help
    requires Retrieve(RetrievalConfigFor(cli), d, cli.force, cli.ivy, cli.ivySettings, env).result == Ok(true)
    requires env.appStarts
    ensures var run := ExecuteOutcome(args, config, parse, d, env);
      run.completion == Returned(true) &&
      (run.launch.Some? <==> cli.mainJar.Some?) &&
      (run.launch.Some? ==> run.launch.value == LaunchCommand(env.classpath, cli.javaOpts, cli.mainJar.value))
  {
  }

  /** A retrieval that returns false or throws makes `execute` return false and launch
      nothing. */
  lemma FailedRetrievalReturnsFalse(args: Option<seq<string>>, config: ConfigFile,
                                    parse: seq<string> -> Option<CommandLine>, cli: CommandLine,
                                    d: Disk, env: Env)
    requires ParsedAs(args, config, parse, cli) && !cli.help
    requires Retrieve(RetrievalConfigFor(cli), d, cli.force, cli.ivy, cli.ivySettings, env).result != Ok(true)
    ensures ExecuteOutcome(args, config, parse, d, env).completion == Returned(false)
    ensures ExecuteOutcome(args, config, parse, d, env).launch.None?
  {
  }

  /** Every resolver command of this launcher retrieves into `ivylib`, whatever
      `-libdir` or `-rp` say. */
  lemma RetrievesIntoFixedDirectory(cli: CommandLine, d: Disk, env: Env)
    requires Retrieve(RetrievalConfigFor(cli), d, cli.force, cli.ivy, cli.ivySettings, env).command.Some?
    ensures var cmd := Retrieve(RetrievalConfigFor(cli), d, cli.force, cli.ivy, cli.ivySettings, env).command.value;
      cmd[|cmd| - 1] == LegacyRetriever.ResolvePattern
  {
    var cfg := RetrievalConfigFor(cli);
    var cleared := if cli.force then ClearedDisk(d, cfg.libdir, env.undeletable) else Ok(d);
    var ivy := GetFile(cleared.value, env, cfg.lookup, cli.ivy.GetOr(DefaultIvyFile));
    assert Retrieve(cfg, d, cli.force, cli.ivy, cli.ivySettings, env).command ==
      Some(ResolverCommand(env.classpath, ivy.value, cli.ivySettings, cfg.resolvePattern));
  }
}
