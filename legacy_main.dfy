/** com.github.mrtstampy.poisonivy.Main: the older static entry point. It requires
    `-mainjar`, retrieves into `ivylib` with cleanup always on, and exits with -1 when
    retrieval fails. */
module LegacyMain {
  import opened Common
  import opened LibraryDirectory
  import opened Retrieval
  import opened LaunchArgs
  import LegacyRetriever

  /** The options commons-cli parsed out of the arguments (`-help`, `-ivy`,
      `-ivysettings`, `-force`, `-javaopts`, `-mainjar`). */
  datatype CommandLine = CommandLine(
    help: bool,
    ivy: Option<string>,
    ivySettings: Option<string>,
    force: bool,
    javaOpts: Option<string>,
    mainJar: Option<string>)

  /** `getCommand` for a given main jar: "java", the `-javaopts` value as one single
      element when given, then "-jar" and the jar. No classpath is passed. */
  function LaunchCommand(javaOpts: Option<string>, mainJar: string): (cmd: seq<string>)
    ensures |cmd| == if javaOpts.Some? then 4 else 3
    ensures cmd[0] == "java"
    ensures cmd[1] == if javaOpts.Some? then javaOpts.value else "-jar"
    ensures cmd[|cmd| - 2..] == ["-jar", mainJar]
  {
    ["java"] + (if javaOpts.Some? then [javaOpts.value] else []) + ["-jar", mainJar]
  }

  /** `getCommand`, appending to the list step by step. */
  method GetCommand(javaOpts: Option<string>, mainJar: string) returns (cmd: seq<string>)
    ensures cmd == LaunchCommand(javaOpts, mainJar)
  {
    cmd := ["java"];
    if javaOpts.Some? {
      cmd := cmd + [javaOpts.value];
    }
    cmd := cmd + ["-jar"];
    cmd := cmd + [mainJar];
  }

  /** "-cp" appears in the command only when it is itself the `-javaopts` value or the
      jar's name. */
  lemma NoClasspathOption(javaOpts: Option<string>, mainJar: string)
    requires javaOpts != Some("-cp") && mainJar != "-cp"
    ensures "-cp" !in LaunchCommand(javaOpts, mainJar)
  {
    var cmd := LaunchCommand(javaOpts, mainJar);
    forall k | 0 <= k < |cmd| ensures cmd[k] != "-cp" {
      if javaOpts.Some? && k == 1 {
        assert cmd[k] == javaOpts.value;
      } else if k == |cmd| - 2 {
        assert cmd[k] == cmd[|cmd| - 2..][0];
      } else if k == |cmd| - 1 {
        assert cmd[k] == cmd[|cmd| - 2..][1];
      }
    }
  }

  /** The retriever settings of `executeLibraryRetrieval`: the retriever's defaults, so
      cleanup is always on. */
  const RetrievalConfig := LegacyRetriever.FixedConfig(true)

  /** `executeLibraryRetrieval`: a fresh retriever and `retrieveLibraries(-force, -ivy,
      -ivysettings)`. */
  method ExecuteLibraryRetrieval(cli: CommandLine, d: Disk, env: Env) returns (run: Retrieval)
    ensures run == Retrieve(RetrievalConfig, d, cli.force, cli.ivy, cli.ivySettings, env)
  {
    var retriever := new LegacyRetriever.IvyLibraryRetriever();
    run := retriever.RetrieveLibraries(d, cli.force, cli.ivy, cli.ivySettings, env);
  }

  /** How `main` ends: it returns, an exception leaves it (it declares `throws
      Exception`), or System.exit stops the JVM. */
  datatype Termination = Completed | Uncaught(error: Exception) | SystemExit(status: int)

  /** What one run of `main` did: how it ended, whether the help text was printed, the
      filesystem afterwards, the retrieval it ran (if any), and the application command
      handed to Runtime.exec (if any). */
  datatype MainRun = MainRun(termination: Termination, helpPrinted: bool, disk: Disk,
                             retrieval: Option<Retrieval>, launch: Option<seq<string>>)

  /** `main`. `parse` stands for commons-cli on the options of `getOptions` (None: a
      ParseException). */
  function MainOutcome(args: Option<seq<string>>, config: ConfigFile,
                       parse: seq<string> -> Option<CommandLine>, d: Disk, env: Env): (run: MainRun)
    ensures run.launch.Some? ==> run.retrieval.Some? && run.retrieval.value.result == Ok(true)
    ensures run.retrieval.Some? ==> run.disk == run.retrieval.value.disk
    ensures run.retrieval.None? ==> run.disk == d
    ensures run.helpPrinted ==> run.retrieval.None? && run.launch.None?
  {
    match GetArgs(args, config)
    case Exit(status) => MainRun(SystemExit(status), true, d, None, None)
    case Failed(e) => MainRun(Uncaught(e), false, d, None, None)
    case Args(poisonArgs) =>
      match parse(poisonArgs)
      case None => MainRun(Uncaught(ParseError), false, d, None, None)
      case Some(cli) =>
        if cli.help || cli.mainJar.None? then MainRun(Completed, true, d, None, None)
        else
          var r := Retrieve(RetrievalConfig, d, cli.force, cli.ivy, cli.ivySettings, env);
          match r.result
          case Throw(e) => MainRun(Uncaught(e), false, r.disk, Some(r), None)
          case Ok(false) => MainRun(SystemExit(-1), false, r.disk, Some(r), None)
          case Ok(true) =>
            var cmd := LaunchCommand(cli.javaOpts, cli.mainJar.value);
            MainRun(if env.appStarts then Completed else Uncaught(IOError), false, r.disk, Some(r), Some(cmd))
  }

  // The decision table of `main`.

  predicate ParsedAs(args: Option<seq<string>>, config: ConfigFile,
                     parse: seq<string> -> Option<CommandLine>, cli: CommandLine)
  {
    GetArgs(args, config).Args? && parse(GetArgs(args, config).args) == Some(cli)
  }

  /** `-help`, or no `-mainjar`, prints the help text only: no retrieval, no launch, no
      change on disk. */
  lemma HelpOrNoJarPrintsHelpOnly(args: Option<seq<string>>, config: ConfigFile,
                                  parse: seq<string> -> Option<CommandLine>, cli: CommandLine,
                                  d: Disk, env: Env)
    requires ParsedAs(args, config, parse, cli) && (cli.help || cli.mainJar.None?)
    ensures MainOutcome(args, config, parse, d, env) == MainRun(Completed, true, d, None, None)
  {
  }

  /** With `-mainjar` and no `-help`, the libraries are retrieved with cleanup on; on
      success the jar is launched with the command `getCommand` builds. */
  lemma SuccessLaunchesJar(args: Option<seq<string>>, config: ConfigFile,
                           parse: seq<string> -> Option<CommandLine>, cli: CommandLine,
                           d: Disk, env: Env)
    requires ParsedAs(args, config, parse, cli) && !cli.help && cli.mainJar.Some?
    requires Retrieve(RetrievalConfig, d, cli.force, cli.ivy, cli.ivySettings, env).result == Ok(true)
    requires env.appStarts
    ensures var run := MainOutcome(args, config, parse, d, env);
      run.termination == Completed && !run.helpPrinted &&
      run.retrieval == Some(Retrieve(RetrievalConfig, d, cli.force, cli.ivy, cli.ivySettings, env)) &&
      run.launch == Some(LaunchCommand(cli.javaOpts, cli.mainJar.value))
  {
  }

  /** A retrieval that returns false exits the JVM with -1 and launches nothing. */
  lemma FailedRetrievalExits(args: Option<seq<string>>, config: ConfigFile,
                             parse: seq<string> -> Option<CommandLine>, cli: CommandLine,
                             d: Disk, env: Env)
    requires ParsedAs(args, config, parse, cli) && !cli.help && cli.mainJar.Some?
    requires Retrieve(RetrievalConfig, d, cli.force, cli.ivy, cli.ivySettings, env).result == Ok(false)
    ensures MainOutcome(args, config, parse, d, env).termination == SystemExit(-1)
    ensures MainOutcome(args, config, parse, d, env).launch.None?
  {
  }

  /** Retrieval always cleans: after a resolver run with exit code 0 on an existing
      `ivylib`, no entry the filter selects survives unless its delete failed. */
  lemma RetrievalAlwaysCleans(d: Disk, ivyPath: string, ivysettings: Option<string>, env: Env, after: Disk)
    requires ivysettings.Some? ==> GetFile(d, env, FileSystemOnly, ivysettings.value).Ok?
    requires env.resolver(ResolverCommand(env.classpath, ivyPath, ivysettings, LegacyRetriever.ResolvePattern), d)
      == Finished(0, after)
    requires IsDirectory(after, LegacyRetriever.LibrariesDir)
    ensures var run := ExecIvyMain(RetrievalConfig, d, ivyPath, ivysettings, env);
      run.result == Ok(true) &&
      forall e :: e in run.disk[LegacyRetriever.LibrariesDir].entries && e !in env.undeletable ==>
        !IsSourceOrJavadoc(e)
  {
    SuccessRemovesSourcesAndJavadoc(RetrievalConfig, d, ivyPath, ivysettings, env, after);
  }
}
