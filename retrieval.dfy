/** The retrieval flow that both IvyLibraryRetriever classes run: skip a populated
    library directory, clear it on `force`, find the ivy file (and the settings file),
    start `java org.apache.ivy.Main` and, on exit code 0, remove source and javadoc
    artifacts. The two classes differ only in the values of RetrieverConfig. */
module Retrieval {
  import opened Common
  import opened JavaText
  import opened LibraryDirectory

  /** The ivy file used when none is given (both packages). */
  const DefaultIvyFile := "./ivy.xml"
  const IvyMain := "org.apache.ivy.Main"

  /** What the resolver process did: it ran to completion with an exit code, leaving the
      filesystem as `after`, or Runtime.exec could not start it. */
  datatype ResolverRun = Finished(exitCode: int, after: Disk) | CouldNotStart

  /** Where `getFile` looks: the filesystem and then the classpath (com.github.mrstampy),
      or the filesystem only (com.github.mrtstampy). */
  datatype Lookup = FileSystemThenClasspath | FileSystemOnly

  /** What lies outside the launcher: the working directory, the value of
      java.class.path, the classpath resources by name (each with the path of the file
      its lookup yields), the entry names whose delete fails, the resolver process as a
      function of its command and of the filesystem it starts on, and whether the
      application process can be started. */
  datatype Env = Env(
    cwd: string,
    classpath: string,
    resources: map<string, string>,
    undeletable: set<string>,
    resolver: (seq<string>, Disk) -> ResolverRun,
    appStarts: bool)

  /** File.getAbsolutePath() on a Unix host: an absolute path is kept; a relative one
      is resolved against the working directory, with one separator between them (none
      is added after the root directory "/"). No other normalisation takes place. */
  function AbsolutePath(cwd: string, path: string): (p: string)
    ensures StartsWith(path, "/") ==> p == path
    ensures |path| <= |p| && p[|p| - |path|..] == path
    ensures !StartsWith(path, "/") ==> StartsWith(p, cwd)
    ensures !StartsWith(path, "/") ==> |p| == |cwd| + |path| + (if cwd == "/" then 0 else 1)
    ensures !StartsWith(path, "/") && cwd != "/" ==> p[|cwd|] == '/'
    ensures StartsWith(cwd, "/") ==> StartsWith(p, "/")
  {
    if StartsWith(path, "/") then path
    else if cwd == "/" then
      assert ("/" + path)[1..] == path;
      cwd + path
    else
      assert (cwd + "/" + path)[|cwd| + 1..] == path;
      assert (cwd + "/" + path)[..|cwd|] == cwd;
      assert |cwd| > 0 ==> (cwd + "/" + path)[..1] == cwd[..1];
      cwd + "/" + path
  }

  /** In the root directory a relative name gets a single leading separator. */
  lemma AbsolutePathInRoot()
    ensures AbsolutePath("/", "ivy.xml") == "/ivy.xml"
    ensures AbsolutePath("/home/app", "ivy.xml") == "/home/app/ivy.xml"
  {
    assert !StartsWith("ivy.xml", "/") by {
      assert "ivy.xml"[..1][0] == 'i';
    }
  }

  /** `getFile`: the absolute path of the file named `fileName`. With the classpath
      fallback, a name found neither on disk nor as a resource (tried as given, then
      with a leading "/") makes `new File(url.toURI())` dereference a null URL: the
      exception is a NullPointerException, not the FileNotFoundException the code
      after it was written to throw. */
  function GetFile(d: Disk, env: Env, lookup: Lookup, fileName: string): (r: Result<string>)
    ensures r.Ok? <==> (Exists(d, fileName) ||
      (lookup.FileSystemThenClasspath? && (fileName in env.resources || "/" + fileName in env.resources)))
    ensures Exists(d, fileName) ==> r == Ok(AbsolutePath(env.cwd, fileName))
    ensures r.Throw? ==> r.error == (if lookup.FileSystemOnly? then FileNotFound(fileName) else NullPointer)
  {
    if Exists(d, fileName) then Ok(AbsolutePath(env.cwd, fileName))
    else if lookup.FileSystemOnly? then Throw(FileNotFound(fileName))
    else if fileName in env.resources then Ok(env.resources[fileName])
    else if "/" + fileName in env.resources then Ok(env.resources["/" + fileName])
    else Throw(NullPointer)
  }

  /** `createCommand`: the command line that runs Ivy's main class on the ivy file and
      retrieves into the resolve pattern; "-settings" follows only when a settings file
      is given, so the command has 8 or 10 elements. */
  function ResolverCommand(classpath: string, ivyfile: string, ivysettings: Option<string>, pattern: string)
    : (cmd: seq<string>)
    ensures |cmd| == if ivysettings.Some? then 10 else 8
    ensures cmd[..6] == ["java", "-cp", classpath, IvyMain, "-ivy", ivyfile]
    ensures ivysettings.Some? <==> cmd[6] == "-settings"
    ensures ivysettings.Some? ==> cmd[7] == ivysettings.value
    ensures cmd[|cmd| - 2..] == ["-retrieve", pattern]
  {
    ["java", "-cp", classpath, IvyMain, "-ivy", ivyfile]
    + (if ivysettings.Some? then ["-settings", ivysettings.value] else [])
    + ["-retrieve", pattern]
  }

  /** `createCommand`, appending to the list one element at a time. */
  method CreateCommand(classpath: string, ivyfile: string, ivysettings: Option<string>, pattern: string)
    returns (cmd: seq<string>)
    ensures cmd == ResolverCommand(classpath, ivyfile, ivysettings, pattern)
  {
    cmd := [];
    cmd := cmd + ["java"];
    cmd := cmd + ["-cp"];
    cmd := cmd + [classpath];
    cmd := cmd + [IvyMain];
    cmd := cmd + ["-ivy"];
    cmd := cmd + [ivyfile];
    if ivysettings.Some? {
      cmd := cmd + ["-settings"];
      cmd := cmd + [ivysettings.value];
    }
    cmd := cmd + ["-retrieve"];
    cmd := cmd + [pattern];
  }

  /** The retriever's settings at the time of the call: the library directory, the
      resolve pattern, whether source and javadoc artifacts are removed, and where
      `getFile` looks. */
  datatype RetrieverConfig = RetrieverConfig(libdir: string, resolvePattern: string, clean: bool, lookup: Lookup)

  /** The outcome of one retrieval: what `retrieveLibraries` returned or threw, the
      filesystem afterwards, and the resolver command handed to Runtime.exec, if any. */
  datatype Retrieval = Retrieval(result: Result<bool>, disk: Disk, command: Option<seq<string>>)

  /** `execIvyMain`: check the settings file, start the resolver, wait for its exit code
      and clean up after a successful run. */
  function ExecIvyMain(cfg: RetrieverConfig, d: Disk, ivyPath: string, ivysettings: Option<string>, env: Env)
    : (r: Retrieval)
    ensures r.command.None? <==> ivysettings.Some? && GetFile(d, env, cfg.lookup, ivysettings.value).Throw?
    ensures r.command.None? ==> r.result.Throw? && r.disk == d
    ensures r.command.Some? ==> r.command.value == ResolverCommand(env.classpath, ivyPath, ivysettings, cfg.resolvePattern)
    ensures r.result == Ok(false) <==>
      r.command.Some? && env.resolver(r.command.value, d).Finished? && env.resolver(r.command.value, d).exitCode != 0
    ensures r.result == Ok(true) ==>
      r.command.Some? && env.resolver(r.command.value, d).Finished? && env.resolver(r.command.value, d).exitCode == 0
    ensures r.result == Ok(true) && cfg.clean ==>
      IsDirectory(r.disk, cfg.libdir) &&
      forall e :: e in r.disk[cfg.libdir].entries && e !in env.undeletable ==> !IsSourceOrJavadoc(e)
  {
    var settings := if ivysettings.Some? then GetFile(d, env, cfg.lookup, ivysettings.value) else Ok("");
    if settings.Throw? then Retrieval(Throw(settings.error), d, None)
    else
      var cmd := ResolverCommand(env.classpath, ivyPath, ivysettings, cfg.resolvePattern);
      match env.resolver(cmd, d)
      case CouldNotStart => Retrieval(Throw(IOError), d, Some(cmd))
      case Finished(code, after) =>
        if code != 0 then Retrieval(Ok(false), after, Some(cmd))
        else if !cfg.clean then Retrieval(Ok(true), after, Some(cmd))
        else
          var cleaned := CleanedDisk(after, cfg.libdir, env.undeletable);
          if cleaned.Throw? then Retrieval(Throw(cleaned.error), after, Some(cmd))
          else Retrieval(Ok(true), cleaned.value, Some(cmd))
  }

  /** `retrieveLibraries(force, ivyfile, ivysettings)`. */
  function Retrieve(cfg: RetrieverConfig, d: Disk, force: bool, ivyfile: Option<string>,
                    ivysettings: Option<string>, env: Env): (r: Retrieval)
    ensures r.command.None? && r.result.Ok? <==> LibrariesRetrieved(d, cfg.libdir) && !force
    ensures r.command.Some? ==> force || !LibrariesRetrieved(d, cfg.libdir)
    ensures r.command.Some? ==>
      |r.command.value| >= 8 && r.command.value[|r.command.value| - 1] == cfg.resolvePattern
    ensures r.command.None? ==>
      r.disk == d || (force && ClearedDisk(d, cfg.libdir, env.undeletable) == Ok(r.disk))
    ensures r.result == Ok(false) ==> r.command.Some?
  {
    if LibrariesRetrieved(d, cfg.libdir) && !force then Retrieval(Ok(true), d, None)
    else
      var cleared := if force then ClearedDisk(d, cfg.libdir, env.undeletable) else Ok(d);
      if cleared.Throw? then Retrieval(Throw(cleared.error), d, None)
      else
        var ivy := GetFile(cleared.value, env, cfg.lookup, ivyfile.GetOr(DefaultIvyFile));
        if ivy.Throw? then Retrieval(Throw(ivy.error), cleared.value, None)
        else ExecIvyMain(cfg, cleared.value, ivy.value, ivysettings, env)
  }

  /** `execIvyMain` step by step. */
  method RunIvyMain(cfg: RetrieverConfig, d: Disk, ivyPath: string, ivysettings: Option<string>, env: Env)
    returns (run: Retrieval)
    ensures run == ExecIvyMain(cfg, d, ivyPath, ivysettings, env)
  {
    if ivysettings.Some? {
      var settings := GetFile(d, env, cfg.lookup, ivysettings.value);
      if settings.Throw? {
        return Retrieval(Throw(settings.error), d, None);
      }
    }
    var cmd := CreateCommand(env.classpath, ivyPath, ivysettings, cfg.resolvePattern);
    var process := env.resolver(cmd, d);
    if process.CouldNotStart? {
      return Retrieval(Throw(IOError), d, Some(cmd));
    }
    var code, after := process.exitCode, process.after;
    if code == 0 {
      if cfg.clean {
        var cleaned := CleanDirectory(after, cfg.libdir, env.undeletable);
        if cleaned.Throw? {
          return Retrieval(Throw(cleaned.error), after, Some(cmd));
        }
        return Retrieval(Ok(true), cleaned.value, Some(cmd));
      }
      return Retrieval(Ok(true), after, Some(cmd));
    }
    run := Retrieval(Ok(false), after, Some(cmd));
  }

  /** `retrieveLibraries` step by step. */
  method RunRetrieval(cfg: RetrieverConfig, d: Disk, force: bool, ivyfile: Option<string>,
                      ivysettings: Option<string>, env: Env)
    returns (run: Retrieval)
    ensures run == Retrieve(cfg, d, force, ivyfile, ivysettings, env)
  {
    var libsExist := LibrariesRetrieved(d, cfg.libdir);
    if libsExist && !force {
      return Retrieval(Ok(true), d, None);
    }
    var disk := d;
    if force {
      var cleared := ClearDirectory(disk, cfg.libdir, env.undeletable);
      if cleared.Throw? {
        return Retrieval(Throw(cleared.error), d, None);
      }
      disk := cleared.value;
    }
    var ivy := GetFile(disk, env, cfg.lookup, if ivyfile.None? then DefaultIvyFile else ivyfile.value);
    if ivy.Throw? {
      return Retrieval(Throw(ivy.error), disk, None);
    }
    run := RunIvyMain(cfg, disk, ivy.value, ivysettings, env);
  }

  // Properties of the retrieval flow.

  /** A populated library directory without `force` is left alone: the call returns
      true, nothing is cleared and no process is started. */
  lemma PopulatedDirectoryIsSkipped(cfg: RetrieverConfig, d: Disk, ivyfile: Option<string>,
                                    ivysettings: Option<string>, env: Env)
    requires LibrariesRetrieved(d, cfg.libdir)
    ensures Retrieve(cfg, d, false, ivyfile, ivysettings, env) == Retrieval(Ok(true), d, None)
  {
  }

  /** With `force`, the directory is cleared before the ivy file is looked up: when the
      ivy file is missing the call throws, nothing is started, and (every delete
      succeeding) the directory is left existing and empty. */
  lemma ForceClearsBeforeLookup(cfg: RetrieverConfig, d: Disk, ivyfile: Option<string>,
                                ivysettings: Option<string>, env: Env)
    requires !Exists(d, cfg.libdir) || IsDirectory(d, cfg.libdir)
    requires IsDirectory(d, cfg.libdir) ==> d[cfg.libdir].entries !! env.undeletable
    requires GetFile(ClearedDisk(d, cfg.libdir, env.undeletable).value, env, cfg.lookup,
                     ivyfile.GetOr(DefaultIvyFile)).Throw?
    ensures var run := Retrieve(cfg, d, true, ivyfile, ivysettings, env);
      run.result.Throw? && run.command.None? &&
      IsDirectory(run.disk, cfg.libdir) && run.disk[cfg.libdir].entries == {}
  {
    ClearedWhenDeletesSucceed(d, cfg.libdir, env.undeletable);
  }

  /** With `force` and every delete succeeding, the resolver runs on the emptied
      directory: the call is `execIvyMain` on the cleared filesystem, in which the
      directory lists nothing and no entry it listed before still has a path. */
  lemma ForceRunsResolverOnEmptiedDirectory(cfg: RetrieverConfig, d: Disk, ivyfile: Option<string>,
                                            ivysettings: Option<string>, env: Env)
    requires !Exists(d, cfg.libdir) || IsDirectory(d, cfg.libdir)
    requires IsDirectory(d, cfg.libdir) ==> d[cfg.libdir].entries !! env.undeletable
    requires GetFile(ClearedDisk(d, cfg.libdir, env.undeletable).value, env, cfg.lookup,
                     ivyfile.GetOr(DefaultIvyFile)).Ok?
    ensures var cleared := ClearedDisk(d, cfg.libdir, env.undeletable).value;
      IsDirectory(cleared, cfg.libdir) && cleared[cfg.libdir].entries == {} &&
      (forall e :: IsDirectory(d, cfg.libdir) && e in d[cfg.libdir].entries ==> ChildPath(cfg.libdir, e) !in cleared) &&
      Retrieve(cfg, d, true, ivyfile, ivysettings, env) ==
        ExecIvyMain(cfg, cleared, GetFile(cleared, env, cfg.lookup, ivyfile.GetOr(DefaultIvyFile)).value,
                    ivysettings, env)
  {
    ClearedWhenDeletesSucceed(d, cfg.libdir, env.undeletable);
  }

  /** An ivy file that cannot be found stops the call before anything is started:
      the filesystem lookup alone throws FileNotFoundException naming the file, the
      lookup with the classpath fallback a NullPointerException. */
  lemma MissingIvyFileThrows(cfg: RetrieverConfig, d: Disk, force: bool, ivyfile: Option<string>,
                             ivysettings: Option<string>, env: Env)
    requires !LibrariesRetrieved(d, cfg.libdir) || force
    requires force ==> ClearedDisk(d, cfg.libdir, env.undeletable).Ok?
    requires var d1 := if force then ClearedDisk(d, cfg.libdir, env.undeletable).value else d;
      GetFile(d1, env, cfg.lookup, ivyfile.GetOr(DefaultIvyFile)).Throw?
    ensures var d1 := if force then ClearedDisk(d, cfg.libdir, env.undeletable).value else d;
      var name := ivyfile.GetOr(DefaultIvyFile);
      Retrieve(cfg, d, force, ivyfile, ivysettings, env) ==
        Retrieval(Throw(if cfg.lookup.FileSystemOnly? then FileNotFound(name) else NullPointer), d1, None)
  {
  }

  /** An ivy file kept inside the library directory is deleted by `force` before it is
      looked up, so the call throws without starting anything (unless the classpath
      has a resource of that name). */
  lemma ForceDeletesIvyFileInLibraryDirectory(cfg: RetrieverConfig, d: Disk, name: string,
                                              ivysettings: Option<string>, env: Env)
    requires IsDirectory(d, cfg.libdir) && name in d[cfg.libdir].entries && name !in env.undeletable
    requires ChildPath(cfg.libdir, name) !in env.resources && "/" + ChildPath(cfg.libdir, name) !in env.resources
    ensures var path := ChildPath(cfg.libdir, name);
      var run := Retrieve(cfg, d, true, Some(path), ivysettings, env);
      run.command.None? &&
      run.result == Throw(if cfg.lookup.FileSystemOnly? then FileNotFound(path) else NullPointer)
  {
    ChildPathIsChild(cfg.libdir, d[cfg.libdir].entries - env.undeletable, name);
    assert ChildPath(cfg.libdir, name) != cfg.libdir;
  }

  /** Whenever the directory counts as unpopulated (or `force` is on), the resolver is
      started exactly once, with the command built from the ivy file's absolute path,
      the settings path as given, and the configured resolve pattern. */
  lemma ResolverStartedWhenNeeded(cfg: RetrieverConfig, d: Disk, force: bool, ivyfile: Option<string>,
                                  ivysettings: Option<string>, env: Env)
    requires !LibrariesRetrieved(d, cfg.libdir) || force
    requires force ==> !Exists(d, cfg.libdir) || IsDirectory(d, cfg.libdir)
    ensures var d1 := if force then ClearedDisk(d, cfg.libdir, env.undeletable).value else d;
      var ivy := GetFile(d1, env, cfg.lookup, ivyfile.GetOr(DefaultIvyFile));
      ivy.Ok? && (ivysettings.Some? ==> GetFile(d1, env, cfg.lookup, ivysettings.value).Ok?) ==>
        Retrieve(cfg, d, force, ivyfile, ivysettings, env).command ==
          Some(ResolverCommand(env.classpath, ivy.value, ivysettings, cfg.resolvePattern))
  {
  }

  /** A missing settings file stops the call before anything is started. */
  lemma MissingSettingsStopsBeforeSpawn(cfg: RetrieverConfig, d: Disk, ivyPath: string,
                                        settings: string, env: Env)
    requires GetFile(d, env, cfg.lookup, settings).Throw?
    ensures ExecIvyMain(cfg, d, ivyPath, Some(settings), env) ==
      Retrieval(Throw(GetFile(d, env, cfg.lookup, settings).error), d, None)
  {
  }

  /** A nonzero exit code returns false and runs no cleanup. */
  lemma NonzeroExitFails(cfg: RetrieverConfig, d: Disk, ivyPath: string, ivysettings: Option<string>,
                         env: Env, code: int, after: Disk)
    requires ivysettings.Some? ==> GetFile(d, env, cfg.lookup, ivysettings.value).Ok?
    requires env.resolver(ResolverCommand(env.classpath, ivyPath, ivysettings, cfg.resolvePattern), d)
      == Finished(code, after)
    requires code != 0
    ensures ExecIvyMain(cfg, d, ivyPath, ivysettings, env).result == Ok(false)
    ensures ExecIvyMain(cfg, d, ivyPath, ivysettings, env).disk == after
  {
  }

  /** Exit code 0 with cleanup on: the call returns true, the library directory keeps
      exactly its entries that the filter does not select (plus those whose delete
      failed), the paths of the deleted ones are gone, and nothing else on disk
      changes. */
  lemma SuccessRemovesSourcesAndJavadoc(cfg: RetrieverConfig, d: Disk, ivyPath: string,
                                        ivysettings: Option<string>, env: Env, after: Disk)
    requires ivysettings.Some? ==> GetFile(d, env, cfg.lookup, ivysettings.value).Ok?
    requires env.resolver(ResolverCommand(env.classpath, ivyPath, ivysettings, cfg.resolvePattern), d)
      == Finished(0, after)
    requires cfg.clean && IsDirectory(after, cfg.libdir)
    ensures var run := ExecIvyMain(cfg, d, ivyPath, ivysettings, env);
      run.result == Ok(true) && IsDirectory(run.disk, cfg.libdir) &&
      (forall e :: e in run.disk[cfg.libdir].entries <==>
        e in after[cfg.libdir].entries && (!IsSourceOrJavadoc(e) || e in env.undeletable)) &&
      (forall e :: e in after[cfg.libdir].entries && IsSourceOrJavadoc(e) && e !in env.undeletable ==>
        ChildPath(cfg.libdir, e) !in run.disk) &&
      (forall p :: p != cfg.libdir ==>
        (p in run.disk <==>
          p in after &&
          !IsChildIn(cfg.libdir, after[cfg.libdir].entries - CleanedEntries(after[cfg.libdir].entries, env.undeletable), p))) &&
      (forall p :: p != cfg.libdir && p in run.disk ==> run.disk[p] == after[p])
  {
    var entries := after[cfg.libdir].entries;
    forall e | e in entries && IsSourceOrJavadoc(e) && e !in env.undeletable
      ensures ChildPath(cfg.libdir, e) !in ExecIvyMain(cfg, d, ivyPath, ivysettings, env).disk
    {
      ChildPathIsChild(cfg.libdir, entries - CleanedEntries(entries, env.undeletable), e);
      assert ChildPath(cfg.libdir, e) != cfg.libdir;
    }
  }

  /** Exit code 0 with cleanup off leaves the filesystem as the resolver left it. */
  lemma SuccessWithoutCleanupKeepsEverything(cfg: RetrieverConfig, d: Disk, ivyPath: string,
                                             ivysettings: Option<string>, env: Env, after: Disk)
    requires ivysettings.Some? ==> GetFile(d, env, cfg.lookup, ivysettings.value).Ok?
    requires env.resolver(ResolverCommand(env.classpath, ivyPath, ivysettings, cfg.resolvePattern), d)
      == Finished(0, after)
    requires !cfg.clean
    ensures ExecIvyMain(cfg, d, ivyPath, ivysettings, env).result == Ok(true)
    ensures ExecIvyMain(cfg, d, ivyPath, ivysettings, env).disk == after
  {
  }

  /** Exit code 0 with cleanup on, but no library directory afterwards (the resolver
      retrieved nothing): listFiles returns null and the call throws. */
  lemma CleanupWithoutDirectoryThrows(cfg: RetrieverConfig, d: Disk, ivyPath: string,
                                      ivysettings: Option<string>, env: Env, after: Disk)
    requires ivysettings.Some? ==> GetFile(d, env, cfg.lookup, ivysettings.value).Ok?
    requires env.resolver(ResolverCommand(env.classpath, ivyPath, ivysettings, cfg.resolvePattern), d)
      == Finished(0, after)
    requires cfg.clean && !Exists(after, cfg.libdir)
    ensures ExecIvyMain(cfg, d, ivyPath, ivysettings, env).result == Throw(NullPointer)
  {
  }
}
