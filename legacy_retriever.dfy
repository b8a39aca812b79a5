/** com.github.mrtstampy.poisonivy.IvyLibraryRetriever: the older retriever with a
    fixed library directory and resolve pattern, a plain filesystem lookup of the ivy
    and settings files, and a cleanup flag as its only state. */
module LegacyRetriever {
  import opened Common
  import opened LibraryDirectory
  import opened Retrieval

  /** The fixed library directory, relative to the working directory. */
  const LibrariesDir := "ivylib"
  /** The fixed resolve pattern, inside the fixed library directory. */
  const ResolvePattern := LibrariesDir + "/[artifact]-[revision](-[classifier]).[ext]"

  class IvyLibraryRetriever {
    var cleanSourcesAndJavadoc: bool

    constructor()
      ensures cleanSourcesAndJavadoc
    {
      cleanSourcesAndJavadoc := true;
    }

    function IsCleanSourcesAndJavadoc(): (b: bool)
      reads this
      ensures b == cleanSourcesAndJavadoc
    {
      cleanSourcesAndJavadoc
    }

    method SetCleanSourcesAndJavadoc(clean: bool)
      modifies this
      ensures cleanSourcesAndJavadoc == clean
    {
      cleanSourcesAndJavadoc := clean;
    }

    /** What `retrieveLibraries` reads: only the cleanup flag varies. */
    function Config(): (cfg: RetrieverConfig)
      reads this
      ensures cfg == FixedConfig(cleanSourcesAndJavadoc)
    {
      FixedConfig(cleanSourcesAndJavadoc)
    }

    /** `librariesRetrieved` on the fixed directory. */
    function LibrariesRetrieved(d: Disk): (b: bool)
      reads this
      ensures b <==> IsDirectory(d, LibrariesDir) && d[LibrariesDir].entries != {}
    {
      LibraryDirectory.LibrariesRetrieved(d, LibrariesDir)
    }

    /** `clearLibraryDirectory` on the fixed directory. */
    method ClearLibraryDirectory(d: Disk, env: Env) returns (r: Result<Disk>)
      ensures r == ClearedDisk(d, LibrariesDir, env.undeletable)
    {
      r := ClearDirectory(d, LibrariesDir, env.undeletable);
    }

    /** `retrieveLibraries(force, ivyfile, ivysettings)`. */
    method RetrieveLibraries(d: Disk, force: bool, ivyfile: Option<string>, ivysettings: Option<string>,
                             env: Env)
      returns (run: Retrieval)
      ensures run == Retrieve(Config(), d, force, ivyfile, ivysettings, env)
    {
      run := RunRetrieval(FixedConfig(IsCleanSourcesAndJavadoc()), d, force, ivyfile, ivysettings, env);
    }
  }

  /** The retrieval settings of this variant: the fixed directory and pattern, and no
      classpath fallback in `getFile`. */
  function FixedConfig(clean: bool): (cfg: RetrieverConfig)
    ensures cfg.libdir == LibrariesDir && cfg.resolvePattern == ResolvePattern
    ensures cfg.clean == clean && cfg.lookup == FileSystemOnly
  {
    RetrieverConfig(LibrariesDir, ResolvePattern, clean, FileSystemOnly)
  }

  /** A missing ivy file throws FileNotFoundException naming it, before anything is
      started; without `force` the filesystem is untouched. */
  lemma MissingIvyFileIsNotFound(clean: bool, d: Disk, ivyfile: Option<string>,
                                 ivysettings: Option<string>, env: Env)
    requires !LibrariesRetrieved(d, LibrariesDir)
    requires !Exists(d, ivyfile.GetOr(DefaultIvyFile))
    ensures Retrieve(FixedConfig(clean), d, false, ivyfile, ivysettings, env) ==
      Retrieval(Throw(FileNotFound(ivyfile.GetOr(DefaultIvyFile))), d, None)
  {
  }

  /** The settings file is checked the same way, after the ivy file and before the
      resolver is started. */
  lemma MissingSettingsIsNotFound(clean: bool, d: Disk, force: bool, ivyfile: Option<string>,
                                  settings: string, env: Env)
    requires !LibrariesRetrieved(d, LibrariesDir) || force
    requires force ==> !Exists(d, LibrariesDir) || IsDirectory(d, LibrariesDir)
    requires var d1 := if force then ClearedDisk(d, LibrariesDir, env.undeletable).value else d;
      Exists(d1, ivyfile.GetOr(DefaultIvyFile)) && !Exists(d1, settings)
    ensures var run := Retrieve(FixedConfig(clean), d, force, ivyfile, Some(settings), env);
      run.result == Throw(FileNotFound(settings)) && run.command.None?
  {
  }

  /** The two artifacts of the first-retrieval scenario. */
  const Jar := "foo-1.0.jar"
  const JavadocJar := "foo-1.0-javadoc.jar"

  /** The filesystem a resolver leaves after downloading a jar and its javadoc jar
      into `ivylib`. */
  function Downloaded(d: Disk): Disk {
    d[LibrariesDir := Directory({Jar, JavadocJar})]
     [ChildPath(LibrariesDir, Jar) := RegularFile]
     [ChildPath(LibrariesDir, JavadocJar) := RegularFile]
  }

  /** A first retrieval: no library directory yet, an ivy file in the working
      directory and a resolver that downloads a jar and its javadoc jar. The call
      returns true, starts the resolver once with the fixed pattern, and leaves only
      the plain jar, listed and on disk, in `ivylib`. */
  lemma FirstRetrievalScenario(cwd: string, classpath: string, env: Env)
    requires env.cwd == cwd && env.classpath == classpath && env.undeletable == {}
    requires forall cmd, disk :: env.resolver(cmd, disk) == Finished(0, Downloaded(disk))
    ensures var d := map["./ivy.xml" := RegularFile];
      var run := Retrieve(FixedConfig(true), d, false, None, None, env);
      run.result == Ok(true) &&
      run.command == Some(["java", "-cp", classpath, IvyMain, "-ivy", (if cwd == "/" then "" else cwd) + "/./ivy.xml",
                           "-retrieve", ResolvePattern]) &&
      run.disk == d[LibrariesDir := Directory({Jar})][ChildPath(LibrariesDir, Jar) := RegularFile]
  {
    var d := map["./ivy.xml" := RegularFile];
    var cfg := FixedConfig(true);
    var ivy := (if cwd == "/" then "" else cwd) + "/./ivy.xml";
    var cmd := ResolverCommand(classpath, ivy, None, ResolvePattern);
    assert Retrieve(cfg, d, false, None, None, env) == ExecIvyMain(cfg, d, ivy, None, env) by {
      assert !LibrariesRetrieved(d, LibrariesDir);
      IvyFileFound(cwd, d, env);
    }
    assert env.resolver(cmd, d) == Finished(0, Downloaded(d));
    DownloadCleaned();
    assert cmd == ["java", "-cp", classpath, IvyMain, "-ivy", ivy, "-retrieve", ResolvePattern];
  }

  /** Cleaning the downloaded `ivylib` deletes the javadoc jar's path and listing
      entry and keeps everything else. */
  lemma DownloadCleaned()
    ensures var d := map["./ivy.xml" := RegularFile];
      CleanedDisk(Downloaded(d), LibrariesDir, {}) ==
        Ok(d[LibrariesDir := Directory({Jar})][ChildPath(LibrariesDir, Jar) := RegularFile])
  {
    var d := map["./ivy.xml" := RegularFile];
    JarAndJavadocCleaned();
    assert {Jar, JavadocJar} - CleanedEntries({Jar, JavadocJar}, {}) == {JavadocJar};
    JavadocJarDeleted(d);
  }

  lemma JavadocJarDeleted(d: Disk)
    requires d == map["./ivy.xml" := RegularFile]
    ensures WithDeleted(Downloaded(d), LibrariesDir, {JavadocJar}) ==
      d[LibrariesDir := Directory({Jar})][ChildPath(LibrariesDir, Jar) := RegularFile]
  {
    var after := Downloaded(d);
    var expected := d[LibrariesDir := Directory({Jar})][ChildPath(LibrariesDir, Jar) := RegularFile];
    var cleaned := WithDeleted(after, LibrariesDir, {JavadocJar});
    assert !IsChildIn(LibrariesDir, {JavadocJar}, "./ivy.xml") by {
      assert "./ivy.xml"[..|LibrariesDir| + 1][0] == '.';
    }
    ChildPathIsChild(LibrariesDir, {JavadocJar}, Jar);
    ChildPathIsChild(LibrariesDir, {JavadocJar}, JavadocJar);
    assert after.Keys == {"./ivy.xml", LibrariesDir, ChildPath(LibrariesDir, Jar), ChildPath(LibrariesDir, JavadocJar)};
    assert cleaned.Keys == expected.Keys;
    assert cleaned[LibrariesDir] == Directory({Jar});
    assert cleaned["./ivy.xml"] == RegularFile && cleaned[ChildPath(LibrariesDir, Jar)] == RegularFile;
  }

  lemma IvyFileFound(cwd: string, d: Disk, env: Env)
    requires env.cwd == cwd && d == map["./ivy.xml" := RegularFile]
    ensures GetFile(d, env, FileSystemOnly, DefaultIvyFile) == Ok((if cwd == "/" then "" else cwd) + "/./ivy.xml")
  {
    assert "./ivy.xml"[..1] != "/" by {
      assert "./ivy.xml"[..1][0] == '.';
    }
    if cwd == "/" {
      assert cwd + "./ivy.xml" == "" + "/./ivy.xml";
    } else {
      assert cwd + "/" + "./ivy.xml" == cwd + "/./ivy.xml";
    }
  }

  /** Of a jar and its javadoc jar, cleanup keeps the jar. */
  lemma JarAndJavadocCleaned()
    ensures CleanedEntries({Jar, JavadocJar}, {}) == {Jar}
  {
    JavadocJarIsSelected();
    PlainJarIsKept();
  }
}
