/** com.github.mrstampy.poisonivy.IvyLibraryRetriever: the configurable retriever with
    a library directory, a resolve pattern, a cleanup flag and a listener registry. */
module Retriever {
  import opened Common
  import opened Lists
  import opened LibraryDirectory
  import opened Retrieval

  /** The default library directory. */
  const LibrariesDir := "./ivylib"
  /** The Ivy retrieve pattern below the library directory. */
  const ResolvePattern := "[artifact]-[revision](-[classifier]).[ext]"
  /** File.separator on a Unix host. */
  const Separator := "/"

  /** A ProcessListener, known only by its identity. */
  datatype Listener = Listener(id: nat)

  class IvyLibraryRetriever {
    var cleanSourcesAndJavadoc: bool
    /** `null` is None. */
    var libdir: Option<string>
    /** `null` is None. */
    var resolvePattern: Option<string>
    /** The listener list; `addProcessListeners` can put null (None) into it. */
    var listeners: seq<Option<Listener>>

    /** The field initialisers: cleanup on, the default library directory, and a resolve
        pattern computed once from that default directory. */
    constructor()
      ensures cleanSourcesAndJavadoc
      ensures libdir == Some(LibrariesDir)
      ensures resolvePattern == Some(LibrariesDir + Separator + ResolvePattern)
      ensures listeners == []
    {
      cleanSourcesAndJavadoc := true;
      libdir := Some(LibrariesDir);
      resolvePattern := Some(LibrariesDir + Separator + ResolvePattern);
      listeners := [];
    }

    /** `getLibdir`: the directory set last, or the default one when it is null. */
    function GetLibdir(): (r: string)
      reads this
      ensures libdir.Some? ==> r == libdir.value
      ensures libdir.None? ==> r == LibrariesDir
    {
      if libdir.None? then LibrariesDir else libdir.value
    }

    /** `getResolvePattern`: the pattern set last; only when it is null is a pattern
        derived from the current library directory. */
    function GetResolvePattern(): (r: string)
      reads this
      ensures resolvePattern.Some? ==> r == resolvePattern.value
      ensures resolvePattern.None? ==> r == GetLibdir() + Separator + ResolvePattern
    {
      if resolvePattern.None? then GetLibdir() + Separator + ResolvePattern else resolvePattern.value
    }

    function IsCleanSourcesAndJavadoc(): (b: bool)
      reads this
      ensures b == cleanSourcesAndJavadoc
    {
      cleanSourcesAndJavadoc
    }

    /** What `retrieveLibraries` reads from the fields when it is called. */
    function Config(): (cfg: RetrieverConfig)
      reads this
      ensures cfg.libdir == GetLibdir() && cfg.resolvePattern == GetResolvePattern()
      ensures cfg.clean == cleanSourcesAndJavadoc && cfg.lookup == FileSystemThenClasspath
    {
      RetrieverConfig(GetLibdir(), GetResolvePattern(), cleanSourcesAndJavadoc, FileSystemThenClasspath)
    }

    method SetCleanSourcesAndJavadoc(clean: bool)
      modifies this`cleanSourcesAndJavadoc
      ensures cleanSourcesAndJavadoc == clean
    {
      cleanSourcesAndJavadoc := clean;
    }

    /** `setLibdir` changes only the directory: a resolve pattern that is set keeps
        naming the directory it was computed from. */
    method SetLibdir(dir: Option<string>)
      modifies this`libdir
      ensures libdir == dir
      ensures old(resolvePattern).Some? ==> GetResolvePattern() == old(GetResolvePattern())
    {
      libdir := dir;
    }

    method SetResolvePattern(pattern: Option<string>)
      modifies this`resolvePattern
      ensures resolvePattern == pattern
      ensures pattern.None? ==> GetResolvePattern() == GetLibdir() + Separator + ResolvePattern
    {
      resolvePattern := pattern;
    }

    /** `addProcessListeners`: appends every listener given, without removing duplicates
        or nulls. */
    method AddProcessListeners(ls: seq<Option<Listener>>)
      modifies this`listeners
      ensures listeners == old(listeners) + ls
    {
      listeners := listeners + ls;
    }

    /** `addProcessListener`: a null or already registered listener is ignored; the
        registry stays free of duplicates and holds the listener afterwards. */
    method AddProcessListener(l: Option<Listener>)
      modifies this`listeners
      ensures l.None? || l in old(listeners) ==> listeners == old(listeners)
      ensures l.Some? && l !in old(listeners) ==> listeners == old(listeners) + [l]
      ensures l.Some? ==> l in listeners
      ensures NoDuplicates(old(listeners)) ==> NoDuplicates(listeners)
    {
      if l.Some? && l !in listeners {
        if NoDuplicates(listeners) {
          AppendFresh(listeners, l);
        }
        listeners := listeners + [l];
      }
    }

    /** `removeProcessListener`: List.remove drops the first occurrence of a non-null
        listener; on a registry free of duplicates the listener is then gone. */
    method RemoveProcessListener(l: Option<Listener>)
      modifies this`listeners
      ensures l.None? ==> listeners == old(listeners)
      ensures l.Some? ==> listeners == RemoveFirst(old(listeners), l)
      ensures NoDuplicates(old(listeners)) ==> l.Some? ==> l !in listeners && NoDuplicates(listeners)
    {
      if l.Some? {
        if NoDuplicates(listeners) {
          RemoveFirstFromDistinct(listeners, l);
        }
        listeners := RemoveFirst(listeners, l);
      }
    }

    /** `clearLibraryDirectory` on the current library directory. */
    method ClearLibraryDirectory(d: Disk, env: Env) returns (r: Result<Disk>)
      ensures r == ClearedDisk(d, GetLibdir(), env.undeletable)
    {
      r := ClearDirectory(d, GetLibdir(), env.undeletable);
    }

    /** `librariesRetrieved` on the current library directory. */
    function LibrariesRetrieved(d: Disk): (b: bool)
      reads this
      ensures b <==> IsDirectory(d, GetLibdir()) && d[GetLibdir()].entries != {}
    {
      LibraryDirectory.LibrariesRetrieved(d, GetLibdir())
    }

    /** `retrieveLibraries(force, ivyfile, ivysettings)` with the current settings. */
    method RetrieveLibraries(d: Disk, force: bool, ivyfile: Option<string>, ivysettings: Option<string>,
                             env: Env)
      returns (run: Retrieval)
      ensures run == Retrieve(Config(), d, force, ivyfile, ivysettings, env)
    {
      var cfg := RetrieverConfig(GetLibdir(), GetResolvePattern(), IsCleanSourcesAndJavadoc(),
                                 FileSystemThenClasspath);
      run := RunRetrieval(cfg, d, force, ivyfile, ivysettings, env);
    }
  }

  /** The stale default: a fresh retriever pointed at another directory still retrieves
      into the default one, until the resolve pattern is reset to null. */
  method LibdirOverrideScenario(dir: string) returns (patternAfterSet: string, patternAfterReset: string)
    ensures patternAfterSet == LibrariesDir + Separator + ResolvePattern
    ensures patternAfterReset == dir + Separator + ResolvePattern
  {
    var retriever := new IvyLibraryRetriever();
    retriever.SetLibdir(Some(dir));
    assert retriever.GetLibdir() == dir;
    patternAfterSet := retriever.GetResolvePattern();
    retriever.SetResolvePattern(None);
    patternAfterReset := retriever.GetResolvePattern();
  }

  /** Registering a new listener and removing it again leaves the registry as it was. */
  lemma AddThenRemoveRestoresRegistry(listeners: seq<Option<Listener>>, l: Listener)
    requires Some(l) !in listeners
    ensures RemoveFirst(listeners + [Some(l)], Some(l)) == listeners
  {
    RemoveFirstAppended(listeners, Some(l));
  }
}
