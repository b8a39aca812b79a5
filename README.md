# PoisonIvy launcher, modelled in Dafny

PoisonIvy is a Java launcher. It retrieves an application's libraries by running
Apache Ivy (`java org.apache.ivy.Main`) as a child process into a library directory,
and then optionally starts the application as a second `java` process. This project
models the deterministic orchestration around those two processes. It covers both
source packages:

- `com.github.mrstampy.poisonivy`: a configurable `IvyLibraryRetriever` and the
  `PoisonIvy` launcher, with `-D`/`-X` options and a main jar or main class.
- `com.github.mrtstampy.poisonivy`: the older retriever, fixed to `ivylib`, with its
  `PoisonIvy` launcher and a static `Main`.

The model is built from these parts:

- **Filesystem.** A map from path to node, where a node is a regular file or a
  directory listing entry names; the entry `name` of directory `dir` has the path
  `dir/name`. A successful delete removes both the name from the listing and its
  path. A delete of an entry named in the environment's `undeletable` set fails and
  is only logged, as `File.delete` returning false is.
- **Resolver process.** A function of the command and of the filesystem it starts
  on. It yields an exit code and the filesystem it leaves behind, or says that the
  process could not be started (an `IOException` from `Runtime.exec`).
- **Application process.** Its start-up result is one boolean, `appStarts`.
- **Parsed options.** commons-cli is a `parse` function parameter that returns a
  `CommandLine` record or None (a `ParseException`).

Modules follow the program's structure:

- `Common`: Java null, the exceptions, and how a call ends.
- `Lists`: `List.remove` and lists without duplicates.
- `JavaText`: `String.indexOf` and `String.split(" ")`.
- `LibraryDirectory`: `librariesRetrieved`, the source/javadoc filter, and the two
  delete loops.
- `Retrieval`: `getFile`, `createCommand`, `execIvyMain` and `retrieveLibraries`.
  Both retriever classes share this code; their differences are the values of a
  `RetrieverConfig`.
- `Retriever` and `LegacyRetriever`: the two retriever classes.
- `LaunchArgs`: `getArgs` and `parsePoisonIvyConfig`, identical in the three entry
  points.
- `Launcher`, `LegacyLauncher` and `LegacyMain`: the three entry points.

Each imperative operation is a method that is proved equal to a specification
function. These operations are the list-building `createCommand` and `getCommand`,
the `addDOptions`/`addXOptions` loops, and the delete loops. The properties are then
proved about the specification functions.

Where the code and its documented intent differ, the model follows the code:

- **Missing ivy or settings file (mrstampy `getFile`).** A file that is found neither
  on disk nor as a classpath resource ends in a `NullPointerException`: `url.toURI()`
  is called on a null URL. The `FileNotFoundException` that the code after it was
  written to throw is never reached. The older package does throw
  `FileNotFoundException`.
- **Settings-file lookup (mrstampy).** The settings file goes through the same
  classpath fallback as the ivy file.
- **Marker filter positions.** The filter calls `indexOf`, which finds only the first
  occurrence of a marker. A name that starts with a marker is therefore kept, even
  when the same marker occurs again later in the name.
- **`listFiles()` returning null.** `clearLibraryDirectory` (when the path is a
  regular file) and `cleanSourcesAndJavadoc` (when the directory is missing) iterate
  over null and throw `NullPointerException`.
- **Stale resolve pattern (mrstampy).** The resolve pattern is computed once from
  the default directory when the retriever is built. So `-libdir` moves where the
  retriever checks and cleans, but not where Ivy retrieves.
- **The `-rp` option.** It is parsed and never used.

## Model

| member | source | states |
|---|---|---|
| `Lists.RemoveFirst` | PoisonIvy/src/com/github/mrstampy/poisonivy/IvyLibraryRetriever.java:76-78 | List.remove(Object) drops the first occurrence of a present element and keeps the order of the others (the list before it plus the list after it; the multiset loses one copy, the length shrinks by one) and leaves a list without it unchanged |
| `Lists.RemoveFirstKeepsLaterOccurrence` | PoisonIvy/src/com/github/mrstampy/poisonivy/IvyLibraryRetriever.java:76-78 | removing 1 from [1, 2, 1] gives [2, 1]: the later 1 stays, in place |
| `Lists.RemoveFirstFromDistinct` | PoisonIvy/src/com/github/mrstampy/poisonivy/IvyLibraryRetriever.java:76-78 | on a list without duplicates, removing x leaves no x and no duplicates |
| `Lists.RemoveFirstAppended` | PoisonIvy/src/com/github/mrstampy/poisonivy/IvyLibraryRetriever.java:72-78 | removing an element just appended to a list that lacked it gives the list back |
| `JavaText.IndexOf` | PoisonIvy/src/com/github/mrstampy/poisonivy/IvyLibraryRetriever.java:228 | indexOf returns the first index where the pattern occurs, or -1 exactly when it occurs nowhere |
| `JavaText.IndexOfPositive` | PoisonIvy/src/com/github/mrstampy/poisonivy/IvyLibraryRetriever.java:228 | indexOf(...) > 0 holds exactly when the pattern occurs in the name and the name does not start with it |
| `JavaText.JoinSplitAll` | PoisonIvy/src/com/github/mrstampy/poisonivy/PoisonIvy.java:220 | the pieces between single spaces, joined with single spaces, give the string back |
| `JavaText.Split` | PoisonIvy/src/com/github/mrstampy/poisonivy/PoisonIvy.java:220 | split(" ") gives [s] for a string without a space; otherwise the pieces with trailing empty pieces dropped; no piece contains a space |
| `JavaText.SplitKeepsAllText` | PoisonIvy/src/com/github/mrstampy/poisonivy/PoisonIvy.java:220 | split(" ") drops only trailing empty pieces: the string is the kept pieces joined by spaces plus one space per dropped piece |
| `LibraryDirectory.LibrariesRetrieved` | PoisonIvy/src/com/github/mrstampy/poisonivy/IvyLibraryRetriever.java:317-330 | true exactly when the library directory exists, is a directory and lists at least one entry |
| `LibraryDirectory.EmptyDirectoryIsNotRetrieved` | PoisonIvy/src/com/github/mrstampy/poisonivy/IvyLibraryRetriever.java:317-330 | an existing empty directory counts as not retrieved |
| `LibraryDirectory.IsSourceOrJavadoc` | PoisonIvy/src/com/github/mrstampy/poisonivy/IvyLibraryRetriever.java:222-232 | the filter accepts a name exactly when indexOf of one of the six markers in it is greater than 0 |
| `LibraryDirectory.MarkerFrom` | PoisonIvy/src/com/github/mrstampy/poisonivy/IvyLibraryRetriever.java:227-230 | the loop over the markers from the k-th on accepts exactly when one of those markers has indexOf greater than 0 |
| `LibraryDirectory.IsSourceOrJavadocCharacterised` | PoisonIvy/src/com/github/mrstampy/poisonivy/IvyLibraryRetriever.java:222-232 | the filter selects a name exactly when one of the six markers occurs in it and the name does not start with that marker |
| `LibraryDirectory.JavadocJarIsSelected` | PoisonIvy/src/com/github/mrstampy/poisonivy/IvyLibraryRetriever.java:59 | foo-1.0-javadoc.jar is selected for deletion |
| `LibraryDirectory.PlainJarIsKept` | PoisonIvy/src/com/github/mrtstampy/poisonivy/IvyLibraryRetriever.java:20 | foo-1.0.jar contains no marker and is kept |
| `LibraryDirectory.LeadingMarkerHidesLaterOne` | PoisonIvy/src/com/github/mrtstampy/poisonivy/IvyLibraryRetriever.java:105-110 | a name that starts with a marker is kept although the marker occurs again later in it |
| `LibraryDirectory.DeleteEach` | PoisonIvy/src/com/github/mrstampy/poisonivy/IvyLibraryRetriever.java:174-181 | the delete loop removes from the listing, and removes the path of, exactly the targets whose delete succeeds; every other path and entry stays |
| `LibraryDirectory.ClearedDisk` | PoisonIvy/src/com/github/mrstampy/poisonivy/IvyLibraryRetriever.java:159-172 | clearing throws NullPointerException exactly when the path is a regular file; otherwise the directory exists afterwards and lists only entries whose delete failed; the paths of the deleted entries are gone and every other path is unchanged |
| `LibraryDirectory.ClearedWhenDeletesSucceed` | PoisonIvy/src/com/github/mrstampy/poisonivy/IvyLibraryRetriever.java:163-171 | when every delete succeeds, the directory exists and is empty after clearing, and no entry it listed before still has a path |
| `LibraryDirectory.ClearDirectory` | PoisonIvy/src/com/github/mrstampy/poisonivy/IvyLibraryRetriever.java:160-171 | the delete-entries, delete-directory, mkdir sequence yields ClearedDisk |
| `LibraryDirectory.CleanedEntries` | PoisonIvy/src/com/github/mrstampy/poisonivy/IvyLibraryRetriever.java:219-237 | cleanup keeps every entry the filter does not select, and a selected entry survives only when its delete fails |
| `LibraryDirectory.CleanedDisk` | PoisonIvy/src/com/github/mrtstampy/poisonivy/IvyLibraryRetriever.java:99-117 | cleanup throws NullPointerException exactly when the library directory is not a directory; otherwise the listing becomes CleanedEntries, the paths of the deleted entries are gone, and every other path is unchanged |
| `LibraryDirectory.CleanDirectory` | PoisonIvy/src/com/github/mrstampy/poisonivy/IvyLibraryRetriever.java:220-236 | listing with the filter and deleting each selected entry yields CleanedDisk |
| `Retrieval.AbsolutePath` | PoisonIvy/src/com/github/mrstampy/poisonivy/IvyLibraryRetriever.java:153 | getAbsolutePath keeps an absolute path; a relative one becomes the working directory, one separator (none after the root "/") and the path: the result starts with the working directory, ends with the path and has exactly that length |
| `Retrieval.AbsolutePathInRoot` | PoisonIvy/src/com/github/mrstampy/poisonivy/IvyLibraryRetriever.java:153 | in the root directory ivy.xml resolves to /ivy.xml, in /home/app to /home/app/ivy.xml |
| `Retrieval.GetFile` | PoisonIvy/src/com/github/mrstampy/poisonivy/IvyLibraryRetriever.java:260-283 | a file is found exactly when it exists on disk or, with the classpath fallback, as a resource under its name or "/"+name; an existing file yields its absolute path; a miss is FileNotFound(name) without the fallback and NullPointerException with it |
| `Retrieval.ResolverCommand` | PoisonIvy/src/com/github/mrstampy/poisonivy/IvyLibraryRetriever.java:239-258 | the resolver command has 10 elements with a settings file and 8 without; it starts java -cp cp org.apache.ivy.Main -ivy f; -settings s come next only when settings are given; it ends with -retrieve and the pattern |
| `Retrieval.CreateCommand` | PoisonIvy/src/com/github/mrtstampy/poisonivy/IvyLibraryRetriever.java:145-164 | appending the elements one by one yields ResolverCommand |
| `Retrieval.ExecIvyMain` | PoisonIvy/src/com/github/mrstampy/poisonivy/IvyLibraryRetriever.java:183-208 | the resolver is started exactly when the settings file (if given) is found, with ResolverCommand; false exactly when it finishes with a nonzero code; true only after code 0, and then with cleanup on no selected, deletable entry is left |
| `Retrieval.Retrieve` | PoisonIvy/src/com/github/mrstampy/poisonivy/IvyLibraryRetriever.java:141-154 | it returns without starting anything exactly when the directory is populated and force is off; a resolver is started only when needed and retrieves into the configured pattern; without a resolver run the disk is unchanged or just cleared; false only after a resolver run |
| `Retrieval.RunIvyMain` | PoisonIvy/src/com/github/mrstampy/poisonivy/IvyLibraryRetriever.java:183-208 | the settings check, the command, the resolver run and the exit-code branch step by step yield ExecIvyMain |
| `Retrieval.RunRetrieval` | PoisonIvy/src/com/github/mrstampy/poisonivy/IvyLibraryRetriever.java:141-154 | the skip test, the forced clear, the ivy file lookup and execIvyMain step by step yield Retrieve |
| `Retrieval.PopulatedDirectoryIsSkipped` | PoisonIvy/src/com/github/mrstampy/poisonivy/IvyLibraryRetriever.java:142-147 | a populated library directory without force returns true with the disk unchanged and no command started |
| `Retrieval.ForceClearsBeforeLookup` | PoisonIvy/src/com/github/mrstampy/poisonivy/IvyLibraryRetriever.java:149-151 | with force the directory is cleared before the ivy file lookup: a missing ivy file still leaves the directory existing and empty (every delete succeeding), with nothing started |
| `Retrieval.ForceRunsResolverOnEmptiedDirectory` | PoisonIvy/src/com/github/mrstampy/poisonivy/IvyLibraryRetriever.java:149-153 | with force and every delete succeeding, the call is execIvyMain on the cleared disk, where the directory lists nothing and no earlier entry has a path |
| `Retrieval.MissingIvyFileThrows` | PoisonIvy/src/com/github/mrstampy/poisonivy/IvyLibraryRetriever.java:149-153 | an ivy file that is not found throws before anything starts: FileNotFoundException naming it without the classpath fallback, NullPointerException with it; the disk is the one after the optional clear |
| `Retrieval.ForceDeletesIvyFileInLibraryDirectory` | PoisonIvy/src/com/github/mrstampy/poisonivy/IvyLibraryRetriever.java:149-151 | an ivy file kept inside the library directory is deleted by force before the lookup, so the call throws and starts nothing |
| `Retrieval.ResolverStartedWhenNeeded` | PoisonIvy/src/com/github/mrstampy/poisonivy/IvyLibraryRetriever.java:151-153 | when retrieval is needed and both files are found, the resolver is started with the command built from the ivy file's absolute path, the settings path and the pattern |
| `Retrieval.MissingSettingsStopsBeforeSpawn` | PoisonIvy/src/com/github/mrstampy/poisonivy/IvyLibraryRetriever.java:185-188 | a settings file that is not found throws before anything is started, leaving the disk unchanged |
| `Retrieval.NonzeroExitFails` | PoisonIvy/src/com/github/mrstampy/poisonivy/IvyLibraryRetriever.java:199-207 | a nonzero exit code returns false, with no cleanup of the resolver's output |
| `Retrieval.SuccessRemovesSourcesAndJavadoc` | PoisonIvy/src/com/github/mrstampy/poisonivy/IvyLibraryRetriever.java:199-203 | exit code 0 with cleanup on returns true; the directory keeps exactly the entries the filter does not select (plus failed deletes); the deleted entries' paths are gone; nothing else changes |
| `Retrieval.SuccessWithoutCleanupKeepsEverything` | PoisonIvy/src/com/github/mrstampy/poisonivy/IvyLibraryRetriever.java:201-202 | exit code 0 with cleanup off returns true and leaves the disk as the resolver left it |
| `Retrieval.CleanupWithoutDirectoryThrows` | PoisonIvy/src/com/github/mrstampy/poisonivy/IvyLibraryRetriever.java:220-234 | exit code 0 with cleanup on but no library directory throws NullPointerException |
| `Retriever.IvyLibraryRetriever.constructor` | PoisonIvy/src/com/github/mrstampy/poisonivy/IvyLibraryRetriever.java:61-66 | cleanup on, libdir ./ivylib, resolve pattern computed once from ./ivylib, no listeners |
| `Retriever.IvyLibraryRetriever.GetLibdir` | PoisonIvy/src/com/github/mrstampy/poisonivy/IvyLibraryRetriever.java:365-367 | the directory set last, or ./ivylib when it is null |
| `Retriever.IvyLibraryRetriever.GetResolvePattern` | PoisonIvy/src/com/github/mrstampy/poisonivy/IvyLibraryRetriever.java:385-387 | the pattern set last; only a null pattern is derived from the current directory |
| `Retriever.IvyLibraryRetriever.IsCleanSourcesAndJavadoc` | PoisonIvy/src/com/github/mrstampy/poisonivy/IvyLibraryRetriever.java:346-348 | the cleanup flag |
| `Retriever.IvyLibraryRetriever.SetCleanSourcesAndJavadoc` | PoisonIvy/src/com/github/mrstampy/poisonivy/IvyLibraryRetriever.java:356-358 | sets the cleanup flag and nothing else |
| `Retriever.IvyLibraryRetriever.SetLibdir` | PoisonIvy/src/com/github/mrstampy/poisonivy/IvyLibraryRetriever.java:375-377 | sets the directory only; a set resolve pattern keeps its old value |
| `Retriever.IvyLibraryRetriever.SetResolvePattern` | PoisonIvy/src/com/github/mrstampy/poisonivy/IvyLibraryRetriever.java:395-397 | sets the pattern; a null pattern makes getResolvePattern follow the current directory |
| `Retriever.IvyLibraryRetriever.AddProcessListeners` | PoisonIvy/src/com/github/mrstampy/poisonivy/IvyLibraryRetriever.java:68-70 | appends every listener given, nulls and duplicates included |
| `Retriever.IvyLibraryRetriever.AddProcessListener` | PoisonIvy/src/com/github/mrstampy/poisonivy/IvyLibraryRetriever.java:72-74 | a null or registered listener is ignored, a new one appended; the listener is registered afterwards and a registry without duplicates stays so |
| `Retriever.IvyLibraryRetriever.RemoveProcessListener` | PoisonIvy/src/com/github/mrstampy/poisonivy/IvyLibraryRetriever.java:76-78 | a non-null listener loses its first occurrence; on a registry without duplicates it is gone and no duplicates appear |
| `Retriever.AddThenRemoveRestoresRegistry` | PoisonIvy/src/com/github/mrstampy/poisonivy/IvyLibraryRetriever.java:73-77 | adding a new listener and removing it again restores the registry |
| `Retriever.IvyLibraryRetriever.Config` | PoisonIvy/src/com/github/mrstampy/poisonivy/IvyLibraryRetriever.java:151-155 | retrieval works with getLibdir, getResolvePattern, the cleanup flag and the classpath fallback |
| `Retriever.IvyLibraryRetriever.LibrariesRetrieved` | PoisonIvy/src/com/github/mrstampy/poisonivy/IvyLibraryRetriever.java:318-321 | librariesRetrieved looks at getLibdir: an existing, non-empty directory |
| `Retriever.IvyLibraryRetriever.ClearLibraryDirectory` | PoisonIvy/src/com/github/mrstampy/poisonivy/IvyLibraryRetriever.java:161-163 | clears getLibdir, as ClearedDisk states |
| `Retriever.IvyLibraryRetriever.RetrieveLibraries` | PoisonIvy/src/com/github/mrstampy/poisonivy/IvyLibraryRetriever.java:141-154 | retrieveLibraries with the current settings is Retrieve on Config |
| `Retriever.LibdirOverrideScenario` | PoisonIvy/src/com/github/mrstampy/poisonivy/IvyLibraryRetriever.java:63-64 | after setLibdir(dir) the pattern still names ./ivylib; after setResolvePattern(null) it names dir |
| `LegacyRetriever.IvyLibraryRetriever.constructor` | PoisonIvy/src/com/github/mrtstampy/poisonivy/IvyLibraryRetriever.java:22 | cleanup is on by default |
| `LegacyRetriever.IvyLibraryRetriever.IsCleanSourcesAndJavadoc` | PoisonIvy/src/com/github/mrtstampy/poisonivy/IvyLibraryRetriever.java:193-195 | the cleanup flag |
| `LegacyRetriever.IvyLibraryRetriever.SetCleanSourcesAndJavadoc` | PoisonIvy/src/com/github/mrtstampy/poisonivy/IvyLibraryRetriever.java:197-199 | sets the cleanup flag |
| `LegacyRetriever.IvyLibraryRetriever.Config` | PoisonIvy/src/com/github/mrtstampy/poisonivy/IvyLibraryRetriever.java:88-92 | only the cleanup flag varies between retrievals |
| `LegacyRetriever.IvyLibraryRetriever.LibrariesRetrieved` | PoisonIvy/src/com/github/mrtstampy/poisonivy/IvyLibraryRetriever.java:177-187 | true exactly when the fixed directory ivylib is an existing, non-empty directory |
| `LegacyRetriever.IvyLibraryRetriever.ClearLibraryDirectory` | PoisonIvy/src/com/github/mrtstampy/poisonivy/IvyLibraryRetriever.java:51-64 | clears ivylib and recreates it, as ClearedDisk states |
| `LegacyRetriever.IvyLibraryRetriever.RetrieveLibraries` | PoisonIvy/src/com/github/mrtstampy/poisonivy/IvyLibraryRetriever.java:36-49 | retrieveLibraries is Retrieve on the fixed settings: skip when populated and not forced, clear on force, check the ivy file, run Ivy |
| `LegacyRetriever.FixedConfig` | PoisonIvy/src/com/github/mrtstampy/poisonivy/IvyLibraryRetriever.java:17-18 | the directory is ivylib, the pattern the constant ivylib/[artifact]-[revision](-[classifier]).[ext], and there is no classpath fallback |
| `LegacyRetriever.MissingIvyFileIsNotFound` | PoisonIvy/src/com/github/mrtstampy/poisonivy/IvyLibraryRetriever.java:166-175 | an ivy file missing on disk (default ./ivy.xml) throws FileNotFoundException naming it, before anything is started |
| `LegacyRetriever.MissingSettingsIsNotFound` | PoisonIvy/src/com/github/mrtstampy/poisonivy/IvyLibraryRetriever.java:77-80 | a missing settings file throws FileNotFoundException naming it before the resolver is started |
| `LegacyRetriever.IvyFileFound` | PoisonIvy/src/com/github/mrtstampy/poisonivy/IvyLibraryRetriever.java:46-48 | the default ./ivy.xml in the working directory is found with its absolute path |
| `LegacyRetriever.JarAndJavadocCleaned` | PoisonIvy/src/com/github/mrtstampy/poisonivy/IvyLibraryRetriever.java:114-116 | of a jar and its javadoc jar, cleanup keeps the jar only |
| `LegacyRetriever.DownloadCleaned` | PoisonIvy/src/com/github/mrtstampy/poisonivy/IvyLibraryRetriever.java:99-117 | cleaning a downloaded jar and javadoc jar deletes the javadoc jar's listing entry and path and keeps everything else |
| `LegacyRetriever.FirstRetrievalScenario` | PoisonIvy/src/com/github/mrtstampy/poisonivy/IvyLibraryRetriever.java:37-48 | a first retrieval with ./ivy.xml present returns true, runs java -cp cp org.apache.ivy.Main -ivy cwd/./ivy.xml -retrieve with the fixed pattern, and leaves only the plain jar, listed and on disk, in ivylib |
| `LaunchArgs.ParsePoisonIvyConfig` | PoisonIvy/src/com/github/mrstampy/poisonivy/PoisonIvy.java:213-224 | an empty config file (no first line) throws NullPointerException; otherwise the arguments are space-free pieces of the line, the line itself when it has no space |
| `LaunchArgs.GetArgs` | PoisonIvy/src/com/github/mrstampy/poisonivy/PoisonIvy.java:183-192 | non-empty arguments are used unchanged; no arguments and no config file give exit(-1); null arguments beside a config file throw NullPointerException; empty arguments give the config's first line split on spaces |
| `LaunchArgs.ConfigLineRoundTrip` | PoisonIvy/src/com/github/mrtstampy/poisonivy/PoisonIvy.java:190-201 | a config line not ending in a space is recovered by joining its arguments with single spaces |
| `LaunchArgs.SplitAllLastEmpty` | PoisonIvy/src/com/github/mrtstampy/poisonivy/Main.java:55 | the last piece between spaces is empty exactly when the line is empty or ends in a space |
| `LaunchArgs.DegenerateConfigLines` | PoisonIvy/src/com/github/mrtstampy/poisonivy/Main.java:53-55 | an empty line gives one empty argument and a line of spaces gives none |
| `Launcher.MainTarget` | PoisonIvy/src/com/github/mrstampy/poisonivy/PoisonIvy.java:303-308 | -jar and the main jar when -mj is given (it wins over -mc), else the main class, else nothing |
| `Launcher.LaunchCommand` | PoisonIvy/src/com/github/mrstampy/poisonivy/PoisonIvy.java:293-311 | java -cp classpath, then -Dkey=value per property, then -Xx per -X value in order, then the main target, at exactly those positions |
| `Launcher.PropertiesBeforeXOptions` | PoisonIvy/src/com/github/mrstampy/poisonivy/PoisonIvy.java:300-301 | every -D element lies before every -X element, both after the classpath and before the main target |
| `Launcher.AddDOptions` | PoisonIvy/src/com/github/mrstampy/poisonivy/PoisonIvy.java:322-329 | appends "-D"+key+"="+value for each property entry, in entry order, keeping the list before it |
| `Launcher.AddXOptions` | PoisonIvy/src/com/github/mrstampy/poisonivy/PoisonIvy.java:313-320 | appends "-X"+x for each value in order; nothing when there are none |
| `Launcher.GetCommand` | PoisonIvy/src/com/github/mrstampy/poisonivy/PoisonIvy.java:294-310 | building the list step by step yields LaunchCommand |
| `Launcher.RetrievalConfigFor` | PoisonIvy/src/com/github/mrstampy/poisonivy/PoisonIvy.java:354-356 | cleanup equals !-nc, the directory is -libdir when given (else ./ivylib), and the pattern stays the one built from ./ivylib; -rp plays no part |
| `Launcher.ExecuteLibraryRetrieval` | PoisonIvy/src/com/github/mrstampy/poisonivy/PoisonIvy.java:347-359 | a fresh retriever with those setters run retrieveLibraries(-f, -ivy, -ivysettings), i.e. Retrieve on RetrievalConfigFor |
| `Launcher.ExecuteImplOutcome` | PoisonIvy/src/com/github/mrstampy/poisonivy/PoisonIvy.java:137-157 | an application is launched only after a retrieval that returned true; the disk changes only through retrieval |
| `Launcher.HelpReturnsWithoutRetrieval` | PoisonIvy/src/com/github/mrstampy/poisonivy/PoisonIvy.java:144-147 | -h returns true with no retrieval, no launch and the disk unchanged |
| `Launcher.SuccessLaunchesOnlyWithTarget` | PoisonIvy/src/com/github/mrstampy/poisonivy/PoisonIvy.java:149-152 | after a successful retrieval the call returns true and launches exactly when -mj or -mc is given, with getCommand's command |
| `Launcher.FailedRetrievalLaunchesNothing` | PoisonIvy/src/com/github/mrstampy/poisonivy/PoisonIvy.java:153-156 | a retrieval returning false makes executeImpl return false and launch nothing |
| `Launcher.ExecuteOutcome` | PoisonIvy/src/com/github/mrstampy/poisonivy/PoisonIvy.java:125-135 | execute never ends in an exception: any exception from executeImpl becomes false, otherwise execute ends as executeImpl does |
| `Launcher.NoArgumentsAndNoConfigExits` | PoisonIvy/src/com/github/mrstampy/poisonivy/PoisonIvy.java:186-189 | no arguments and no config file exit the JVM with -1 before parsing |
| `Launcher.LibdirKeepsDefaultRetrievePattern` | PoisonIvy/src/com/github/mrstampy/poisonivy/PoisonIvy.java:354 | whatever -libdir says, a started resolver retrieves into ./ivylib |
| `LegacyLauncher.LaunchCommand` | PoisonIvy/src/com/github/mrtstampy/poisonivy/PoisonIvy.java:249-264 | java -cp classpath, the -javaopts value as one element when given, then -jar and the jar: 5 or 6 elements |
| `LegacyLauncher.GetCommand` | PoisonIvy/src/com/github/mrtstampy/poisonivy/PoisonIvy.java:250-263 | building the list step by step yields LaunchCommand |
| `LegacyLauncher.RetrievalConfigFor` | PoisonIvy/src/com/github/mrtstampy/poisonivy/PoisonIvy.java:291 | only the cleanup flag (!-nc) follows the options; directory and pattern are the fixed ones |
| `LegacyLauncher.ExecuteLibraryRetrieval` | PoisonIvy/src/com/github/mrtstampy/poisonivy/PoisonIvy.java:282-294 | a fresh retriever with setCleanSourcesAndJavadoc(!-nc) runs retrieveLibraries(-force, -ivy, -ivysettings) |
| `LegacyLauncher.ExecuteOutcome` | PoisonIvy/src/com/github/mrtstampy/poisonivy/PoisonIvy.java:120-142 | a jar is launched only after a retrieval that returned true; the disk changes only through retrieval |
| `LegacyLauncher.ExecuteNeverThrows` | PoisonIvy/src/com/github/mrtstampy/poisonivy/PoisonIvy.java:137-141 | execute returns or exits with -1; no exception leaves it |
| `LegacyLauncher.HelpReturnsWithoutRetrieval` | PoisonIvy/src/com/github/mrtstampy/poisonivy/PoisonIvy.java:128-130 | -help returns true with no retrieval, no launch and the disk unchanged |
| `LegacyLauncher.SuccessLaunchesOnlyWithJar` | PoisonIvy/src/com/github/mrtstampy/poisonivy/PoisonIvy.java:131-133 | after a successful retrieval the call returns true and launches exactly when -mainjar is given |
| `LegacyLauncher.FailedRetrievalReturnsFalse` | PoisonIvy/src/com/github/mrtstampy/poisonivy/PoisonIvy.java:134-141 | a retrieval returning false or throwing gives false and no launch |
| `LegacyLauncher.RetrievesIntoFixedDirectory` | PoisonIvy/src/com/github/mrtstampy/poisonivy/PoisonIvy.java:282-293 | every resolver command retrieves into ivylib, whatever -libdir or -rp say |
| `LegacyMain.LaunchCommand` | PoisonIvy/src/com/github/mrtstampy/poisonivy/Main.java:81-94 | java, the -javaopts value as one element when given, then -jar and the jar: 3 or 4 elements, no classpath |
| `LegacyMain.GetCommand` | PoisonIvy/src/com/github/mrtstampy/poisonivy/Main.java:82-93 | building the list step by step yields LaunchCommand |
| `LegacyMain.NoClasspathOption` | PoisonIvy/src/com/github/mrtstampy/poisonivy/Main.java:84-91 | "-cp" occurs in the command only as the -javaopts value or the jar name |
| `LegacyMain.ExecuteLibraryRetrieval` | PoisonIvy/src/com/github/mrtstampy/poisonivy/Main.java:96-104 | a fresh retriever runs retrieveLibraries(-force, -ivy, -ivysettings) with its default settings, cleanup on |
| `LegacyMain.MainOutcome` | PoisonIvy/src/com/github/mrtstampy/poisonivy/Main.java:21-35 | a jar is launched only after a retrieval that returned true; when help is printed nothing is retrieved or launched |
| `LegacyMain.HelpOrNoJarPrintsHelpOnly` | PoisonIvy/src/com/github/mrtstampy/poisonivy/Main.java:27-28 | -help or a missing -mainjar prints help only: no retrieval, no launch, disk unchanged |
| `LegacyMain.SuccessLaunchesJar` | PoisonIvy/src/com/github/mrtstampy/poisonivy/Main.java:29-30 | a successful retrieval launches the jar with getCommand's command |
| `LegacyMain.FailedRetrievalExits` | PoisonIvy/src/com/github/mrtstampy/poisonivy/Main.java:31-34 | a retrieval returning false exits with -1 and launches nothing |
| `LegacyMain.RetrievalAlwaysCleans` | PoisonIvy/src/com/github/mrtstampy/poisonivy/Main.java:97-103 | with exit code 0, no selected source or javadoc entry survives in ivylib unless its delete failed |

## Left out

- ProcessContainer and ProcessListener are left out: the concurrency of the former (stream-draining threads, the `running` flag, polling) and the notifications of the latter. Listeners appear only as identities in the registry.
- Spawning and waiting for processes (`Runtime.exec`, `waitFor`) are modelled only by their outcomes. This covers the resolver's exit code and the filesystem it leaves behind, an `IOException` when a process cannot start, and whether the application starts. The older retriever's output logging (`getOutput`, `logOutput`, `logError`) is left out.
- Classpath resources are a map from name to the path of the file the lookup yields. `isJarUrl`/`extractToFileSystem` and their temporary file are not modelled, and a found resource is taken to name an existing file.
- Reading `poisonivy.config` is reduced to its existence and its first line. Read errors other than an empty file are not modelled.
- commons-cli (`getOptions`, `BasicParser`) is the `parse` parameter. The `-D` Properties object is given as its entries in entrySet order, which the source leaves to a hash table.
- Help text, logging, stack-trace printing and `System.out` are output only. They are not modelled, except for the flag saying that `Main` printed help.
- Paths are compared as written: there is no path normalisation. `File.separator` and `getAbsolutePath` assume a Unix host, and `getAbsolutePath` does not remove `.` segments.
- `mkdir` of a directory whose parent is missing is taken to succeed.
- DeleteEach: the filesystem map does not force listings and paths to agree, and a delete removes only the entry's own path. In Java the delete of a non-empty sub-directory fails; the model expresses that only through `undeletable`, and it keeps any paths below an entry whose delete succeeds.
- The older PoisonIvy calls `setLibdir` (mrtstampy PoisonIvy.java:289), a method the older retriever does not have. That call is left out, and the fixed directory is used.
- The static `main` methods of both PoisonIvy classes only wrap `execute`. They are not modelled.
- The `retrieveLibraries` overloads with fewer arguments only pass defaults (false, null, null). They are not modelled separately.
- Retriever.IvyLibraryRetriever.AddProcessListeners: a null list makes `addAll` throw NullPointerException; a Dafny sequence cannot be null, so that case is not modelled.
- The `poisonIvyConfigExists` helpers are not used by the modelled flow and are not modelled.
