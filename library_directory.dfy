/** The library directory as the retrievers see it through java.io.File: which paths
    exist, which are directories, what a directory lists, and the two delete loops
    (clearing the directory, removing source and javadoc artifacts after retrieval). */
module LibraryDirectory {
  import opened Common
  import opened JavaText

  /** A path either names a regular file or a directory listing entry names. */
  datatype Node = RegularFile | Directory(entries: set<string>)

  /** The filesystem: every existing path and what it is. */
  type Disk = map<string, Node>

  /** File.exists() */
  predicate Exists(d: Disk, path: string) {
    path in d
  }

  /** File.isDirectory() */
  predicate IsDirectory(d: Disk, path: string) {
    path in d && d[path].Directory?
  }

  /** `librariesRetrieved`: the directory exists, is a directory and lists at least one
      entry; an existing empty directory does not count as retrieved. */
  function LibrariesRetrieved(d: Disk, libdir: string): (b: bool)
    ensures b <==> Exists(d, libdir) && IsDirectory(d, libdir) && |d[libdir].entries| > 0
  {
    if !Exists(d, libdir) then false
    else if !IsDirectory(d, libdir) then false
    else |d[libdir].entries| > 0
  }

  lemma EmptyDirectoryIsNotRetrieved(d: Disk, libdir: string)
    requires IsDirectory(d, libdir) && d[libdir].entries == {}
    ensures !LibrariesRetrieved(d, libdir)
  {
  }

  /** The filename markers of source and javadoc artifacts. */
  const SourceAndJavadocMarkers: seq<string> :=
    ["-javadoc.", "-javadocs.", "-doc.", "-source.", "-sources.", "-src."]

  /** The FileFilter of `cleanSourcesAndJavadoc`: some marker's FIRST occurrence in the
      name (String.indexOf) lies at an index strictly greater than 0. */
  function IsSourceOrJavadoc(name: string): (b: bool)
    ensures b <==> exists k :: 0 <= k < |SourceAndJavadocMarkers| && IndexOf(name, SourceAndJavadocMarkers[k]) > 0
  {
    MarkerFrom(name, 0)
  }

  /** The filter's loop over the markers from the `k`-th on. */
  function MarkerFrom(name: string, k: nat): (b: bool)
    ensures b <==> exists j :: k <= j < |SourceAndJavadocMarkers| && IndexOf(name, SourceAndJavadocMarkers[j]) > 0
    decreases |SourceAndJavadocMarkers| - k
  {
    k < |SourceAndJavadocMarkers| &&
    (IndexOf(name, SourceAndJavadocMarkers[k]) > 0 || MarkerFrom(name, k + 1))
  }

  /** A name is selected for deletion exactly when it contains some marker and does not
      start with that same marker. */
  lemma IsSourceOrJavadocCharacterised(name: string)
    ensures IsSourceOrJavadoc(name) <==>
      exists k :: 0 <= k < |SourceAndJavadocMarkers| &&
        Contains(name, SourceAndJavadocMarkers[k]) && !StartsWith(name, SourceAndJavadocMarkers[k])
  {
    forall k | 0 <= k < |SourceAndJavadocMarkers|
      ensures IndexOf(name, SourceAndJavadocMarkers[k]) > 0 <==>
        Contains(name, SourceAndJavadocMarkers[k]) && !StartsWith(name, SourceAndJavadocMarkers[k])
    {
      IndexOfPositive(name, SourceAndJavadocMarkers[k]);
    }
  }

  /** Two typical names: a javadoc jar is deleted and the plain
      jar beside it is kept. */
  lemma JavadocJarIsSelected()
    ensures IsSourceOrJavadoc("foo-1.0-javadoc.jar")
  {
    var doc := "foo-1.0-javadoc.jar";
    assert OccursAt(doc, SourceAndJavadocMarkers[0], 7);
    assert doc[0] != SourceAndJavadocMarkers[0][0];
    IsSourceOrJavadocCharacterised(doc);
  }

  lemma PlainJarIsKept()
    ensures !IsSourceOrJavadoc("foo-1.0.jar")
  {
    forall k | 0 <= k < |SourceAndJavadocMarkers|
      ensures IndexOf("foo-1.0.jar", SourceAndJavadocMarkers[k]) == -1
    {
      NoMarkerInPlainJar(k);
    }
  }

  lemma NoMarkerInPlainJar(k: nat)
    requires k < |SourceAndJavadocMarkers|
    ensures forall i :: !OccursAt("foo-1.0.jar", SourceAndJavadocMarkers[k], i)
  {
    var jar := "foo-1.0.jar";
    var m := SourceAndJavadocMarkers[k];
    assert |m| >= 2 && m[0] == '-' && m[1] != '1';
    assert forall j :: 0 <= j < |jar| - 1 ==> jar[j] != '-' || jar[j + 1] == '1';
  }

  /** Because indexOf finds the first occurrence, a name that starts with a marker is
      kept even when the marker occurs again later in the name. */
  lemma LeadingMarkerHidesLaterOne()
    ensures Contains("-src.lib-src.jar", "-src.")
    ensures !IsSourceOrJavadoc("-src.lib-src.jar")
  {
    var name := "-src.lib-src.jar";
    assert OccursAt(name, "-src.", 8);
    forall k, i | 0 <= k < |SourceAndJavadocMarkers| - 1
      ensures !OccursAt(name, SourceAndJavadocMarkers[k], i)
    {
      var m := SourceAndJavadocMarkers[k];
      assert |m| >= 3 && m[0] == '-' && (m[1] != 's' || m[2] != 'r');
      assert forall j :: 0 <= j < |name| - 2 ==> name[j] != '-' || (name[j + 1] == 's' && name[j + 2] == 'r');
    }
    assert StartsWith(name, SourceAndJavadocMarkers[5]);
    IsSourceOrJavadocCharacterised(name);
  }

  /** The path of the entry `name` of the directory `dir`, as `listFiles` builds it
      on a Unix host. */
  function ChildPath(dir: string, name: string): string {
    dir + "/" + name
  }

  /** `path` is the path of one of the entries `names` of `dir`. */
  predicate IsChildIn(dir: string, names: set<string>, path: string) {
    |dir| < |path| && path[..|dir| + 1] == dir + "/" && path[|dir| + 1..] in names
  }

  /** The path of an entry is the path of one of `names` exactly when the entry is one
      of them. */
  lemma ChildPathIsChild(dir: string, names: set<string>, name: string)
    ensures IsChildIn(dir, names, ChildPath(dir, name)) <==> name in names
  {
    var path := ChildPath(dir, name);
    assert path[..|dir| + 1] == dir + "/";
    assert path[|dir| + 1..] == name;
  }

  /** Adding one name to `names` adds exactly that name's path. */
  lemma IsChildInOneMore(dir: string, names: set<string>, name: string, path: string)
    ensures IsChildIn(dir, names + {name}, path) <==> IsChildIn(dir, names, path) || path == ChildPath(dir, name)
  {
    if path == ChildPath(dir, name) {
      ChildPathIsChild(dir, names + {name}, name);
    }
    if IsChildIn(dir, {name}, path) {
      assert path == path[..|dir| + 1] + path[|dir| + 1..];
    }
  }

  /** The filesystem after File.delete() succeeded on the entries `names` of the
      directory `dir`: their paths are gone and the listing no longer shows them. */
  function WithDeleted(d: Disk, dir: string, names: set<string>): (r: Disk)
    requires IsDirectory(d, dir)
    ensures IsDirectory(r, dir) && r[dir].entries == d[dir].entries - names
    ensures forall p :: p != dir ==> (p in r <==> p in d && !IsChildIn(dir, names, p))
    ensures forall p :: p != dir && p in r ==> r[p] == d[p]
  {
    (map p | p in d && !IsChildIn(dir, names, p) :: d[p])[dir := Directory(d[dir].entries - names)]
  }

  lemma WithDeletedNothing(d: Disk, dir: string)
    requires IsDirectory(d, dir)
    ensures WithDeleted(d, dir, {}) == d
  {
    var r := WithDeleted(d, dir, {});
    assert r.Keys == d.Keys;
    assert forall p :: p in r ==> r[p] == d[p];
  }

  /** One more successful delete extends the set of deleted names by one. */
  lemma WithDeletedOneMore(d: Disk, dir: string, names: set<string>, name: string)
    requires IsDirectory(d, dir)
    ensures var r := WithDeleted(d, dir, names);
      (r - {ChildPath(dir, name)})[dir := Directory(r[dir].entries - {name})] ==
        WithDeleted(d, dir, names + {name})
  {
    var r := WithDeleted(d, dir, names);
    var lhs := (r - {ChildPath(dir, name)})[dir := Directory(r[dir].entries - {name})];
    var rhs := WithDeleted(d, dir, names + {name});
    forall p ensures p in lhs <==> p in rhs {
      IsChildInOneMore(dir, names, name, p);
    }
    assert lhs.Keys == rhs.Keys;
    assert r[dir].entries - {name} == d[dir].entries - (names + {name});
    assert forall p :: p in lhs ==> lhs[p] == rhs[p];
  }

  /** The delete loop shared by `clearLibraryDirectory` and `cleanSourcesAndJavadoc`:
      File.delete() on the entry of `dir` named by each element of `targets`; a delete
      of a name in `undeletable` fails and is only logged, every other one removes the
      entry's path and its name from the listing. */
  method DeleteEach(d: Disk, dir: string, targets: set<string>, undeletable: set<string>)
    returns (r: Disk)
    requires IsDirectory(d, dir)
    ensures r == WithDeleted(d, dir, targets - undeletable)
  {
    r := d;
    WithDeletedNothing(d, dir);
    var pending := targets;
    assert (targets - pending) - undeletable == {};
    while pending != {}
      invariant pending <= targets
      invariant r == WithDeleted(d, dir, (targets - pending) - undeletable)
      decreases pending
    {
      var f :| f in pending;
      var done := (targets - pending) - undeletable;
      if f !in undeletable {
        WithDeletedOneMore(d, dir, done, f);
        r := (r - {ChildPath(dir, f)})[dir := Directory(r[dir].entries - {f})];
        assert done + {f} == (targets - (pending - {f})) - undeletable;
      } else {
        assert done == (targets - (pending - {f})) - undeletable;
      }
      pending := pending - {f};
    }
    assert targets - pending == targets;
  }

  /** The filesystem after `clearLibraryDirectory` on `dir`. */
  function ClearedDisk(d: Disk, dir: string, undeletable: set<string>): (r: Result<Disk>)
    ensures r.Throw? <==> Exists(d, dir) && !IsDirectory(d, dir)
    ensures r.Throw? ==> r.error == NullPointer
    ensures r.Ok? ==> IsDirectory(r.value, dir)
    ensures r.Ok? ==>
      r.value[dir].entries == (if IsDirectory(d, dir) then d[dir].entries * undeletable else {})
    ensures r.Ok? ==> forall p :: p != dir ==>
      (p in r.value <==> p in d && !(IsDirectory(d, dir) && IsChildIn(dir, d[dir].entries - undeletable, p)))
    ensures r.Ok? ==> forall p :: p != dir && p in r.value ==> r.value[p] == d[p]
  {
    if IsDirectory(d, dir) then Ok(WithDeleted(d, dir, d[dir].entries - undeletable))
    else if Exists(d, dir) then Throw(NullPointer)
    else Ok(d[dir := Directory({})])
  }

  /** Every entry is gone after clearing when each delete succeeds: the directory
      exists, lists nothing, and no entry it listed before still has a path. */
  lemma ClearedWhenDeletesSucceed(d: Disk, dir: string, undeletable: set<string>)
    requires !Exists(d, dir) || IsDirectory(d, dir)
    requires IsDirectory(d, dir) ==> d[dir].entries !! undeletable
    ensures ClearedDisk(d, dir, undeletable).Ok?
    ensures IsDirectory(ClearedDisk(d, dir, undeletable).value, dir)
    ensures ClearedDisk(d, dir, undeletable).value[dir].entries == {}
    ensures forall e :: IsDirectory(d, dir) && e in d[dir].entries ==>
      ChildPath(dir, e) !in ClearedDisk(d, dir, undeletable).value
  {
    if IsDirectory(d, dir) {
      forall e | e in d[dir].entries
        ensures ChildPath(dir, e) !in ClearedDisk(d, dir, undeletable).value
      {
        ChildPathIsChild(dir, d[dir].entries - undeletable, e);
        assert ChildPath(dir, e) != dir;
      }
    }
  }

  /** `clearLibraryDirectory`: when the path exists, delete each listed entry, then the
      directory itself (which fails while it is not empty), then mkdir. A regular file
      at the path lists as null, and iterating over it throws. */
  method ClearDirectory(d: Disk, dir: string, undeletable: set<string>) returns (r: Result<Disk>)
    ensures r == ClearedDisk(d, dir, undeletable)
  {
    var disk := d;
    if Exists(disk, dir) {
      if !IsDirectory(disk, dir) {
        return Throw(NullPointer);
      }
      disk := DeleteEach(disk, dir, disk[dir].entries, undeletable);
      // deleting the directory itself fails while it still lists entries
      if disk[dir].entries == {} {
        var emptied := disk;
        disk := disk - {dir};
        assert disk[dir := Directory({})] == emptied;
      }
    }
    // mkdir only creates a directory that does not exist
    if !Exists(disk, dir) {
      disk := disk[dir := Directory({})];
    }
    r := Ok(disk);
  }

  /** The entries left after the cleanup pass: every artifact the filter selects is
      deleted unless its delete fails. */
  function CleanedEntries(entries: set<string>, undeletable: set<string>): (r: set<string>)
    ensures r <= entries
    ensures forall e :: e in entries && !IsSourceOrJavadoc(e) ==> e in r
    ensures forall e :: e in r && e !in undeletable ==> !IsSourceOrJavadoc(e)
  {
    set e | e in entries && (!IsSourceOrJavadoc(e) || e in undeletable)
  }

  /** The filesystem after `cleanSourcesAndJavadoc` on `dir`: listFiles returns null for
      a path that is not a directory, and iterating over it throws. On a directory, the
      listing becomes CleanedEntries and the paths of the deleted entries are gone. */
  function CleanedDisk(d: Disk, dir: string, undeletable: set<string>): (r: Result<Disk>)
    ensures r.Throw? <==> !IsDirectory(d, dir)
    ensures r.Throw? ==> r.error == NullPointer
    ensures r.Ok? ==> IsDirectory(r.value, dir)
    ensures r.Ok? ==> r.value[dir].entries == CleanedEntries(d[dir].entries, undeletable)
    ensures r.Ok? ==> forall p :: p != dir ==>
      (p in r.value <==> p in d && !IsChildIn(dir, d[dir].entries - CleanedEntries(d[dir].entries, undeletable), p))
    ensures r.Ok? ==> forall p :: p != dir && p in r.value ==> r.value[p] == d[p]
  {
    if IsDirectory(d, dir) then Ok(WithDeleted(d, dir, d[dir].entries - CleanedEntries(d[dir].entries, undeletable)))
    else Throw(NullPointer)
  }

  /** `cleanSourcesAndJavadoc`: list the entries the filter accepts, then delete each. */
  method CleanDirectory(d: Disk, dir: string, undeletable: set<string>) returns (r: Result<Disk>)
    ensures r == CleanedDisk(d, dir, undeletable)
  {
    if !IsDirectory(d, dir) {
      return Throw(NullPointer);
    }
    var entries := d[dir].entries;
    var selected := set e | e in entries && IsSourceOrJavadoc(e);
    var cleaned := DeleteEach(d, dir, selected, undeletable);
    assert selected - undeletable == entries - CleanedEntries(entries, undeletable);
    r := Ok(cleaned);
  }
}
