/**
 * What the in-memory driver promises: how `find` resolves a path, what
 * `mkdirAll` builds and when it fails, how `ReadDir` orders a directory, and
 * what `Stat`, `Symlink` and `WriteFile` leave behind.
 */
module MemFsProperties {
  import opened Wrappers
  import opened Strings
  import opened FilePath
  import opened MemFs
  import ParserFile

  // ---------------------------------------------------------------------------
  // find

  /** The directory reached by following `segs` from `d`. */
  ghost function DirAt(d: Dir, segs: seq<string>): Dir
    requires IsDirPath(d, segs)
    decreases |segs|
  {
    if segs == [] then d else DirAt(d[segs[0]].children.value, segs[1..])
  }

  /**
   * `find(dirs/name)` succeeds exactly when every directory on the way exists
   * and holds `name`, and then returns that entry under its own name. Any
   * missing segment, a step through a file that is not a directory included,
   * gives `ErrNotExist`, the only error it returns.
   */
  lemma {:induction false} FindSpec(d: Dir, segs: seq<string>, name: string)
    ensures FindIn(Some(d), segs + [name]).Err? ==> FindIn(Some(d), segs + [name]).error == ErrNotExist
    ensures FindIn(Some(d), segs + [name]).Ok? <==> IsDirPath(d, segs) && name in DirAt(d, segs)
    ensures IsDirPath(d, segs) && name in DirAt(d, segs) ==>
      FindIn(Some(d), segs + [name]) == Ok(FileStat(name, DirAt(d, segs)[name]))
    decreases |segs|
  {
    if segs == [] {
      assert [] + [name] == [name];
    } else {
      assert (segs + [name])[1..] == segs[1..] + [name];
      if segs[0] in d && d[segs[0]].children.Some? {
        FindSpec(d[segs[0]].children.value, segs[1..], name);
      }
    }
  }

  /** Every directory on a path of directories is found, as a directory. */
  lemma {:induction false} DirPathFound(d: Dir, segs: seq<string>)
    requires IsDirPath(d, segs) && segs != []
    ensures FindIn(Some(d), segs).Ok? && FindIn(Some(d), segs).value.IsDir()
    decreases |segs|
  {
    if |segs| > 1 {
      DirPathFound(d[segs[0]].children.value, segs[1..]);
    }
  }

  /** After `parent[name] = f` in the directory at `segs`, `find` returns `f` there. */
  lemma {:induction false} FindAfterPut(d: Dir, segs: seq<string>, name: string, f: File)
    requires IsDirPath(d, segs)
    ensures FindIn(Some(PutAt(d, segs, name, f)), segs + [name]) == Ok(FileStat(name, f))
    decreases |segs|
  {
    if segs == [] {
      assert [] + [name] == [name];
    } else {
      assert (segs + [name])[1..] == segs[1..] + [name];
      FindAfterPut(d[segs[0]].children.value, segs[1..], name, f);
    }
  }

  // ---------------------------------------------------------------------------
  // mkdirAll

  /** A chain of fresh directories, one inside the other, named by `names`. */
  function Chain(names: seq<string>): Dir
    decreases |names|
  {
    if names == [] then map[] else map[names[0] := NewDir.(children := Some(Chain(names[1..])))]
  }

  /** `mkdirAll` ignores empty segments, such as those of a trailing or doubled separator. */
  lemma {:induction false} MkdirSkipsEmpty(d: Dir, segs: seq<string>)
    ensures MkdirIn(d, segs) == MkdirIn(d, NonEmpty(segs))
    decreases |segs|
  {
    if segs != [] {
      if segs[0] == "" {
        MkdirSkipsEmpty(d, segs[1..]);
      } else {
        var ne := NonEmpty(segs);
        assert ne == [segs[0]] + NonEmpty(segs[1..]) && ne[1..] == NonEmpty(segs[1..]);
        var f := if segs[0] in d then d[segs[0]] else NewDir;
        if f.children.Some? {
          MkdirSkipsEmpty(f.children.value, segs[1..]);
        }
      }
    }
  }

  lemma {:induction false} EmptyNotBlocked(segs: seq<string>)
    ensures !Blocked(map[], segs)
    decreases |segs|
  {
    if segs != [] && segs[0] == "" {
      EmptyNotBlocked(segs[1..]);
    }
  }

  /**
   * `mkdirAll` fails exactly when a file that is not a directory lies on the
   * path, and then with `ErrExist`.
   */
  lemma {:induction false} MkdirFailsIff(d: Dir, segs: seq<string>)
    ensures MkdirIn(d, segs).Err? <==> Blocked(d, segs)
    ensures MkdirIn(d, segs).Err? ==> MkdirIn(d, segs).error == ErrExist
    decreases |segs|
  {
    if segs != [] {
      if segs[0] == "" {
        MkdirFailsIff(d, segs[1..]);
      } else if segs[0] in d {
        if d[segs[0]].children.Some? {
          MkdirFailsIff(d[segs[0]].children.value, segs[1..]);
        }
      } else {
        MkdirFailsIff(map[], segs[1..]);
        EmptyNotBlocked(segs[1..]);
      }
    }
  }

  /** After a successful `mkdirAll`, every non-empty segment of the path is a directory. */
  lemma {:induction false} MkdirMakesDirs(d: Dir, segs: seq<string>)
    requires MkdirIn(d, segs).Ok?
    ensures IsDirPath(MkdirIn(d, segs).value, NonEmpty(segs))
    decreases |segs|
  {
    if segs != [] {
      if segs[0] == "" {
        MkdirMakesDirs(d, segs[1..]);
      } else {
        var ne := NonEmpty(segs);
        assert ne == [segs[0]] + NonEmpty(segs[1..]) && ne[1..] == NonEmpty(segs[1..]);
        var f := if segs[0] in d then d[segs[0]] else NewDir;
        MkdirMakesDirs(f.children.value, segs[1..]);
      }
    }
  }

  /** `mkdirAll` of a path of existing directories changes nothing. */
  lemma {:induction false} MkdirIdempotent(d: Dir, segs: seq<string>)
    requires IsDirPath(d, NonEmpty(segs))
    ensures MkdirIn(d, segs) == Ok(d)
    decreases |segs|
  {
    if segs != [] {
      if segs[0] == "" {
        MkdirIdempotent(d, segs[1..]);
      } else {
        var ne := NonEmpty(segs);
        assert ne == [segs[0]] + NonEmpty(segs[1..]) && ne[1..] == NonEmpty(segs[1..]);
        var f := d[segs[0]];
        MkdirIdempotent(f.children.value, segs[1..]);
        assert f.(children := Some(f.children.value)) == f;
        assert d[segs[0] := f] == d;
      }
    }
  }

  /**
   * In an empty directory `mkdirAll` makes one fresh directory (`ModePerm`,
   * no link, empty children) per non-empty segment, each inside the previous.
   */
  lemma {:induction false} MkdirFresh(segs: seq<string>)
    ensures MkdirIn(map[], segs) == Ok(Chain(NonEmpty(segs)))
    decreases |segs|
  {
    if segs != [] {
      MkdirFresh(segs[1..]);
      if segs[0] != "" {
        var ne := NonEmpty(segs);
        assert ne == [segs[0]] + NonEmpty(segs[1..]) && ne[1..] == NonEmpty(segs[1..]);
      }
    }
  }

  /** Calling `MkdirAll` twice leaves the tree and the error as the first call did. */
  lemma MkdirAllTwice(files: Option<Dir>, dirname: string)
    ensures MkdirAllSpec(MkdirAllSpec(files, dirname).0, dirname) == MkdirAllSpec(files, dirname)
  {
    var segs := Split(dirname, Separator);
    var root := files.GetOr(map[]);
    if MkdirIn(root, segs).Ok? {
      MkdirMakesDirs(root, segs);
      MkdirIdempotent(MkdirIn(root, segs).value, segs);
    }
  }

  // ---------------------------------------------------------------------------
  // ReadDir and Stat

  /**
   * A `ReadDir` listing holds each entry of the directory once, under its own
   * name, in strictly ascending name order.
   */
  lemma ListingSpec(d: Dir)
    ensures forall i, j :: 0 <= i < j < |Listing(d)| ==> Less(Listing(d)[i].name, Listing(d)[j].name)
    ensures forall i :: 0 <= i < |Listing(d)| ==> Listing(d)[i].name in d && Listing(d)[i].file == d[Listing(d)[i].name]
    ensures forall k :: k in d ==> exists i :: 0 <= i < |Listing(d)| && Listing(d)[i].name == k
  {
    ListingNames(d);
    ListingCovers(d);
  }

  /** The listing's names are the sorted keys, each beside its own entry. */
  lemma ListingNames(d: Dir)
    ensures forall i :: 0 <= i < |Listing(d)| ==> Listing(d)[i].name == SortedKeys(d.Keys)[i]
    ensures forall i, j :: 0 <= i < j < |Listing(d)| ==> Less(Listing(d)[i].name, Listing(d)[j].name)
    ensures forall i :: 0 <= i < |Listing(d)| ==> Listing(d)[i].name in d && Listing(d)[i].file == d[Listing(d)[i].name]
  {
    var ks := SortedKeys(d.Keys);
    var l := Listing(d);
    assert forall i :: 0 <= i < |l| ==> l[i] == FileStat(ks[i], d[ks[i]]);
  }

  lemma ListingCovers(d: Dir)
    requires forall i :: 0 <= i < |Listing(d)| ==> Listing(d)[i].name == SortedKeys(d.Keys)[i]
    ensures forall k :: k in d ==> exists i :: 0 <= i < |Listing(d)| && Listing(d)[i].name == k
  {
    var ks := SortedKeys(d.Keys);
    var l := Listing(d);
    forall k | k in d ensures exists i :: 0 <= i < |l| && l[i].name == k {
      assert k in ks;
      var i :| 0 <= i < |ks| && ks[i] == k;
      assert l[i].name == k;
    }
  }

  /** `ReadDir` on a file that is not a directory fails with `ErrNotDir`; on a missing one, `ErrNotExist`. */
  lemma ReadDirErrors(files: Option<Dir>, dirname: string)
    ensures Lookup(files, dirname).Ok? && !Lookup(files, dirname).value.IsDir() ==>
      ReadDirSpec(files, dirname) == Err(ErrNotDir)
    ensures Lookup(files, dirname).Err? ==> ReadDirSpec(files, dirname) == Err(ErrNotExist)
  {
    var segs := Split(dirname, Separator);
    assert segs == segs[..|segs| - 1] + [segs[|segs| - 1]];
    var d := files.GetOr(map[]);
    if files.Some? {
      FindSpec(d, segs[..|segs| - 1], segs[|segs| - 1]);
    }
  }

  /**
   * `Stat` never fails: a missing file gives the zero `FileStat`, which does
   * not exist and is not a directory; otherwise it gives what `find` found.
   */
  lemma StatNeverFails(files: Option<Dir>, filename: string)
    ensures StatSpec(files, filename).Ok?
    ensures Lookup(files, filename).Err? ==>
      StatSpec(files, filename) == Ok(NoStat) && !NoStat.Exists() && !NoStat.IsDir()
    ensures Lookup(files, filename).Ok? ==> StatSpec(files, filename) == Lookup(files, filename)
  {
    LookupOnlyMisses(files, filename);
  }

  /** The only error `find` reports is a missing file. */
  lemma LookupOnlyMisses(files: Option<Dir>, filename: string)
    ensures Lookup(files, filename).Err? ==> Lookup(files, filename).error == ErrNotExist
  {
    var segs := Split(filename, Separator);
    assert segs == segs[..|segs| - 1] + [segs[|segs| - 1]];
    if files.Some? {
      FindSpec(files.value, segs[..|segs| - 1], segs[|segs| - 1]);
    }
  }

  // ---------------------------------------------------------------------------
  // create, Symlink and WriteFile on clean paths

  /** Path segments with no empty segment and no separator inside one. */
  ghost predicate Clean(segs: seq<string>)
  {
    forall i :: 0 <= i < |segs| ==> segs[i] != "" && Separator !in segs[i]
  }

  /** The path naming `segs`. */
  function PathOf(segs: seq<string>): string
  {
    JoinWith(segs, Separator)
  }

  lemma {:induction false} NonEmptyClean(segs: seq<string>)
    requires Clean(segs)
    ensures NonEmpty(segs) == segs
    decreases |segs|
  {
    if segs != [] {
      NonEmptyClean(segs[1..]);
    }
  }

  /** How `create` takes a clean path apart: into the parent's segments and the last name. */
  lemma CleanPathParts(segs: seq<string>, name: string)
    requires Clean(segs + [name])
    ensures Split(PathOf(segs + [name]), Separator) == segs + [name]
    ensures segs == [] ==> SplitLast(PathOf(segs + [name])) == ("", name)
    ensures segs != [] ==> SplitLast(PathOf(segs + [name])) == (PathOf(segs) + [Separator], name)
    ensures segs != [] ==> Split(PathOf(segs), Separator) == segs
    ensures NonEmpty(segs) == segs
  {
    var all := segs + [name];
    assert forall i :: 0 <= i < |segs| ==> segs[i] == all[i];
    SplitJoin(all, Separator);
    NonEmptyClean(segs);
    if segs == [] {
      assert all == [name];
      SplitLastUnique(name, "", name);
    } else {
      SplitJoin(segs, Separator);
      ParserFile.JoinWithAppend(segs, name);
      assert name == all[|segs|];
      SplitLastUnique(PathOf(all), PathOf(segs) + [Separator], name);
    }
  }

  /** `create` of a path whose file already exists, without overwriting, fails with `ErrExist` and changes nothing. */
  lemma CreateExisting(files: Option<Dir>, filename: string, f: File, o: CreateOpts)
    requires Lookup(files, filename).Ok? && Lookup(files, filename).value.Exists()
    requires !o.overwrite || Lookup(files, filename).value.IsDir()
    ensures CreateSpec(files, filename, f, o) == (files, Some(ErrExist))
  {
  }

  /** `create` of a missing file goes straight to storing it, the root made if nil. */
  lemma CreateMissing(files: Option<Dir>, filename: string, f: File, o: CreateOpts)
    requires Lookup(files, filename) == Err(ErrNotExist)
    ensures CreateSpec(files, filename, f, o) == Store(files.GetOr(map[]), filename, f, o.mkdir)
  {
  }

  /** `create` over an existing file that is not a directory stores `f` with the old permissions. */
  lemma CreateOverwrite(files: Option<Dir>, filename: string, f: File, o: CreateOpts)
    requires o.overwrite
    requires Lookup(files, filename).Ok? && Lookup(files, filename).value.Exists()
    requires !Lookup(files, filename).value.IsDir()
    ensures CreateSpec(files, filename, f, o) ==
      Store(files.GetOr(map[]), filename, f.(perm := Lookup(files, filename).value.Perm()), o.mkdir)
  {
  }

  /** `Symlink` onto an existing name fails with `ErrExist` and changes nothing. */
  lemma SymlinkExisting(files: Option<Dir>, oldname: string, newname: string)
    requires Lookup(files, newname).Ok? && Lookup(files, newname).value.Exists()
    ensures CreateSpec(files, newname, LinkFile(oldname), MkdirOpt) == (files, Some(ErrExist))
  {
    CreateExisting(files, newname, LinkFile(oldname), MkdirOpt);
  }

  /** The parents of a clean path, once made, hold the stored file where `find` looks. */
  lemma StoreMkdir(root: Dir, segs: seq<string>, name: string, f: File)
    requires Clean(segs + [name])
    requires !Blocked(root, segs)
    ensures Store(root, PathOf(segs + [name]), f, true).1 == None
    ensures FindIn(Store(root, PathOf(segs + [name]), f, true).0, segs + [name]) == Ok(FileStat(name, f))
  {
    if segs == [] {
      assert segs + [name] == [name];
      StoreTop(root, name, f, true);
    } else {
      StoreMkdirNested(root, segs, name, f);
    }
  }

  /** A file at the top level is put straight into the root. */
  lemma StoreTop(root: Dir, name: string, f: File, mkdir: bool)
    requires Clean([name])
    ensures Store(root, PathOf([name]), f, mkdir).1 == None
    ensures FindIn(Store(root, PathOf([name]), f, mkdir).0, [name]) == Ok(FileStat(name, f))
  {
    assert Separator !in [name][0];
    assert PathOf([name]) == name;
    SplitLastUnique(name, "", name);
    assert Store(root, name, f, mkdir) == (Some(root[name := f]), None);
  }

  /** Below at least one directory, the parents are made and the file put into the last one. */
  lemma StoreMkdirNested(root: Dir, segs: seq<string>, name: string, f: File)
    requires Clean(segs + [name]) && segs != []
    requires !Blocked(root, segs)
    ensures Store(root, PathOf(segs + [name]), f, true).1 == None
    ensures FindIn(Store(root, PathOf(segs + [name]), f, true).0, segs + [name]) == Ok(FileStat(name, f))
  {
    CleanPathParts(segs, name);
    MkdirFailsIff(root, segs);
    StoreMkdirPut(root, segs, PathOf(segs + [name]), name, f);
    MkdirMakesDirs(root, segs);
    FindAfterPut(MkdirIn(root, segs).value, segs, name, f);
  }

  /** With the parents made, `create` puts the file into the new tree under its directory segments. */
  lemma StoreMkdirPut(root: Dir, segs: seq<string>, path: string, name: string, f: File)
    requires segs != [] && Split(PathOf(segs), Separator) == segs && NonEmpty(segs) == segs
    requires SplitLast(path) == (PathOf(segs) + [Separator], name)
    requires MkdirIn(root, segs).Ok?
    ensures Store(root, path, f, true) == (Some(PutAt(MkdirIn(root, segs).value, segs, name, f)), None)
  {
    var dir := PathOf(segs) + [Separator];
    assert dir[..|dir| - 1] == PathOf(segs);
  }

  /**
   * `Symlink(oldname, dirs/name)` on a missing name with no file in the way
   * succeeds, making the parent directories, and `find` then returns a link
   * to `oldname` with `ModePerm`.
   */
  lemma SymlinkCreates(files: Option<Dir>, oldname: string, segs: seq<string>, name: string)
    requires Clean(segs + [name])
    requires FindIn(files, segs + [name]).Err?
    requires !Blocked(files.GetOr(map[]), segs)
    ensures var (files', err) := CreateSpec(files, PathOf(segs + [name]), LinkFile(oldname), MkdirOpt);
      err == None && FindIn(files', segs + [name]) == Ok(FileStat(name, LinkFile(oldname)))
  {
    CleanPathParts(segs, name);
    if files.Some? {
      FindSpec(files.value, segs, name);
    }
    CreateMissing(files, PathOf(segs + [name]), LinkFile(oldname), MkdirOpt);
    StoreMkdir(files.GetOr(map[]), segs, name, LinkFile(oldname));
  }

  /** `Symlink` below a file that is not a directory fails with `ErrExist`; only a nil root gets allocated. */
  lemma SymlinkBlocked(files: Option<Dir>, oldname: string, segs: seq<string>, name: string)
    requires Clean(segs + [name])
    requires FindIn(files, segs + [name]).Err?
    requires Blocked(files.GetOr(map[]), segs)
    ensures CreateSpec(files, PathOf(segs + [name]), LinkFile(oldname), MkdirOpt) ==
      (Some(files.GetOr(map[])), Some(ErrExist))
  {
    CleanPathParts(segs, name);
    if files.Some? {
      FindSpec(files.value, segs, name);
    }
    var root := files.GetOr(map[]);
    MkdirFailsIff(root, segs);
    var dir := PathOf(segs) + [Separator];
    assert dir[..|dir| - 1] == PathOf(segs);
  }

  /** Storing into an existing parent directory without making it. */
  lemma StoreFind(root: Dir, segs: seq<string>, name: string, f: File)
    requires Clean(segs + [name])
    requires IsDirPath(root, segs)
    ensures Store(root, PathOf(segs + [name]), f, false).1 == None
    ensures FindIn(Store(root, PathOf(segs + [name]), f, false).0, segs + [name]) == Ok(FileStat(name, f))
  {
    CleanPathParts(segs, name);
    var path := PathOf(segs + [name]);
    if segs == [] {
      assert segs + [name] == [name];
      StoreTop(root, name, f, false);
    } else {
      var dir := PathOf(segs) + [Separator];
      assert dir[..|dir| - 1] == PathOf(segs);
      DirPathFound(root, segs);
      assert Store(root, path, f, false) == (Some(PutAt(root, segs, name, f)), None);
      FindAfterPut(root, segs, name, f);
    }
  }

  /** `WriteFile` of a new file in an existing directory stores the data with the given permissions. */
  lemma WriteFileCreates(files: Option<Dir>, segs: seq<string>, name: string, data: seq<byte>, perm: FileMode)
    requires Clean(segs + [name])
    requires IsDirPath(files.GetOr(map[]), segs)
    requires FindIn(files, segs + [name]).Err?
    ensures var (files', err) := CreateSpec(files, PathOf(segs + [name]), DataFile(data, perm), OverwriteOpt);
      err == None && FindIn(files', segs + [name]) == Ok(FileStat(name, DataFile(data, perm)))
  {
    CleanPathParts(segs, name);
    if files.Some? {
      FindSpec(files.value, segs, name);
    }
    CreateMissing(files, PathOf(segs + [name]), DataFile(data, perm), OverwriteOpt);
    StoreFind(files.GetOr(map[]), segs, name, DataFile(data, perm));
  }

  /** `WriteFile` over an existing file replaces its data but keeps its old permissions. */
  lemma WriteFileOverwrites(files: Option<Dir>, segs: seq<string>, name: string, data: seq<byte>, perm: FileMode)
    requires Clean(segs + [name])
    requires IsDirPath(files.GetOr(map[]), segs)
    requires FindIn(files, segs + [name]).Ok? && !FindIn(files, segs + [name]).value.IsDir()
    ensures var (files', err) := CreateSpec(files, PathOf(segs + [name]), DataFile(data, perm), OverwriteOpt);
      var old_ := FindIn(files, segs + [name]).value;
      err == None && FindIn(files', segs + [name]) == Ok(FileStat(name, DataFile(data, old_.Perm())))
  {
    CleanPathParts(segs, name);
    FindSpec(files.value, segs, name);
    var old_ := FindIn(files, segs + [name]).value;
    assert old_.name == name && name == (segs + [name])[|segs|];
    assert Lookup(files, PathOf(segs + [name])) == FindIn(files, segs + [name]);
    CreateOverwrite(files, PathOf(segs + [name]), DataFile(data, perm), OverwriteOpt);
    assert DataFile(data, perm).(perm := old_.Perm()) == DataFile(data, old_.Perm());
    StoreFind(files.GetOr(map[]), segs, name, DataFile(data, old_.Perm()));
  }

  /** `WriteFile` onto a directory fails with `ErrExist` and changes nothing. */
  lemma WriteFileOnDir(files: Option<Dir>, filename: string, data: seq<byte>, perm: FileMode)
    requires Lookup(files, filename).Ok? && Lookup(files, filename).value.Exists()
    requires Lookup(files, filename).value.IsDir()
    ensures CreateSpec(files, filename, DataFile(data, perm), OverwriteOpt) == (files, Some(ErrExist))
  {
    CreateExisting(files, filename, DataFile(data, perm), OverwriteOpt);
  }

  /**
   * `WriteFile` below a file that is not a directory reaches a write into
   * that file's nil `Children` map: a panic in Go.
   */
  lemma WriteFileUnderFile(files: Option<Dir>, segs: seq<string>, name: string, data: seq<byte>, perm: FileMode)
    requires Clean(segs + [name]) && segs != []
    requires FindIn(files, segs).Ok? && !FindIn(files, segs).value.IsDir()
    ensures CreateSpec(files, PathOf(segs + [name]), DataFile(data, perm), OverwriteOpt).1 == Some(Panic)
  {
    CleanPathParts(segs, name);
    var d := files.value;
    FileNotDirPath(d, segs);
    FindSpec(d, segs, name);
    var path := PathOf(segs + [name]);
    assert Lookup(files, path) == Err(ErrNotExist);
    CreateMissing(files, path, DataFile(data, perm), OverwriteOpt);
    StoreUnderFile(d, segs, path, name, DataFile(data, perm));
  }

  /** A path that ends at a file is not a path of directories. */
  lemma FileNotDirPath(d: Dir, segs: seq<string>)
    requires segs != []
    requires FindIn(Some(d), segs).Ok? && !FindIn(Some(d), segs).value.IsDir()
    ensures !IsDirPath(d, segs)
  {
    var init := segs[..|segs| - 1];
    var last := segs[|segs| - 1];
    assert segs == init + [last];
    FindSpec(d, init, last);
    assert !FileStat(last, DirAt(d, init)[last]).IsDir();
    IsDirPathSplit(d, init, last);
  }

  /** Storing without `mkdir` below a path that ends at a file panics. */
  lemma StoreUnderFile(d: Dir, segs: seq<string>, path: string, name: string, f: File)
    requires segs != [] && Split(PathOf(segs), Separator) == segs
    requires SplitLast(path) == (PathOf(segs) + [Separator], name)
    requires FindIn(Some(d), segs).Ok? && !FindIn(Some(d), segs).value.IsDir()
    ensures Store(d, path, f, false).1 == Some(Panic)
  {
    var dir := PathOf(segs) + [Separator];
    assert dir[..|dir| - 1] == PathOf(segs);
  }

  /** A path of directories one segment longer is a path of directories to a directory entry. */
  lemma {:induction false} IsDirPathSplit(d: Dir, init: seq<string>, last: string)
    ensures IsDirPath(d, init + [last]) <==>
      IsDirPath(d, init) && last in DirAt(d, init) && DirAt(d, init)[last].children.Some?
    decreases |init|
  {
    if init == [] {
      assert [] + [last] == [last];
    } else {
      assert (init + [last])[1..] == init[1..] + [last];
      if init[0] in d && d[init[0]].children.Some? {
        IsDirPathSplit(d[init[0]].children.value, init[1..], last);
      }
    }
  }
}
