/**
 * `fs/fstest/in_memory_driver.go`: a file system kept in memory as nested
 * maps from names to files, used in place of the disk by the tests of the
 * commands and the linker.
 *
 * In Go every directory's `Children` map is shared by reference between the
 * tree and the `File` values copied out of it, so a write into a child map is
 * seen from the root. Here the tree is a value, and a write below the root
 * rebuilds the directories along its path (`PutAt`, `MkdirIn`).
 */
module MemFs {
  import opened Wrappers
  import opened Strings
  import opened FilePath
  import ParserFile

  newtype byte = x: int | 0 <= x < 256

  /** `os.FileMode`, a 32-bit word. */
  newtype FileMode = x: int | 0 <= x < 0x1_0000_0000

  /** `os.ModePerm`: `0777`. */
  const ModePerm: FileMode := 0x1FF

  /** `File`: a directory exactly when `Children` is not nil. */
  datatype File = File(perm: FileMode, linkname: string, data: seq<byte>, children: Option<map<string, File>>)

  /** A directory's entries. */
  type Dir = map<string, File>

  /** A fresh directory, as `mkdirAll` makes it. */
  const NewDir := File(ModePerm, "", [], Some(map[]))

  /** `FileStat`: a file and the name (`Label`) it was found under. */
  datatype FileStat = FileStat(name: string, file: File)
  {
    /** A zero `FileStat` stands for a file that does not exist. */
    predicate Exists() { name != "" }

    predicate IsDir() { file.children.Some? }

    function Linkname(): string { file.linkname }

    function Perm(): FileMode { file.perm }
  }

  const NoStat := FileStat("", File(0, "", [], None))

  /**
   * The driver's errors. `Panic` stands for a Go run-time panic: a write into
   * a nil map.
   */
  datatype FsError = ErrNotExist | ErrExist | ErrNotDir | Panic

  /** `createOpts`: the `mkdirOpt` and `overwriteOpt` bits. */
  datatype CreateOpts = CreateOpts(mkdir: bool, overwrite: bool)

  const MkdirOpt := CreateOpts(true, false)
  const OverwriteOpt := CreateOpts(false, true)

  // ---------------------------------------------------------------------------
  // The tree as a value

  /**
   * `find` along the segments `segs`: each segment is looked up in the
   * children of the previous one, starting from the root.
   */
  function FindIn(files: Option<Dir>, segs: seq<string>): Result<FileStat, FsError>
    requires |segs| > 0
    decreases |segs|
  {
    if files.None? || segs[0] !in files.value then Err(ErrNotExist)
    else
      var f := files.value[segs[0]];
      if |segs| == 1 then Ok(FileStat(segs[0], f)) else FindIn(f.children, segs[1..])
  }

  /** `find(filename)`: the path is split on every separator, empty pieces included. */
  function Lookup(files: Option<Dir>, filename: string): Result<FileStat, FsError>
  {
    FindIn(files, Split(filename, Separator))
  }

  /** Every segment of `segs`, followed from `d`, is a directory. */
  ghost predicate IsDirPath(d: Dir, segs: seq<string>)
    decreases |segs|
  {
    segs == [] || (segs[0] in d && d[segs[0]].children.Some? && IsDirPath(d[segs[0]].children.value, segs[1..]))
  }

  /** Following the non-empty segments of `segs` from `d` runs into a file that is not a directory. */
  ghost predicate Blocked(d: Dir, segs: seq<string>)
    decreases |segs|
  {
    && segs != []
    && if segs[0] == "" then Blocked(d, segs[1..])
       else segs[0] in d && (d[segs[0]].children.None? || Blocked(d[segs[0]].children.value, segs[1..]))
  }

  /**
   * The loop of `mkdirAll` over `segs` below the directory `d`: empty segments
   * are skipped, a missing one becomes a fresh directory, an existing
   * directory is entered and anything else fails with `ErrExist`.
   */
  function MkdirIn(d: Dir, segs: seq<string>): Result<Dir, FsError>
    decreases |segs|
  {
    if segs == [] then Ok(d)
    else if segs[0] == "" then MkdirIn(d, segs[1..])
    else
      var f := if segs[0] in d then d[segs[0]] else NewDir;
      if f.children.None? then Err(ErrExist)
      else
        match MkdirIn(f.children.value, segs[1..])
        case Err(e) => Err(e)
        case Ok(kids) => Ok(d[segs[0] := f.(children := Some(kids))])
  }

  /** `mkdirAll(dirname)`: the root map is made first if it is nil. */
  function MkdirAllSpec(files: Option<Dir>, dirname: string): (Option<Dir>, Option<FsError>)
  {
    var root := files.GetOr(map[]);
    match MkdirIn(root, Split(dirname, Separator))
    case Ok(root') => (Some(root'), None)
    case Err(e) => (Some(root), Some(e))
  }

  /** `parent[name] = f` where `parent` is the children of the directory at `segs`. */
  function PutAt(d: Dir, segs: seq<string>, name: string, f: File): Dir
    decreases |segs|
  {
    if segs == [] then d[name := f]
    else if segs[0] in d && d[segs[0]].children.Some? then
      d[segs[0] := d[segs[0]].(children := Some(PutAt(d[segs[0]].children.value, segs[1..], name, f)))]
    else d
  }

  /**
   * The second half of `create`: find (or, with `mkdir`, make) the parent
   * directory and store `f` in it.
   */
  function Store(root: Dir, filename: string, f: File, mkdir: bool): (Option<Dir>, Option<FsError>)
  {
    var (dir, file) := SplitLast(filename);
    if dir == "" then (Some(root[file := f]), None)
    else
      var segs := Split(dir[..|dir| - 1], Separator);
      if mkdir then
        match MkdirIn(root, segs)
        case Err(e) => (Some(root), Some(e))
        case Ok(root') =>
          if NonEmpty(segs) == [] then (Some(root'), Some(Panic))
          else (Some(PutAt(root', NonEmpty(segs), file, f)), None)
      else
        match FindIn(Some(root), segs)
        case Err(e) => (Some(root), Some(e))
        case Ok(st) =>
          if !st.IsDir() then (Some(root), Some(Panic))
          else (Some(PutAt(root, segs, file, f)), None)
  }

  /**
   * `create(filename, f, opts)`: refuse an existing file unless overwriting
   * a non-directory, which keeps its old permissions; then store `f`.
   */
  function CreateSpec(files: Option<Dir>, filename: string, f: File, o: CreateOpts): (Option<Dir>, Option<FsError>)
  {
    var found := Lookup(files, filename);
    if found.Err? && found.error != ErrNotExist then (files, Some(found.error))
    else
      var fstat := if found.Ok? then found.value else NoStat;
      var present := fstat.Exists();
      if present && (!o.overwrite || fstat.IsDir()) then (files, Some(ErrExist))
      else
        var f' := if present then f.(perm := fstat.Perm()) else f;
        Store(files.GetOr(map[]), filename, f', o.mkdir)
  }

  /** The file `Symlink(oldname, _)` creates. */
  function LinkFile(oldname: string): File
  {
    File(ModePerm, oldname, [], None)
  }

  /** The file `WriteFile(_, data, perm)` stores. */
  function DataFile(data: seq<byte>, perm: FileMode): File
  {
    File(perm, "", data, None)
  }

  /** The entries of a directory as `ReadDir` lists them: sorted by name. */
  ghost function Listing(d: Dir): (r: seq<FileStat>)
    ensures |r| == |d|
  {
    var ks := SortedKeys(d.Keys);
    seq(|ks|, i requires 0 <= i < |ks| => FileStat(ks[i], d[ks[i]]))
  }

  ghost function ReadDirSpec(files: Option<Dir>, dirname: string): Result<seq<FileStat>, FsError>
  {
    match Lookup(files, dirname)
    case Err(e) => Err(e)
    case Ok(st) => if !st.IsDir() then Err(ErrNotDir) else Ok(Listing(st.file.children.value))
  }

  function StatSpec(files: Option<Dir>, filename: string): Result<FileStat, FsError>
  {
    match Lookup(files, filename)
    case Err(ErrNotExist) => Ok(NoStat)
    case other => other
  }

  // ---------------------------------------------------------------------------
  // The driver

  /** `InMemoryDriver`: the root directory, nil until something is created. */
  class InMemoryDriver {
    var files: Option<Dir>

    constructor()
      ensures files == None
    {
      files := None;
    }

    /** `find(filename)`: walk the segments down from the root. */
    method Find(filename: string) returns (r: Result<FileStat, FsError>)
      ensures r == Lookup(files, filename)
    {
      var paths := Split(filename, Separator);
      var cur := files;
      var fstat := NoStat;
      for i := 0 to |paths|
        invariant i < |paths| ==> FindIn(cur, paths[i..]) == Lookup(files, filename)
        invariant i == |paths| ==> Ok(fstat) == Lookup(files, filename)
      {
        var p := paths[i];
        if cur.Some? && p in cur.value {
          var f := cur.value[p];
          assert paths[i..][1..] == paths[i + 1..];
          cur := f.children;
          fstat := FileStat(p, f);
          continue;
        }
        return Err(ErrNotExist);
      }
      r := Ok(fstat);
    }

    /** `MkdirAll(dirname)` and `mkdirAll(dirname)`. */
    method MkdirAll(dirname: string) returns (err: Option<FsError>)
      modifies this
      ensures (files, err) == MkdirAllSpec(old(files), dirname)
    {
      if files.None? {
        files := Some(map[]);
      }
      match MkdirIn(files.value, Split(dirname, Separator))
      case Ok(root) =>
        files := Some(root);
        err := None;
      case Err(e) =>
        err := Some(e);
    }

    /** `ReadDir(dirname)`: the directory's entries sorted by name. */
    method ReadDir(dirname: string) returns (r: Result<seq<FileStat>, FsError>)
      ensures r == ReadDirSpec(files, dirname)
    {
      var found := Find(dirname);
      if found.Err? {
        return Err(found.error);
      }
      var fstat := found.value;
      if !fstat.IsDir() {
        return Err(ErrNotDir);
      }
      var list := Entries(fstat.file.children.value);
      r := Ok(list);
    }

    /** `ReadDir`'s listing: collect the entries, then `sort.Sort` them by name. */
    static method Entries(children: Dir) returns (list: seq<FileStat>)
      ensures list == Listing(children)
    {
      var names := CollectSorted(children.Keys);
      list := Stats(children, names);
    }

    /** The entries of `children` under `names`, in the order of `names`. */
    static method Stats(children: Dir, names: seq<string>) returns (list: seq<FileStat>)
      requires forall k :: 0 <= k < |names| ==> names[k] in children
      ensures |list| == |names|
      ensures forall j :: 0 <= j < |names| ==> list[j] == FileStat(names[j], children[names[j]])
    {
      list := [];
      for i := 0 to |names|
        invariant |list| == i
        invariant forall j :: 0 <= j < i ==> list[j] == FileStat(names[j], children[names[j]])
      {
        list := list + [FileStat(names[i], children[names[i]])];
      }
    }

    /** `ReadFile(filename)`: the data of the file found. */
    method ReadFile(filename: string) returns (r: Result<seq<byte>, FsError>)
      ensures Lookup(files, filename).Err? ==> r == Err(Lookup(files, filename).error)
      ensures Lookup(files, filename).Ok? ==> r == Ok(Lookup(files, filename).value.file.data)
    {
      var found := Find(filename);
      if found.Err? {
        return Err(found.error);
      }
      r := Ok(found.value.file.data);
    }

    /** `Stat(filename)`: a missing file gives a zero `FileStat` and no error. */
    method Stat(filename: string) returns (r: Result<FileStat, FsError>)
      ensures r == StatSpec(files, filename)
    {
      var found := Find(filename);
      if found.Err? && found.error == ErrNotExist {
        return Ok(NoStat);
      }
      r := found;
    }

    /** `create(filename, f, opts)`. */
    method Create(filename: string, f: File, o: CreateOpts) returns (err: Option<FsError>)
      modifies this
      ensures (files, err) == CreateSpec(old(files), filename, f, o)
    {
      var found := Find(filename);
      if found.Err? && found.error != ErrNotExist {
        return Some(found.error);
      }
      var fstat := if found.Ok? then found.value else NoStat;
      var present := fstat.Exists();
      if present && (!o.overwrite || fstat.IsDir()) {
        return Some(ErrExist);
      }
      if files.None? {
        files := Some(map[]);
      }
      var parentPath: seq<string> := [];
      var parentIsNil := false;
      var (dir, file) := SplitLast(filename);
      if dir != "" {
        dir := dir[..|dir| - 1];
        var segs := Split(dir, Separator);
        if o.mkdir {
          err := MkdirAll(dir);
          if err.Some? {
            return;
          }
          parentPath := NonEmpty(segs);
          parentIsNil := parentPath == [];
        } else {
          var st := Find(dir);
          if st.Err? {
            return Some(st.error);
          }
          parentPath := segs;
          parentIsNil := !st.value.IsDir();
        }
      }
      var f' := f;
      if present {
        f' := f.(perm := fstat.Perm());
      }
      if parentIsNil {
        return Some(Panic);
      }
      files := Some(PutAt(files.value, parentPath, file, f'));
      err := None;
    }

    /** `Symlink(oldname, newname)`: create a link, making its parent directories. */
    method Symlink(oldname: string, newname: string) returns (err: Option<FsError>)
      modifies this
      ensures (files, err) == CreateSpec(old(files), newname, LinkFile(oldname), MkdirOpt)
    {
      err := Create(newname, LinkFile(oldname), MkdirOpt);
    }

    /** `WriteFile(filename, data, perm)`: write a file whose parent directory exists. */
    method WriteFile(filename: string, data: seq<byte>, perm: FileMode) returns (err: Option<FsError>)
      modifies this
      ensures (files, err) == CreateSpec(old(files), filename, DataFile(data, perm), OverwriteOpt)
    {
      err := Create(filename, DataFile(data, perm), OverwriteOpt);
    }
  }
}
