/**
 * `parser/file.go`: a file as a base directory plus path segments, and the
 * paths derived from it.
 */
module ParserFile {
  import opened FilePath
  import opened Strings

  /** `File`: `BaseDir` and the `Path` segments below it. */
  datatype File = File(baseDir: string, path: seq<string>)
  {
    /** `File.Dir`: the directory holding the file. */
    function Dir(): string
    {
      if |path| < 2 then baseDir
      else Join([baseDir] + path[..|path| - 1])
    }

    /** `File.FullPath`: the base directory joined with every segment. */
    function FullPath(): string
    {
      Join([baseDir] + path)
    }

    /** `File.base`: the last segment; the source indexes it, so the path must not be empty. */
    function Base(): string
      requires |path| > 0
    {
      path[|path| - 1]
    }

    /** The same file one level up. */
    function Parent(): File
      requires |path| > 0
    {
      File(baseDir, path[..|path| - 1])
    }
  }

  lemma {:induction false} NonEmptyAppend(parts: seq<string>, x: string)
    ensures NonEmpty(parts + [x]) == NonEmpty(parts) + NonEmpty([x])
  {
    if parts != [] {
      NonEmptyAppend(parts[1..], x);
      assert (parts + [x])[1..] == parts[1..] + [x];
      assert (parts + [x])[0] == parts[0];
      var rest, tail := NonEmpty(parts[1..]), NonEmpty([x]);
      if parts[0] != "" {
        assert [parts[0]] + (rest + tail) == ([parts[0]] + rest) + tail;
      }
    } else {
      assert parts + [x] == [x];
    }
  }

  lemma {:induction false} JoinWithAppend(ps: seq<string>, x: string)
    requires ps != []
    ensures JoinWith(ps + [x], Separator) == JoinWith(ps, Separator) + [Separator] + x
  {
    if |ps| > 1 {
      JoinWithAppend(ps[1..], x);
      assert (ps + [x])[1..] == ps[1..] + [x];
    }
  }

  /** Joining is associative: joining one more element onto a joined path. */
  lemma JoinAppend(parts: seq<string>, x: string)
    ensures Join(parts + [x]) == Join([Join(parts), x])
  {
    NonEmptyAppend(parts, x);
    var ne := NonEmpty(parts);
    if ne == [] {
      JoinEmptyIff(parts);
      assert NonEmpty([Join(parts), x]) == NonEmpty([x]) by {
        assert [Join(parts), x][1..] == [x];
      }
    } else {
      JoinNonEmptyNotEmpty(ne);
      assert NonEmpty([Join(parts), x]) == [Join(parts)] + NonEmpty([x]) by {
        assert [Join(parts), x][1..] == [x];
      }
      if x != "" {
        assert NonEmpty([x]) == [x] by { assert [x][1..] == []; }
        JoinWithAppend(ne, x);
        assert [Join(parts)] + [x] == [Join(parts), x];
        assert [Join(parts), x][1..] == [x];
        assert JoinWith([Join(parts), x], Separator) == Join(parts) + [Separator] + x;
      } else {
        assert NonEmpty([x]) == [] by { assert [x][1..] == []; }
        assert ne + [] == ne;
        assert [Join(parts)] + [] == [Join(parts)];
      }
    }
  }

  /** A lone element joins to itself. */
  lemma JoinSingle(x: string)
    ensures Join([x]) == x
  {
    assert [x][1..] == [];
  }

  /** `FullPath` of a file one segment longer is `FullPath` joined with that segment. */
  lemma FullPathAppend(f: File, x: string)
    ensures File(f.baseDir, f.path + [x]).FullPath() == Join([f.FullPath(), x])
  {
    assert [f.baseDir] + (f.path + [x]) == ([f.baseDir] + f.path) + [x];
    JoinAppend([f.baseDir] + f.path, x);
  }

  /** `Dir` is the full path of the parent, for every non-empty path. */
  lemma DirIsParentFullPath(f: File)
    requires |f.path| > 0
    ensures f.Dir() == f.Parent().FullPath()
  {
    if |f.path| == 1 {
      assert [f.baseDir] + f.path[..0] == [f.baseDir];
      JoinSingle(f.baseDir);
    }
  }

  /** `Dir` and `base` put back together give `FullPath`. */
  lemma DirBaseFullPath(f: File)
    requires |f.path| > 0
    ensures f.FullPath() == Join([f.Dir(), f.Base()])
  {
    DirIsParentFullPath(f);
    assert f.path == f.path[..|f.path| - 1] + [f.Base()];
    FullPathAppend(f.Parent(), f.Base());
  }

  /** With fewer than two segments `Dir` is the base directory, untouched. */
  lemma DirOfShortPath(f: File)
    requires |f.path| < 2
    ensures f.Dir() == f.baseDir
  {
  }

  /** The cases of `file_test.go` without segments: an empty file and a bare directory. */
  lemma FileExamples()
    ensures File("", []).Dir() == "" && File("", []).FullPath() == ""
    ensures File("test", []).Dir() == "test" && File("test", []).FullPath() == "test"
  {
    JoinSingle("");
    JoinSingle("test");
    assert ["test"] + [] == ["test"];
  }

  /** The case of `file_test.go` with one segment. */
  lemma FileExampleOneSegment()
    ensures File("test", ["foo"]).Dir() == "test" && File("test", ["foo"]).FullPath() == "test/foo"
  {
    JoinSingle("test");
    assert ["test"] + ["foo"] == ["test", "foo"];
    assert NonEmpty(["test", "foo"]) == ["test", "foo"] by {
      assert ["test", "foo"][1..] == ["foo"];
      assert ["foo"][1..] == [];
    }
    TestFoo();
  }

  /** The case of `file_test.go` with two segments. */
  lemma FileExampleTwoSegments()
    ensures File("test", ["foo", "bar"]).Dir() == "test/foo"
    ensures File("test", ["foo", "bar"]).FullPath() == "test/foo/bar"
  {
    FileExampleOneSegment();
    var f := File("test", ["foo", "bar"]);
    assert f.Parent() == File("test", ["foo"]);
    DirIsParentFullPath(f);
    assert f.path[..1] + [f.Base()] == f.path;
    FullPathAppend(File("test", ["foo"]), "bar");
    TestFooBar();
  }

  lemma TestFoo()
    ensures Join(["test", "foo"]) == "test/foo"
  {
    assert ["test", "foo"][1..] == ["foo"];
    assert ["foo"][1..] == [];
    assert NonEmpty(["test", "foo"]) == ["test", "foo"];
  }

  lemma TestFooBar()
    ensures Join(["test/foo", "bar"]) == "test/foo/bar"
  {
    assert ["test/foo", "bar"][1..] == ["bar"];
    assert ["bar"][1..] == [];
    assert NonEmpty(["test/foo", "bar"]) == ["test/foo", "bar"];
  }
}
