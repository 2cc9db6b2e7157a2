/**
 * Go's `path/filepath` as the repository uses it, with `/` as the separator.
 * `Join` drops empty elements and puts one separator between the others. The
 * lexical cleaning Go's `Join` also performs (`.` and `..` elements, doubled or
 * trailing separators inside an element) is not modelled.
 */
module FilePath {
  import opened Strings

  const Separator: char := '/'

  /** The non-empty elements of `parts`, in their order. */
  function NonEmpty(parts: seq<string>): (r: seq<string>)
    ensures forall i :: 0 <= i < |r| ==> r[i] != ""
    ensures forall x :: x in r <==> x in parts && x != ""
    ensures |r| <= |parts|
  {
    if parts == [] then []
    else if parts[0] == "" then NonEmpty(parts[1..])
    else [parts[0]] + NonEmpty(parts[1..])
  }

  /** `filepath.Join(parts...)`. */
  function Join(parts: seq<string>): string
  {
    JoinWith(NonEmpty(parts), Separator)
  }

  /** `Join` gives the empty string exactly when every element is empty. */
  lemma JoinEmptyIff(parts: seq<string>)
    ensures Join(parts) == "" <==> forall i :: 0 <= i < |parts| ==> parts[i] == ""
  {
    var ne := NonEmpty(parts);
    if ne != [] {
      JoinNonEmptyNotEmpty(ne);
      assert ne[0] in parts;
    } else {
      forall i | 0 <= i < |parts| ensures parts[i] == "" {
        assert parts[i] in parts;
      }
    }
  }

  lemma {:induction false} JoinNonEmptyNotEmpty(ps: seq<string>)
    requires ps != []
    requires forall i :: 0 <= i < |ps| ==> ps[i] != ""
    ensures JoinWith(ps, Separator) != ""
  {
    if |ps| > 1 {
      assert JoinWith(ps, Separator) == ps[0] + [Separator] + JoinWith(ps[1..], Separator);
    }
  }

  /** Splitting a joined path on the separator recovers its non-empty elements. */
  lemma SplitJoinPath(parts: seq<string>)
    requires forall i :: 0 <= i < |parts| ==> Separator !in parts[i]
    requires NonEmpty(parts) != []
    ensures Split(Join(parts), Separator) == NonEmpty(parts)
  {
    var ne := NonEmpty(parts);
    forall i | 0 <= i < |ne| ensures Separator !in ne[i] {
      assert ne[i] in parts;
    }
    SplitJoin(ne, Separator);
  }

  /**
   * `filepath.Split(path)`: everything up to and including the last separator,
   * and the rest.
   */
  function SplitLast(path: string): (r: (string, string))
    ensures r.0 + r.1 == path
    ensures Separator !in r.1
    ensures r.0 == "" || r.0[|r.0| - 1] == Separator
  {
    if path == [] then ("", "")
    else if path[|path| - 1] == Separator then (path, "")
    else
      var (dir, file) := SplitLast(path[..|path| - 1]);
      assert path == path[..|path| - 1] + [path[|path| - 1]];
      (dir, file + [path[|path| - 1]])
  }

  /** The three properties of `SplitLast` pin its result down: the split point is the last separator. */
  lemma {:induction false} SplitLastUnique(path: string, dir: string, file: string)
    requires dir + file == path
    requires Separator !in file
    requires dir == "" || dir[|dir| - 1] == Separator
    ensures SplitLast(path) == (dir, file)
  {
    var r := SplitLast(path);
    assert forall k :: |dir| <= k < |path| ==> path[k] == file[k - |dir|];
    assert forall k :: |r.0| <= k < |path| ==> path[k] == r.1[k - |r.0|];
    assert |dir| > 0 ==> path[|dir| - 1] == Separator;
    assert |r.0| > 0 ==> path[|r.0| - 1] == Separator;
    assert |dir| <= |r.0| && |r.0| <= |dir|;
    assert r.0 == path[..|dir|] == dir;
  }
}
