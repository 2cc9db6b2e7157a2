/**
 * `cmd/plg/read.go`: the include, exclude and hidden flags of the `init` and
 * `scan` commands, and `resolve`, which filters a directory listing with them.
 * A listing is given by its file names, the only part of `fs.FileInfo` that
 * `resolve` reads.
 */
module ReadModes {
  import opened Filters

  /** Whether `resolve` keeps the file name `name` under the given flags. */
  predicate Admitted(includes: set<string>, excludes: set<string>, hidden: bool, name: string)
  {
    && name != ""
    && (hidden || !Hidden(name))
    && (|includes| == 0 || name in includes)
    && name !in excludes
  }

  function Admits(includes: set<string>, excludes: set<string>, hidden: bool): string -> bool
  {
    (name: string) => Admitted(includes, excludes, hidden, name)
  }

  /** `readMode`: the sets given with `-include`/`-exclude` and the `-hidden` flag. */
  class ReadMode {
    var includes: set<string>
    var excludes: set<string>
    var hidden: bool

    constructor(includes: set<string>, excludes: set<string>, hidden: bool)
      ensures this.includes == includes && this.excludes == excludes && this.hidden == hidden
    {
      this.includes := includes;
      this.excludes := excludes;
      this.hidden := hidden;
    }

    /** `resolve(files)`: the admitted names, in listing order; the flags are only read. */
    method Resolve(files: seq<string>) returns (eligible: seq<string>)
      ensures eligible == Filter(Admits(includes, excludes, hidden), files)
    {
      eligible := [];
      for i := 0 to |files|
        invariant eligible == Filter(Admits(includes, excludes, hidden), files[..i])
      {
        var fname := files[i];
        assert files[..i + 1][..i] == files[..i];
        if fname == "" || (!hidden && Hidden(fname)) {
          continue;
        }
        if |includes| > 0 && fname !in includes {
          continue;
        }
        if fname in excludes {
          continue;
        }
        eligible := eligible + [fname];
      }
      assert files[..|files|] == files;
    }
  }

  /** An empty name is never eligible. */
  lemma EmptyNeverEligible(includes: set<string>, excludes: set<string>, hidden: bool, files: seq<string>)
    ensures "" !in Filter(Admits(includes, excludes, hidden), files)
  {
  }

  /**
   * A dot-prefixed name is eligible only with `hidden` set; with `hidden` set,
   * an empty includes set and an excludes set that does not name it, it is.
   */
  lemma HiddenRule(includes: set<string>, excludes: set<string>, hidden: bool, files: seq<string>, name: string)
    requires Hidden(name)
    ensures name in Filter(Admits(includes, excludes, hidden), files) ==> hidden
    ensures hidden && |includes| == 0 && name !in excludes && name in files ==>
      name in Filter(Admits(includes, excludes, hidden), files)
  {
  }

  /** With a non-empty includes set, every eligible name is in it. */
  lemma IncludeRule(includes: set<string>, excludes: set<string>, hidden: bool, files: seq<string>)
    requires |includes| > 0
    ensures forall x :: x in Filter(Admits(includes, excludes, hidden), files) ==> x in includes
  {
  }

  /** An excluded name is never eligible, hidden or included as it may be. */
  lemma ExcludeWins(includes: set<string>, excludes: set<string>, hidden: bool, files: seq<string>)
    ensures forall x :: x in excludes ==> x !in Filter(Admits(includes, excludes, hidden), files)
  {
  }

  /** The result keeps the listing's order and is no longer than it. */
  lemma ResolveKeepsOrder(includes: set<string>, excludes: set<string>, hidden: bool, files: seq<string>)
    ensures Subsequence(Filter(Admits(includes, excludes, hidden), files), files)
    ensures |Filter(Admits(includes, excludes, hidden), files)| <= |files|
  {
    FilterSubsequence(Admits(includes, excludes, hidden), files);
  }
}
