/**
 * `config/config.go`: the configuration file's record, the constructor that
 * filters a directory listing into `Targets`, the functional options that set
 * its filters, and `Set`, which stores an option record at a slash-separated
 * path.
 *
 * Go's `Config` is a struct whose `Options` map is shared by reference between
 * copies; here it is a value and each write to a nested map is written back
 * into the entry that holds it, which is what the sharing achieves in `Set`.
 */
module Configs {
  import opened Wrappers
  import opened Strings
  import opened FilePath
  import opened Filters

  /** `internalOpts`: the filters `New` applies. A nil set and an empty one behave alike. */
  datatype InternalOpts = InternalOpts(inc: set<string>, exc: set<string>, skipName: string, addHidden: bool)

  const NoOpts := InternalOpts({}, {}, "", false)

  /**
   * `Config`. `Link`, `Options` and `UseHome` may be nil in Go, which `Option`
   * keeps apart from an empty string, map or `false`.
   */
  datatype Config = Config(
    baseDir: string,
    link: Option<string>,
    targets: seq<string>,
    options: Option<map<string, Config>>,
    useHome: Option<bool>,
    opts: InternalOpts)

  /** The zero `Config` that `New` starts from. */
  const Zero := Config("", None, [], None, None, NoOpts)

  /** `func(*Config)`: an option rewrites the configuration being built. */
  type ConfigOption = Config -> Config

  /** `MergeWith(c)`: take every field of `c` but keep the filters already set. */
  function MergeWith(c: Config): ConfigOption
  {
    (src: Config) => c.(opts := src.opts)
  }

  /** `Include(set)`: only names in `set` survive (when it is not empty). */
  function Include(st: set<string>): ConfigOption
  {
    (c: Config) => c.(opts := c.opts.(inc := st))
  }

  /** `IncludeHidden`: dot-prefixed names are no longer dropped. */
  function IncludeHidden(): ConfigOption
  {
    (c: Config) => c.(opts := c.opts.(addHidden := true))
  }

  /** `Exclude(set)`: names in `set` never survive. */
  function Exclude(st: set<string>): ConfigOption
  {
    (c: Config) => c.(opts := c.opts.(exc := st))
  }

  /** The zero configuration after applying `opts` in order. */
  function Configure(opts: seq<ConfigOption>): Config
  {
    if opts == [] then Zero
    else opts[|opts| - 1](Configure(opts[..|opts| - 1]))
  }

  /** Whether `New` keeps the name `tg` under the filters `o`. */
  predicate Eligible(o: InternalOpts, tg: string)
  {
    && tg != ""
    && tg != o.skipName
    && (o.addHidden || !Hidden(tg))
    && (|o.inc| == 0 || tg in o.inc)
    && tg !in o.exc
  }

  function Keeps(o: InternalOpts): string -> bool
  {
    (tg: string) => Eligible(o, tg)
  }

  /**
   * `New(targets, opts...)`: apply the options to a zero configuration, then
   * keep the eligible targets in their order.
   */
  method New(targets: seq<string>, opts: seq<ConfigOption>) returns (c: Config)
    ensures c == Configure(opts).(targets := Filter(Keeps(Configure(opts).opts), targets))
  {
    c := Zero;
    for i := 0 to |opts|
      invariant c == Configure(opts[..i])
    {
      assert opts[..i + 1][..i] == opts[..i];
      c := opts[i](c);
    }
    assert opts[..|opts|] == opts;
    var eligible: seq<string> := [];
    for i := 0 to |targets|
      invariant eligible == Filter(Keeps(c.opts), targets[..i])
    {
      var tg := targets[i];
      assert targets[..i + 1][..i] == targets[..i];
      if tg == "" || tg == c.opts.skipName || (!c.opts.addHidden && Hidden(tg)) {
        continue;
      }
      if |c.opts.inc| > 0 && tg !in c.opts.inc {
        continue;
      }
      if tg in c.opts.exc {
        continue;
      }
      eligible := eligible + [tg];
    }
    assert targets[..|targets|] == targets;
    c := c.(targets := eligible);
  }

  /** The targets `New` keeps are an order-preserving subsequence of its input, no longer than it. */
  lemma NewKeepsOrder(o: InternalOpts, targets: seq<string>)
    ensures Subsequence(Filter(Keeps(o), targets), targets)
    ensures |Filter(Keeps(o), targets)| <= |targets|
  {
    FilterSubsequence(Keeps(o), targets);
  }

  /**
   * A name survives `New` exactly when it is in the input, not empty, not the
   * skip name, not hidden unless hidden names are allowed, in the include set
   * if that is not empty, and not in the exclude set.
   */
  lemma NewMembership(o: InternalOpts, targets: seq<string>, x: string)
    ensures x in Filter(Keeps(o), targets) <==>
      && x in targets
      && x != ""
      && x != o.skipName
      && (o.addHidden || !Hidden(x))
      && (|o.inc| == 0 || x in o.inc)
      && x !in o.exc
  {
  }

  /**
   * The exclude set wins over the include set whatever order the options
   * come in, contrary to `Exclude`'s doc comment.
   */
  lemma ExcludeWinsOverInclude(opts: seq<ConfigOption>, inc: set<string>, exc: set<string>, targets: seq<string>, x: string)
    requires x in exc
    ensures x !in Filter(Keeps(Configure(opts + [Include(inc), Exclude(exc)]).opts), targets)
    ensures x !in Filter(Keeps(Configure(opts + [Exclude(exc), Include(inc)]).opts), targets)
  {
    var a := opts + [Include(inc), Exclude(exc)];
    var b := opts + [Exclude(exc), Include(inc)];
    assert a[..|a| - 1] == opts + [Include(inc)] && (opts + [Include(inc)])[..|opts|] == opts;
    assert b[..|b| - 1] == opts + [Exclude(exc)] && (opts + [Exclude(exc)])[..|opts|] == opts;
    assert Configure(a).opts.exc == exc;
    assert Configure(b).opts.exc == exc;
  }

  /** Without `IncludeHidden` and with no include set, every dot-prefixed name is dropped. */
  lemma HiddenDroppedByDefault(inc: set<string>, exc: set<string>, targets: seq<string>, x: string)
    requires Hidden(x)
    ensures x !in Filter(Keeps(Configure([Include(inc), Exclude(exc)]).opts), targets)
  {
    var a := [Include(inc), Exclude(exc)];
    assert a[..1] == [Include(inc)] && [Include(inc)][..0] == [];
    assert Configure([Include(inc)]) == Include(inc)(Zero);
    assert Configure(a) == Exclude(exc)(Configure([Include(inc)]));
    assert !Configure(a).opts.addHidden;
  }

  /** `IncludeHidden` lets a dot-prefixed name through when nothing else rejects it. */
  lemma IncludeHiddenKeeps(targets: seq<string>, x: string)
    requires Hidden(x) && x in targets
    ensures x in Filter(Keeps(Configure([IncludeHidden()]).opts), targets)
  {
    assert [IncludeHidden()][..0] == [];
    assert Configure([IncludeHidden()]).opts == NoOpts.(addHidden := true);
  }

  /** `MergeWith(c)` takes every public field of `c` and leaves the filters as they were. */
  lemma MergeWithKeepsFilters(opts: seq<ConfigOption>, c: Config)
    ensures var m := Configure(opts + [MergeWith(c)]);
      && m.baseDir == c.baseDir && m.link == c.link && m.targets == c.targets
      && m.options == c.options && m.useHome == c.useHome
      && m.opts == Configure(opts).opts
  {
    assert (opts + [MergeWith(c)])[..|opts|] == opts;
  }

  // ---------------------------------------------------------------------------
  // Set

  /** The entries of an `Options` map; a nil map reads as empty. */
  function Entries(c: Config): map<string, Config>
  {
    if c.options.Some? then c.options.value else map[]
  }

  /**
   * The copy `Set` writes back for a directory entry that has no `Options`:
   * only `BaseDir`, `Link` and `Targets` survive, beside an empty map.
   */
  function Stripped(oo: Config): (r: Config)
    ensures r.options == Some(map[])
  {
    Config(oo.baseDir, oo.link, oo.targets, Some(map[]), None, NoOpts)
  }

  /** `oo.Options[last] = o`, seen through the entry `k` of `c` that shares `oo`'s map. */
  function Place(c: Config, k: string, oo: Config, last: string, o: Config): Config
    requires c.options.Some? && oo.options.Some?
  {
    c.(options := Some(c.options.value[k := oo.(options := Some(oo.options.value[last := o]))]))
  }

  /**
   * The key loop of `Set` as written: every key is looked up in the TOP-LEVEL
   * `Options`; a missing key ends `Set` with the replacements made so far; the
   * option is finally stored under the last key's entry.
   */
  function SetKeys(c: Config, keys: seq<string>, last: string, o: Config): Config
    requires |keys| > 0
    decreases |keys|
  {
    var k := keys[0];
    if k !in Entries(c) then c
    else
      var oo := c.options.value[k];
      var oo' := if oo.options.None? then Stripped(oo) else oo;
      var c' := if oo.options.None? then c.(options := Some(c.options.value[k := oo'])) else c;
      if |keys| == 1 then Place(c', k, oo', last, o)
      else SetKeys(c', keys[1..], last, o)
  }

  /** What `Set(path, o)` leaves in the configuration. */
  function SetSpec(c: Config, path: string, o: Config): Config
  {
    var (dir, last) := SplitLast(path);
    if dir == "" then
      if last == "" then o else c.(options := Some(Entries(c)[last := o]))
    else SetKeys(c, Split(dir[..|dir| - 1], Separator), last, o)
  }

  /** `(*Config).Set(path, o)`; the receiver is passed in and the updated value returned. */
  method Set(c: Config, path: string, o: Config) returns (r: Config)
    ensures r == SetSpec(c, path, o)
  {
    r := c;
    var (dir, last) := SplitLast(path);
    if dir == "" {
      if last == "" {
        r := o;
        return;
      }
      if r.options.None? {
        r := r.(options := Some(map[]));
      }
      r := r.(options := Some(r.options.value[last := o]));
      return;
    }
    dir := dir[..|dir| - 1];
    var keys := Split(dir, Separator);
    var oo := Zero;
    var goal := SetKeys(c, keys, last, o);
    for i := 0 to |keys|
      invariant i < |keys| ==> SetKeys(r, keys[i..], last, o) == goal
      invariant 0 < i ==> r.options.Some? && oo.options.Some?
      invariant 0 < i && i == |keys| ==> Place(r, keys[i - 1], oo, last, o) == goal
    {
      var k := keys[i];
      if r.options.None? || k !in r.options.value {
        return;
      }
      oo := r.options.value[k];
      if oo.options.None? {
        oo := Stripped(oo);
        r := r.(options := Some(r.options.value[k := oo]));
      }
      assert keys[i..][1..] == keys[i + 1..];
    }
    r := Place(r, keys[|keys| - 1], oo, last, o);
  }

  /** `Set("", o)` replaces the whole configuration, filters included. */
  lemma SetEmptyPathReplaces(c: Config, o: Config)
    ensures SetSpec(c, "", o) == o
  {
    var (dir, last) := SplitLast("");
    assert dir + last == "";
  }

  /**
   * `Set(name, o)` for a plain name stores `o` as it is under `Options[name]`,
   * creating the map if it was nil; every other entry and field is untouched.
   */
  lemma SetNameStores(c: Config, name: string, o: Config)
    requires name != "" && Separator !in name
    ensures var r := SetSpec(c, name, o);
      && r.options.Some?
      && r.options.value.Keys == Entries(c).Keys + {name}
      && r.options.value[name] == o
      && (forall k :: k in Entries(c) && k != name ==> r.options.value[k] == Entries(c)[k])
      && r.(options := c.options) == c
  {
    SplitLastUnique(name, "", name);
    assert "" + name == name;
  }

  /** The key list `Set` walks for the path `k/name`, when `k` has no separator. */
  lemma SetKeysOfOneDir(k: string, name: string)
    requires Separator !in k && Separator !in name
    ensures SplitLast(k + [Separator] + name) == (k + [Separator], name)
    ensures Split(k, Separator) == [k]
  {
    SplitLastUnique(k + [Separator] + name, k + [Separator], name);
    SplitPrefix(k, "", Separator);
    assert k + "" == k;
  }

  /** `Set(dir/name, o)` changes nothing when `dir` is not a top-level option. */
  lemma SetMissingDirUnchanged(c: Config, k: string, name: string, o: Config)
    requires Separator !in k && Separator !in name
    requires k !in Entries(c)
    ensures SetSpec(c, k + [Separator] + name, o) == c
  {
    SetKeysOfOneDir(k, name);
    assert (k + [Separator])[..|k|] == k;
  }

  /**
   * `Set(dir/name, o)` with `dir` a top-level option stores `o` under that
   * option's `Options[name]`. An option without `Options` first loses its
   * `UseHome` and filters; everything else in the configuration is untouched.
   */
  lemma SetUnderDir(c: Config, k: string, name: string, o: Config)
    requires Separator !in k && Separator !in name
    requires k in Entries(c)
    ensures var r := SetSpec(c, k + [Separator] + name, o);
      var old_ := Entries(c)[k];
      && r.options.Some?
      && r.options.value.Keys == Entries(c).Keys
      && (forall j :: j in Entries(c) && j != k ==> r.options.value[j] == Entries(c)[j])
      && r.(options := c.options) == c
      && var e := r.options.value[k];
      && e.baseDir == old_.baseDir && e.link == old_.link && e.targets == old_.targets
      && e.options == Some(Entries(old_)[name := o])
      && (old_.options.Some? ==> e.useHome == old_.useHome && e.opts == old_.opts)
      && (old_.options.None? ==> e.useHome == None && e.opts == NoOpts)
  {
    var old_ := Entries(c)[k];
    var oo := if old_.options.None? then Stripped(old_) else old_;
    var e := oo.(options := Some(oo.options.value[name := o]));
    SetOneDir(c, k, name, o);
    assert SetSpec(c, k + [Separator] + name, o) == c.(options := Some(c.options.value[k := e]));
    assert Entries(oo) == Entries(old_);
  }

  /** The configuration `Set(dir/name, o)` leaves when `dir` is a top-level option. */
  lemma SetOneDir(c: Config, k: string, name: string, o: Config)
    requires Separator !in k && Separator !in name
    requires k in Entries(c)
    ensures var old_ := Entries(c)[k];
      var oo := if old_.options.None? then Stripped(old_) else old_;
      SetSpec(c, k + [Separator] + name, o)
        == c.(options := Some(c.options.value[k := oo.(options := Some(oo.options.value[name := o]))]))
  {
    SetKeysOfOneDir(k, name);
    var dir := k + [Separator];
    assert dir[..|dir| - 1] == k;
    assert SetSpec(c, dir + name, o) == SetKeys(c, [k], name, o);
    var old_ := Entries(c)[k];
    var oo := if old_.options.None? then Stripped(old_) else old_;
    var m := c.options.value;
    var placed := oo.(options := Some(oo.options.value[name := o]));
    assert m[k := oo][k := placed] == m[k := placed];
  }

  // ---------------------------------------------------------------------------
  // Nested paths: what the top-level lookup does, and what was meant

  /** The option stored at the path `segs`, descending through nested `Options`. */
  function Lookup(c: Config, segs: seq<string>): Option<Config>
    decreases |segs|
  {
    if segs == [] then Some(c)
    else if segs[0] !in Entries(c) then None
    else Lookup(Entries(c)[segs[0]], segs[1..])
  }

  /**
   * `Set` with the key loop descending into each found option rather than
   * returning to the top level: the evident intent of the loop.
   */
  function SetPath(c: Config, keys: seq<string>, last: string, o: Config): (r: Config)
    decreases |keys|
  {
    if keys == [] then c.(options := Some(Entries(c)[last := o]))
    else if keys[0] !in Entries(c) then c
    else
      var child := Entries(c)[keys[0]];
      var child' := if child.options.None? then Stripped(child) else child;
      c.(options := Some(Entries(c)[keys[0] := SetPath(child', keys[1..], last, o)]))
  }

  /** Once every directory on the path exists, the descending `Set` stores `o` at the full path. */
  lemma {:induction false} SetPathReaches(c: Config, keys: seq<string>, last: string, o: Config)
    requires Lookup(c, keys).Some?
    ensures Lookup(SetPath(c, keys, last, o), keys + [last]) == Some(o)
    decreases |keys|
  {
    var r := SetPath(c, keys, last, o);
    if keys == [] {
      assert ([] + [last])[1..] == [];
    } else {
      var child := Entries(c)[keys[0]];
      var child' := if child.options.None? then Stripped(child) else child;
      assert Lookup(child', keys[1..]).Some? by {
        if keys[1..] != [] {
          assert Lookup(child, keys[1..]).Some?;
        }
      }
      SetPathReaches(child', keys[1..], last, o);
      assert (keys + [last])[1..] == keys[1..] + [last];
    }
  }

  /** For one directory level the key loop as written and the descending one agree. */
  lemma SetKeysOneLevelAgrees(c: Config, k: string, last: string, o: Config)
    ensures SetKeys(c, [k], last, o) == SetPath(c, [k], last, o)
  {
    if k in Entries(c) {
      var oo := c.options.value[k];
      var oo' := if oo.options.None? then Stripped(oo) else oo;
      var leaf := oo'.(options := Some(oo'.options.value[last := o]));
      assert SetPath(oo', [], last, o) == leaf;
      assert c.options.value[k := oo'][k := leaf] == c.options.value[k := leaf];
    }
  }

  /** How `Set` takes the path `a/b/x` apart. */
  lemma SplitExamplePath()
    ensures SplitLast("a/b/x") == ("a/b/", "x")
    ensures Split("a/b", Separator) == ["a", "b"]
  {
    SplitLastUnique("a/b/x", "a/b/", "x");
    SplitPrefix("a", "/b", Separator);
    SplitPrefix("b", "", Separator);
    assert "/b"[1..] == "b" && "b" + "" == "b";
    assert Split("/b", Separator) == ["", "b"];
    assert "a/b" == "a" + "/b" && "a" + "" == "a";
  }

  /**
   * As written, `Set("a/b/x", o)` on a configuration whose option `a` holds an
   * option `b` (and has no top-level `b`) changes nothing, while the
   * descending `Set` stores `o` at `a/b/x`.
   */
  lemma SetNestedIgnored(o: Config)
    ensures var leaf := Zero.(options := Some(map[]));
      var c := Zero.(options := Some(map["a" := Zero.(options := Some(map["b" := leaf]))]));
      && SetSpec(c, "a/b/x", o) == c
      && Lookup(SetSpec(c, "a/b/x", o), ["a", "b", "x"]) == None
      && Lookup(SetPath(c, ["a", "b"], "x", o), ["a", "b", "x"]) == Some(o)
  {
    var leaf := Zero.(options := Some(map[]));
    var c := Zero.(options := Some(map["a" := Zero.(options := Some(map["b" := leaf]))]));
    SplitExamplePath();
    assert "a/b/"[..3] == "a/b";
    assert ["a", "b"][1..] == ["b"];
    assert SetSpec(c, "a/b/x", o) == SetKeys(c, ["a", "b"], "x", o) == c;
    assert Lookup(c, ["a", "b"]) == Some(leaf);
    SetPathReaches(c, ["a", "b"], "x", o);
    assert ["a", "b"] + ["x"] == ["a", "b", "x"];
  }
}
