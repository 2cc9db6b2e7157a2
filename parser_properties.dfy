/**
 * What `parser/parser.go` promises about the tree it builds: which targets
 * become nodes and in which order, where each link points, what a child
 * inherits, and how the options are applied.
 */
module ParserProperties {
  import opened Wrappers
  import opened Strings
  import opened ParserFile
  import opened ParserTree
  import opened Parser

  /** The targets of `ts` whose tags let them through, in their order. */
  function Kept(tags: set<string>, c: Config, ts: seq<string>): (r: seq<string>)
    ensures |r| <= |ts|
  {
    if ts == [] then []
    else if Selected(tags, OptionsFor(c, ts[0])) then [ts[0]] + Kept(tags, c, ts[1..])
    else Kept(tags, c, ts[1..])
  }

  lemma {:induction false} KeptSameOptions(tags: set<string>, c: Config, c': Config, ts: seq<string>)
    requires c.options == c'.options
    ensures Kept(tags, c, ts) == Kept(tags, c', ts)
  {
    if ts != [] {
      KeptSameOptions(tags, c, c', ts[1..]);
    }
  }

  /** A target is kept exactly when it is listed and selected by its tags. */
  lemma {:induction false} KeptMembers(tags: set<string>, c: Config, ts: seq<string>)
    ensures forall x :: x in Kept(tags, c, ts) <==> x in ts && Selected(tags, OptionsFor(c, x))
  {
    if ts != [] {
      KeptMembers(tags, c, ts[1..]);
      assert ts == [ts[0]] + ts[1..];
    }
  }

  /** Filtering keeps the order: a sorted list stays sorted. */
  lemma {:induction false} KeptSorted(tags: set<string>, c: Config, ts: seq<string>)
    requires Sorted(ts)
    ensures Sorted(Kept(tags, c, ts))
  {
    if ts != [] {
      var rest := Kept(tags, c, ts[1..]);
      assert Sorted(ts[1..]) by {
        forall i, j | 0 <= i < j < |ts[1..]| ensures LessEq(ts[1..][i], ts[1..][j]) {
          assert ts[1..][i] == ts[i + 1] && ts[1..][j] == ts[j + 1];
        }
      }
      KeptSorted(tags, c, ts[1..]);
      if Selected(tags, OptionsFor(c, ts[0])) {
        KeptMembers(tags, c, ts[1..]);
        forall z | z in rest ensures LessEq(ts[0], z) {
          var k :| 0 <= k < |ts[1..]| && ts[1..][k] == z;
          assert ts[k + 1] == z;
        }
        SortedCons(ts[0], rest);
      }
    }
  }

  /** The node `parseChildren` builds for a kept target `tg`. */
  function ChildNode(s: Settings, env: Expander, c: Config, tg: string, ptargets: seq<string>, plinks: seq<string>): Node
  {
    Target(s, env, Inherit(s, env, c, OptionsFor(c, tg)), ptargets + [tg], plinks + [tg])
  }

  /** The loop of `parseChildren` builds one node per kept target, in order. */
  lemma {:induction false} ChildrenAreKeptTargets(s: Settings, env: Expander, c: Config, ts: seq<string>, i: nat, ptargets: seq<string>, plinks: seq<string>)
    requires i <= |ts|
    ensures var ch := Children(s, env, c, ts, i, ptargets, plinks);
      var names := Kept(s.tags, c, ts[i..]);
      && |ch| == |names|
      && forall k :: 0 <= k < |ch| ==> ch[k] == ChildNode(s, env, c, names[k], ptargets, plinks)
    decreases |ts| - i
  {
    if i < |ts| {
      ChildrenAreKeptTargets(s, env, c, ts, i + 1, ptargets, plinks);
      var rest := Children(s, env, c, ts, i + 1, ptargets, plinks);
      var names := Kept(s.tags, c, ts[i + 1..]);
      assert ts[i..][1..] == ts[i + 1..];
      assert ts[i..][0] == ts[i];
      ChildForSelected(s, env, c, ts[i], ptargets, plinks);
      if Selected(s.tags, OptionsFor(c, ts[i])) {
        assert Children(s, env, c, ts, i, ptargets, plinks) == [ChildNode(s, env, c, ts[i], ptargets, plinks)] + rest;
        assert Kept(s.tags, c, ts[i..]) == [ts[i]] + names;
      } else {
        assert Children(s, env, c, ts, i, ptargets, plinks) == rest;
        assert Kept(s.tags, c, ts[i..]) == names;
      }
    }
  }

  /** A target yields a child exactly when its tags select it, and the child is its node. */
  lemma ChildForSelected(s: Settings, env: Expander, c: Config, tg: string, ptargets: seq<string>, plinks: seq<string>)
    ensures ChildFor(s, env, c, tg, ptargets, plinks)
      == if Selected(s.tags, OptionsFor(c, tg)) then Some(ChildNode(s, env, c, tg, ptargets, plinks)) else None
  {
  }

  /** The names `parseChildren` gives its children: the expanded targets, sorted, filtered by tags. */
  function ChildNames(s: Settings, env: Expander, c: Config): seq<string>
  {
    Kept(s.tags, c, Sort(ExpandAll(s, env, c.targets)))
  }

  /** `parseChildren` names its children by the expanded targets, sorted, keeping those its tags select. */
  lemma ChildNamesSpec(s: Settings, env: Expander, c: Config)
    ensures Sorted(ChildNames(s, env, c))
    ensures forall x :: x in ChildNames(s, env, c) <==> x in ExpandAll(s, env, c.targets) && Selected(s.tags, OptionsFor(c, x))
  {
    var sorted := Sort(ExpandAll(s, env, c.targets));
    KeptSorted(s.tags, c, sorted);
    KeptMembers(s.tags, c, sorted);
    assert forall x :: x in sorted <==> x in ExpandAll(s, env, c.targets) by {
      assert forall x :: x in sorted <==> x in multiset(sorted);
      assert forall x :: x in ExpandAll(s, env, c.targets) <==> x in multiset(ExpandAll(s, env, c.targets));
    }
  }

  /** `parseChildren`: one child per name of `ChildNames`, in that order, each the node of that target. */
  lemma ChildrenOfSpec(s: Settings, env: Expander, c: Config, ptargets: seq<string>, plinks: seq<string>)
    ensures var ch := ChildrenOf(s, env, c, ptargets, plinks);
      var names := ChildNames(s, env, c);
      && |ch| == |names|
      && forall k :: 0 <= k < |ch| ==> ch[k] == ChildNode(s, env, c, names[k], ptargets, plinks)
  {
    var sorted := Sort(ExpandAll(s, env, c.targets));
    if |c.targets| > 0 {
      ChildrenAreKeptTargets(s, env, c, sorted, 0, ptargets, plinks);
      assert sorted[0..] == sorted;
    }
  }

  /** A target's link renames the last element and `flatten` then drops it; the rest is untouched. */
  lemma LinkPathRules(c: Config, links: seq<string>)
    requires |links| > 0
    ensures c.flatten ==> LinkPath(c, links) == links[..|links| - 1]
    ensures !c.flatten && c.link != "" ==> LinkPath(c, links) == links[..|links| - 1] + [c.link]
    ensures !c.flatten && c.link == "" ==> LinkPath(c, links) == links
    ensures |LinkPath(c, links)| == if c.flatten then |links| - 1 else |links|
  {
  }

  /** An explicit base directory wins; otherwise `useHome` picks the home or the user directory. */
  lemma BaseDirRules(s: Settings, c: Config)
    ensures c.baseDir != "" ==> ResolveBaseDir(s, c) == c.baseDir
    ensures c.baseDir == "" && c.useHome == Some(true) ==> ResolveBaseDir(s, c) == BaseDirFor(s, HomeMode)
    ensures c.baseDir == "" && c.useHome != Some(true) ==> ResolveBaseDir(s, c) == BaseDirFor(s, UserMode)
  {
  }

  /**
   * The `k`-th child of a target's node: its target path is the parent's plus
   * its name, its link path is the parent's link path plus its name, renamed
   * or flattened by its own options, and its base directory is its own or the
   * one the parent's link resolved to, falling back to the mode that its own or
   * the parent's `useHome` selects.
   */
  lemma ChildOfTarget(s: Settings, env: Expander, c: Config, targets: seq<string>, links: seq<string>, k: nat)
    requires |links| > 0
    requires k < |Target(s, env, c, targets, links).children|
    ensures k < |ChildNames(s, env, c)|
    ensures var n := Target(s, env, c, targets, links);
      var name := ChildNames(s, env, c)[k];
      var m := n.children[k];
      var own := OptionsFor(c, name);
      var base := ExpandVar(s, env, if own.baseDir != "" then own.baseDir else n.link.baseDir);
      var useHome := if own.useHome.Some? then own.useHome else c.useHome;
      && m.target == File(s.cwd, targets + [name])
      && m.link.path == LinkPath(own, n.link.path + [name])
      && m.link.baseDir == (if base != "" then base else BaseDirFor(s, ModeOf(useHome)))
      && m.status == Unset
  {
    var n := Target(s, env, c, targets, links);
    var lp := LinkPath(c, links);
    var c' := c.(baseDir := ResolveBaseDir(s, c));
    assert n.link == File(c'.baseDir, lp);
    assert n.children == ChildrenOf(s, env, c', targets, lp);
    ChildrenOfSpec(s, env, c', targets, lp);
    KeptSameOptions(s.tags, c, c', Sort(ExpandAll(s, env, c.targets)));
    var name := ChildNames(s, env, c)[k];
    var own := OptionsFor(c, name);
    assert OptionsFor(c', name) == own;
    var cc := Inherit(s, env, c', own);
    assert n.children[k] == Target(s, env, cc, targets + [name], lp + [name]);
    TargetFields(s, env, cc, targets + [name], lp + [name]);
  }

  /** The fields of the node `parseTarget` builds. */
  lemma TargetFields(s: Settings, env: Expander, c: Config, targets: seq<string>, links: seq<string>)
    requires |links| > 0
    ensures var n := Target(s, env, c, targets, links);
      && n.target == File(s.cwd, targets)
      && n.link == File(ResolveBaseDir(s, c), LinkPath(c, links))
      && n.status == Unset
  {
  }

  /** Every descendant's target path extends its parent's by one name, and its link path keeps the parent's as a prefix. */
  ghost predicate PathsExtend(n: Node)
  {
    forall m :: m in n.children ==>
      && |m.target.path| == |n.target.path| + 1
      && m.target.path[..|n.target.path|] == n.target.path
      && |n.link.path| <= |m.link.path|
      && m.link.path[..|n.link.path|] == n.link.path
      && PathsExtend(m)
  }

  lemma {:induction false} TargetPathsExtend(s: Settings, env: Expander, c: Config, targets: seq<string>, links: seq<string>)
    requires |links| > 0
    ensures PathsExtend(Target(s, env, c, targets, links))
    decreases OptionsDepth(c), if c.targets == [] then 0 else 3, 1
  {
    var n := Target(s, env, c, targets, links);
    var c' := c.(baseDir := ResolveBaseDir(s, c));
    SameOptionsSameDepth(c, c');
    ChildrenOfPathsExtend(s, env, c', targets, LinkPath(c, links));
  }

  lemma {:induction false} ChildrenOfPathsExtend(s: Settings, env: Expander, c: Config, ptargets: seq<string>, plinks: seq<string>)
    ensures forall m :: m in ChildrenOf(s, env, c, ptargets, plinks) ==>
      && |m.target.path| == |ptargets| + 1
      && m.target.path[..|ptargets|] == ptargets
      && |plinks| <= |m.link.path|
      && m.link.path[..|plinks|] == plinks
      && PathsExtend(m)
    decreases OptionsDepth(c), if c.targets == [] then 0 else 2, 0
  {
    if |c.targets| > 0 {
      ChildrenPathsExtend(s, env, c, Sort(ExpandAll(s, env, c.targets)), 0, ptargets, plinks);
    }
  }

  lemma {:induction false} ChildrenPathsExtend(s: Settings, env: Expander, c: Config, ts: seq<string>, i: nat, ptargets: seq<string>, plinks: seq<string>)
    requires i <= |ts|
    ensures forall m :: m in Children(s, env, c, ts, i, ptargets, plinks) ==>
      && |m.target.path| == |ptargets| + 1
      && m.target.path[..|ptargets|] == ptargets
      && |plinks| <= |m.link.path|
      && m.link.path[..|plinks|] == plinks
      && PathsExtend(m)
    decreases OptionsDepth(c), 1, |ts| - i + 1
  {
    if i < |ts| {
      ChildPathsExtend(s, env, c, ts[i], ptargets, plinks);
      ChildrenPathsExtend(s, env, c, ts, i + 1, ptargets, plinks);
    }
  }

  lemma {:induction false} ChildPathsExtend(s: Settings, env: Expander, c: Config, tg: string, ptargets: seq<string>, plinks: seq<string>)
    ensures forall m :: ChildFor(s, env, c, tg, ptargets, plinks) == Some(m) ==>
      && |m.target.path| == |ptargets| + 1
      && m.target.path[..|ptargets|] == ptargets
      && |plinks| <= |m.link.path|
      && m.link.path[..|plinks|] == plinks
      && PathsExtend(m)
    decreases OptionsDepth(c), 1, 0
  {
    var cc := OptionsFor(c, tg);
    if Selected(s.tags, cc) {
      var cc' := Inherit(s, env, c, cc);
      OptionsForDepth(c, tg);
      SameOptionsSameDepth(cc, cc');
      TargetPathsExtend(s, env, cc', ptargets + [tg], plinks + [tg]);
      var m := Target(s, env, cc', ptargets + [tg], plinks + [tg]);
      assert (ptargets + [tg])[|ptargets|] == tg;
      var lp := LinkPath(cc', plinks + [tg]);
      assert lp[..|plinks|] == plinks by {
        assert (plinks + [tg])[..|plinks|] == plinks;
      }
    }
  }

  /** The whole tree: every node's paths extend its parent's. */
  lemma ParsedPathsExtend(s: Settings, env: Expander, c: Config)
    ensures PathsExtend(ParseWith(s, env, c).root)
  {
    ChildrenOfPathsExtend(s, env, c, [], []);
  }

  /**
   * `Parse` stops at the first failing option: every earlier option
   * succeeded, and the settings and the error are the ones the failing option
   * returned, on the settings the earlier ones left. Without an error every
   * option succeeded.
   */
  lemma OptionsStopAtFirstError(s: Settings, opts: seq<ParseOption>)
    ensures var (s', err) := ApplyOptions(s, opts);
      && (err.None? ==> forall k :: 0 <= k < |opts| ==> opts[k](ApplyOptions(s, opts[..k]).0).1.None?)
      && (err.Some? ==>
            exists k :: 0 <= k < |opts| && ApplyOptions(s, opts[..k]).1.None?
              && opts[k](ApplyOptions(s, opts[..k]).0) == (s', err))
  {
    OptionsAllSucceeded(s, opts);
    OptionsFirstError(s, opts);
  }

  /** Without an error, every option succeeded on the settings the earlier ones left. */
  lemma {:induction false} OptionsAllSucceeded(s: Settings, opts: seq<ParseOption>)
    ensures ApplyOptions(s, opts).1.None? ==>
      forall k :: 0 <= k < |opts| ==> opts[k](ApplyOptions(s, opts[..k]).0).1.None?
    decreases |opts|
  {
    if opts != [] && ApplyOptions(s, opts).1.None? {
      var init := opts[..|opts| - 1];
      OptionsAllSucceeded(s, init);
      assert ApplyOptions(s, init).1.None?;
      assert opts[..|init|] == init;
      forall k | 0 <= k < |opts| ensures opts[k](ApplyOptions(s, opts[..k]).0).1.None? {
        if k < |init| {
          assert init[..k] == opts[..k] && init[k] == opts[k];
        }
      }
    }
  }

  /** With an error, some option failed, on the settings the ones before it left without error. */
  lemma {:induction false} OptionsFirstError(s: Settings, opts: seq<ParseOption>)
    ensures var (s', err) := ApplyOptions(s, opts);
      err.Some? ==>
        exists k :: 0 <= k < |opts| && ApplyOptions(s, opts[..k]).1.None?
          && opts[k](ApplyOptions(s, opts[..k]).0) == (s', err)
    decreases |opts|
  {
    var (s', err) := ApplyOptions(s, opts);
    if opts != [] && err.Some? {
      var init := opts[..|opts| - 1];
      var (s0, err0) := ApplyOptions(s, init);
      if err0.Some? {
        OptionsFirstError(s, init);
        assert (s', err) == (s0, err0);
        var k :| 0 <= k < |init| && ApplyOptions(s, init[..k]).1.None?
          && init[k](ApplyOptions(s, init[..k]).0) == (s0, err0);
        assert init[..k] == opts[..k] && init[k] == opts[k];
      } else {
        var k0 := |init|;
        assert opts[..k0] == init;
        assert opts[k0](ApplyOptions(s, opts[..k0]).0) == (s', err);
      }
    }
  }

  /** The options this package offers never fail, and each sets its own field. */
  lemma SetterOptions(s: Settings, dirname: string, dirs: map<Mode, string>, tags: set<string>)
    ensures ApplyOptions(s, [Cwd(dirname), BaseDirs(dirs), Envsubst(), Tags(tags)])
      == (Settings(dirname, dirs, true, tags), None)
  {
    var opts := [Cwd(dirname), BaseDirs(dirs), Envsubst(), Tags(tags)];
    assert opts[..0] == [];
    assert opts[..1][..0] == [];
    assert ApplyOptions(s, opts[..1]) == (s.(cwd := dirname), None);
    assert opts[..2][..1] == opts[..1];
    assert ApplyOptions(s, opts[..2]) == (s.(cwd := dirname, baseDirs := dirs), None);
    assert opts[..3][..2] == opts[..2];
    assert ApplyOptions(s, opts[..3]) == (s.(cwd := dirname, baseDirs := dirs, envsubst := true), None);
    assert opts[..3] == opts[..|opts| - 1];
  }

  /** The zero-value parser. */
  const ZeroSettings := Settings("", map[], false, {})

  /** The identity stands in for the environment where `Envsubst` is off. */
  function NoEnv(): Expander
  {
    x => x
  }

  lemma SortFooBar()
    ensures Sort(["foo", "bar"]) == ["bar", "foo"]
  {
    assert ["foo", "bar"][1..] == ["bar"];
    assert ["bar"][1..] == [];
    assert Less("bar", "foo");
    assert !LessEq("foo", "bar");
  }

  /** A target without options and no targets of its own becomes a leaf under the inherited base directory. */
  lemma PlainChild(s: Settings, env: Expander, c: Config, name: string, ptargets: seq<string>, plinks: seq<string>)
    requires name !in c.options
    ensures ChildNode(s, env, c, name, ptargets, plinks)
      == Node(File(s.cwd, ptargets + [name]), File(ResolveBaseDir(s, Inherit(s, env, c, DefaultConfig)), plinks + [name]), [], Unset)
  {
    var cc := Inherit(s, env, c, DefaultConfig);
    assert OptionsFor(c, name) == DefaultConfig;
    assert cc.targets == [] && !cc.flatten && cc.link == "";
    assert ChildrenOf(s, env, cc.(baseDir := ResolveBaseDir(s, cc)), ptargets + [name], plinks + [name]) == [];
    TargetFields(s, env, cc, ptargets + [name], plinks + [name]);
  }

  /** Expanding nothing and sorting "foo", "bar" gives "bar", "foo". */
  lemma SortedFooBarTargets(s: Settings)
    requires !s.envsubst
    ensures Sort(ExpandAll(s, NoEnv(), ["foo", "bar"])) == ["bar", "foo"]
  {
    assert ExpandAll(s, NoEnv(), ["foo", "bar"]) == ["foo", "bar"];
    SortFooBar();
  }

  lemma TwoTargetNames(c: Config)
    requires c.targets == ["foo", "bar"] && c.options == map[]
    ensures ChildNames(ZeroSettings, NoEnv(), c) == ["bar", "foo"]
  {
    SortedFooBarTargets(ZeroSettings);
    assert OptionsFor(c, "bar") == DefaultConfig && OptionsFor(c, "foo") == DefaultConfig;
    assert ["bar", "foo"][1..] == ["foo"];
    assert ["foo"][1..] == [];
    assert Kept(ZeroSettings.tags, c, ["foo"]) == ["foo"];
  }

  /** Targets come out sorted: "foo" and "bar" become "bar" then "foo", both linked under the base directory. */
  lemma ParsesTwoTargetsSorted()
    ensures var c := Config("test", "", false, [], ["foo", "bar"], map[], None);
      ParseWith(ZeroSettings, NoEnv(), c).root.children == [
        Node(File("", ["bar"]), File("test", ["bar"]), [], Unset),
        Node(File("", ["foo"]), File("test", ["foo"]), [], Unset)]
  {
    TwoTargetChildren(Config("test", "", false, [], ["foo", "bar"], map[], None));
  }

  /** The children of a configuration with base directory `test` and the plain targets "foo", "bar". */
  lemma TwoTargetChildren(c: Config)
    requires c.baseDir == "test" && c.targets == ["foo", "bar"] && c.options == map[]
    ensures ChildrenOf(ZeroSettings, NoEnv(), c, [], []) == [
        Node(File("", ["bar"]), File("test", ["bar"]), [], Unset),
        Node(File("", ["foo"]), File("test", ["foo"]), [], Unset)]
  {
    var ch := ChildrenOf(ZeroSettings, NoEnv(), c, [], []);
    TwoTargetNames(c);
    ChildrenOfSpec(ZeroSettings, NoEnv(), c, [], []);
    TopLevelChild(c, "bar");
    TopLevelChild(c, "foo");
    assert ch == [ch[0], ch[1]];
  }

  /** A top-level target without options, under a configuration with base directory `test`, is linked there. */
  lemma TopLevelChild(c: Config, name: string)
    requires c.baseDir == "test" && c.options == map[]
    ensures ChildNode(ZeroSettings, NoEnv(), c, name, [], []) == Node(File("", [name]), File("test", [name]), [], Unset)
  {
    PlainChild(ZeroSettings, NoEnv(), c, name, [], []);
    assert ResolveBaseDir(ZeroSettings, Inherit(ZeroSettings, NoEnv(), c, DefaultConfig)) == "test";
    var none: seq<string> := [];
    assert none + [name] == [name];
  }

  /** The configuration of the tag tests: targets "foo" and "bar", "bar" with the given tags. */
  function TaggedConfig(barTags: seq<string>): Config
  {
    var bar := Config("", "", false, barTags, [], map[], None);
    Config("test", "", false, [], ["foo", "bar"], map["bar" := bar], None)
  }

  /** With no tags selected, a target with tags is dropped: only "foo" is parsed. */
  lemma UntaggedParseDropsTagged(barTags: seq<string>)
    requires |barTags| > 0
    ensures ChildNames(ZeroSettings, NoEnv(), TaggedConfig(barTags)) == ["foo"]
  {
    var c := TaggedConfig(barTags);
    SortedFooBarTargets(ZeroSettings);
    assert "foo"[0] != "bar"[0];
    assert OptionsFor(c, "foo") == DefaultConfig;
    assert !Selected(ZeroSettings.tags, OptionsFor(c, "bar"));
    assert ["bar", "foo"][1..] == ["foo"];
    assert ["foo"][1..] == [];
    assert Kept(ZeroSettings.tags, c, ["foo"]) == ["foo"];
    assert Kept(ZeroSettings.tags, c, ["bar", "foo"]) == ["foo"];
  }

  /** Selecting any one of a target's tags keeps it, sorted before "foo". */
  lemma TaggedParseKeepsTagged(barTags: seq<string>, tag: string)
    requires tag in barTags
    ensures ChildNames(ZeroSettings.(tags := {tag}), NoEnv(), TaggedConfig(barTags)) == ["bar", "foo"]
  {
    var c := TaggedConfig(barTags);
    var s := ZeroSettings.(tags := {tag});
    SortedFooBarTargets(s);
    assert "foo"[0] != "bar"[0];
    assert OptionsFor(c, "foo") == DefaultConfig;
    var bar := OptionsFor(c, "bar");
    var k :| 0 <= k < |barTags| && barTags[k] == tag;
    assert bar.tags[k] in s.tags;
    assert Selected(s.tags, bar);
    assert ["bar", "foo"][1..] == ["foo"];
    assert ["foo"][1..] == [];
    assert Kept(s.tags, c, ["foo"]) == ["foo"];
    assert Kept(s.tags, c, ["bar", "foo"]) == ["bar", "foo"];
  }
}
