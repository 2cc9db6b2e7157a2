/**
 * `parser/parser.go`: turning a configuration into a tree of target/link
 * pairs. The configuration here has the shape `parser.go` reads (a plain
 * `Link` string, `Flatten`, `Tags`), which is the configuration its tests
 * build.
 */
module Parser {
  import opened Wrappers
  import opened Strings
  import opened ParserFile
  import opened ParserTree

  /** `Mode`: which base directory a link lives under. */
  datatype Mode = UserMode | HomeMode

  /** A configuration entry as the parser reads it; `useHome` is a `*bool`. */
  datatype Config = Config(
    baseDir: string,
    link: string,
    flatten: bool,
    tags: seq<string>,
    targets: seq<string>,
    options: map<string, Config>,
    useHome: Option<bool>)

  /** `new(config.Config)`: the configuration used for a target without options. */
  const DefaultConfig: Config := Config("", "", false, [], [], map[], None)

  /** The fields of `Parser`. A missing `baseDirs` entry reads as the empty string. */
  datatype Settings = Settings(
    cwd: string,
    baseDirs: map<Mode, string>,
    envsubst: bool,
    tags: set<string>)

  /** `os.ExpandEnv` under the process environment, which is not modelled. */
  type Expander = string -> string

  /**
   * `ParseOption`: a function that changes a parser and may fail. It returns
   * the settings as it left them, together with its error; what it wrote before
   * failing is kept, as Go's option writes through the `*Parser` it is given.
   */
  type ParseOption = Settings -> (Settings, Option<string>)

  /** `BaseDirs(dirs)`. */
  function BaseDirs(dirs: map<Mode, string>): ParseOption
  {
    (s: Settings) => (s.(baseDirs := dirs), None)
  }

  /** `Cwd(dirname)`. */
  function Cwd(dirname: string): ParseOption
  {
    (s: Settings) => (s.(cwd := dirname), None)
  }

  /** `Envsubst`. */
  function Envsubst(): ParseOption
  {
    (s: Settings) => (s.(envsubst := true), None)
  }

  /** `Tags(tags)`. */
  function Tags(tags: set<string>): ParseOption
  {
    (s: Settings) => (s.(tags := tags), None)
  }

  /**
   * The options applied in order. The result is the settings reached and the
   * first error; after an error the settings are those the failing option left.
   */
  function ApplyOptions(s: Settings, opts: seq<ParseOption>): (Settings, Option<string>)
    decreases |opts|
  {
    if opts == [] then (s, None)
    else
      var last := opts[|opts| - 1];
      var (s', err) := ApplyOptions(s, opts[..|opts| - 1]);
      if err.Some? then (s', err) else last(s')
  }

  /** `expandVar`. */
  function ExpandVar(s: Settings, env: Expander, x: string): string
  {
    if s.envsubst then env(x) else x
  }

  /** The targets with `expandVar` applied to each. */
  function ExpandAll(s: Settings, env: Expander, ts: seq<string>): (r: seq<string>)
    ensures |r| == |ts|
    ensures forall i :: 0 <= i < |ts| ==> r[i] == ExpandVar(s, env, ts[i])
  {
    if ts == [] then [] else [ExpandVar(s, env, ts[0])] + ExpandAll(s, env, ts[1..])
  }

  /** The options of target `tg`, or the default configuration. */
  function OptionsFor(c: Config, tg: string): Config
  {
    if tg in c.options then c.options[tg] else DefaultConfig
  }

  predicate AnyTagSelected(ts: seq<string>, tags: set<string>)
  {
    exists i :: 0 <= i < |ts| && ts[i] in tags
  }

  /** A target is kept when it has no tags, or when one of its tags is selected. */
  predicate Selected(tags: set<string>, cc: Config)
  {
    |cc.tags| == 0 || (|tags| > 0 && AnyTagSelected(cc.tags, tags))
  }

  /** The child configuration after `useHome` and `baseDir` are inherited and the base expanded. */
  function Inherit(s: Settings, env: Expander, c: Config, cc: Config): Config
  {
    var useHome := if cc.useHome.None? then c.useHome else cc.useHome;
    var baseDir := if cc.baseDir == "" then c.baseDir else cc.baseDir;
    cc.(useHome := useHome, baseDir := ExpandVar(s, env, baseDir))
  }

  function ModeOf(useHome: Option<bool>): Mode
  {
    if useHome == Some(true) then HomeMode else UserMode
  }

  /** `p.baseDirs[mode]`, with a missing entry read as "". */
  function BaseDirFor(s: Settings, mode: Mode): string
  {
    if mode in s.baseDirs then s.baseDirs[mode] else ""
  }

  /** The base directory of a target's link: its own, or the one its mode selects. */
  function ResolveBaseDir(s: Settings, c: Config): string
  {
    if c.baseDir == "" then BaseDirFor(s, ModeOf(c.useHome)) else c.baseDir
  }

  /** The link path: the last element renamed by `link`, then dropped by `flatten`. */
  function LinkPath(c: Config, links: seq<string>): seq<string>
    requires |links| > 0
  {
    var renamed := if c.link != "" then links[..|links| - 1] + [c.link] else links;
    if c.flatten then renamed[..|renamed| - 1] else renamed
  }

  /** How deeply `options` nest: zero when there are none. Only used to show termination. */
  ghost function OptionsDepth(c: Config): nat
    decreases c, |c.options.Keys| + 1
  {
    DepthOver(c, c.options.Keys)
  }

  ghost function DepthOver(c: Config, keys: set<string>): nat
    requires keys <= c.options.Keys
    decreases c, |keys|
  {
    if keys == {} then 0
    else
      var k :| k in keys;
      var here := 1 + OptionsDepth(c.options[k]);
      var rest := DepthOver(c, keys - {k});
      if here < rest then rest else here
  }

  lemma {:induction false} DepthOverBound(c: Config, keys: set<string>, k: string)
    requires keys <= c.options.Keys
    requires k in keys
    ensures OptionsDepth(c.options[k]) < DepthOver(c, keys)
    decreases |keys|
  {
    var k' :| k' in keys && DepthOver(c, keys) == (
      var here := 1 + OptionsDepth(c.options[k']);
      var rest := DepthOver(c, keys - {k'});
      if here < rest then rest else here);
    if k != k' {
      DepthOverBound(c, keys - {k'}, k);
    }
  }

  lemma {:induction false} DepthOverAttained(c: Config, keys: set<string>)
    requires keys <= c.options.Keys
    requires keys != {}
    ensures exists k :: k in keys && DepthOver(c, keys) == 1 + OptionsDepth(c.options[k])
    decreases |keys|
  {
    var k' :| k' in keys && DepthOver(c, keys) == (
      var here := 1 + OptionsDepth(c.options[k']);
      var rest := DepthOver(c, keys - {k'});
      if here < rest then rest else here);
    if keys - {k'} != {} {
      DepthOverAttained(c, keys - {k'});
    }
  }

  /** The depth depends on `options` alone. */
  lemma SameOptionsSameDepth(c: Config, c': Config)
    requires c.options == c'.options
    ensures OptionsDepth(c) == OptionsDepth(c')
  {
    var keys := c.options.Keys;
    if keys != {} {
      DepthOverAttained(c, keys);
      DepthOverAttained(c', keys);
      var k :| k in keys && OptionsDepth(c) == 1 + OptionsDepth(c.options[k]);
      var k' :| k' in keys && OptionsDepth(c') == 1 + OptionsDepth(c'.options[k']);
      DepthOverBound(c, keys, k');
      DepthOverBound(c', keys, k);
    }
  }

  /** A target's options nest less deeply than its parent's. */
  lemma OptionsForDepth(c: Config, tg: string)
    ensures OptionsDepth(OptionsFor(c, tg)) <= OptionsDepth(c)
    ensures tg in c.options ==> OptionsDepth(OptionsFor(c, tg)) < OptionsDepth(c)
    ensures tg !in c.options ==> OptionsFor(c, tg).targets == []
  {
    if tg in c.options {
      DepthOverBound(c, c.options.Keys, tg);
    } else {
      assert OptionsFor(c, tg).options.Keys == {};
    }
  }

  /** `parseChildren`: the children for the targets of `c`, in sorted order. */
  function ChildrenOf(s: Settings, env: Expander, c: Config, ptargets: seq<string>, plinks: seq<string>): seq<Node>
    decreases OptionsDepth(c), if c.targets == [] then 0 else 2, 0
  {
    if |c.targets| == 0 then []
    else Children(s, env, c, Sort(ExpandAll(s, env, c.targets)), 0, ptargets, plinks)
  }

  /** The loop of `parseChildren`, from the `i`-th sorted target on. */
  function Children(s: Settings, env: Expander, c: Config, ts: seq<string>, i: nat, ptargets: seq<string>, plinks: seq<string>): seq<Node>
    requires i <= |ts|
    decreases OptionsDepth(c), 1, |ts| - i + 1
  {
    if i == |ts| then []
    else
      match ChildFor(s, env, c, ts[i], ptargets, plinks)
      case None => Children(s, env, c, ts, i + 1, ptargets, plinks)
      case Some(child) => [child] + Children(s, env, c, ts, i + 1, ptargets, plinks)
  }

  /** One round of the `parseChildren` loop adds the child for the `i`-th target, if any. */
  lemma ChildrenStep(s: Settings, env: Expander, c: Config, ts: seq<string>, i: nat, ptargets: seq<string>, plinks: seq<string>,
                     done: seq<Node>, child: Option<Node>)
    requires i < |ts|
    requires child == ChildFor(s, env, c, ts[i], ptargets, plinks)
    ensures child.Some? ==>
      (done + [child.value]) + Children(s, env, c, ts, i + 1, ptargets, plinks) == done + Children(s, env, c, ts, i, ptargets, plinks)
    ensures child.None? ==>
      done + Children(s, env, c, ts, i + 1, ptargets, plinks) == done + Children(s, env, c, ts, i, ptargets, plinks)
  {
    var rest := Children(s, env, c, ts, i + 1, ptargets, plinks);
    if child.Some? {
      assert (done + [child.value]) + rest == done + ([child.value] + rest);
    }
  }

  /** After the last round nothing is left to add. */
  lemma ChildrenDone(s: Settings, env: Expander, c: Config, ts: seq<string>, ptargets: seq<string>, plinks: seq<string>,
                     done: seq<Node>)
    ensures done + Children(s, env, c, ts, |ts|, ptargets, plinks) == done
  {
    assert done + [] == done;
  }

  /**
   * One pass of the `parseChildren` loop: the node for target `tg`, or nothing
   * when its tags rule it out.
   */
  function ChildFor(s: Settings, env: Expander, c: Config, tg: string, ptargets: seq<string>, plinks: seq<string>): Option<Node>
    decreases OptionsDepth(c), 1, 0
  {
    var cc := OptionsFor(c, tg);
    OptionsForDepth(c, tg);
    SameOptionsSameDepth(cc, Inherit(s, env, c, cc));
    if !Selected(s.tags, cc) then None
    else Some(Target(s, env, Inherit(s, env, c, cc), ptargets + [tg], plinks + [tg]))
  }

  /** `parseTarget`: the node for one target and, below it, its own targets. */
  function Target(s: Settings, env: Expander, c: Config, targets: seq<string>, links: seq<string>): Node
    requires |links| > 0
    decreases OptionsDepth(c), if c.targets == [] then 0 else 3, 1
  {
    var linkPath := LinkPath(c, links);
    var baseDir := ResolveBaseDir(s, c);
    SameOptionsSameDepth(c, c.(baseDir := baseDir));
    Node(File(s.cwd, targets), File(baseDir, linkPath),
      ChildrenOf(s, env, c.(baseDir := baseDir), targets, linkPath), Unset)
  }

  /** `Parse` after its options were applied. */
  function ParseWith(s: Settings, env: Expander, c: Config): Tree
  {
    Tree(Node(File("", []), File("", []), ChildrenOf(s, env, c, [], []), Unset))
  }

  /** `Parser`: the settings the options write and the parse methods read. */
  class ConfigParser {
    var cwd: string
    var baseDirs: map<Mode, string>
    var envsubst: bool
    var tags: set<string>

    function Current(): Settings
      reads this
    {
      Settings(cwd, baseDirs, envsubst, tags)
    }

    /** The zero value `var p parser.Parser`. */
    constructor ()
      ensures Current() == Settings("", map[], false, {})
    {
      cwd := "";
      baseDirs := map[];
      envsubst := false;
      tags := {};
    }

    /** `Parse`: apply the options in order, stopping at the first error, then parse. */
    method Parse(c: Config, env: Expander, opts: seq<ParseOption>) returns (tr: Option<Tree>, err: Option<string>)
      modifies this
      ensures Current() == ApplyOptions(old(Current()), opts).0
      ensures err == ApplyOptions(old(Current()), opts).1
      ensures err.Some? ==> tr == None
      ensures err.None? ==> tr == Some(ParseWith(Current(), env, c))
    {
      ghost var start := Current();
      var i := 0;
      while i < |opts|
        invariant 0 <= i <= |opts|
        invariant ApplyOptions(start, opts[..i]) == (Current(), None)
      {
        assert opts[..i + 1][..i] == opts[..i];
        var (s', e) := opts[i](Current());
        cwd, baseDirs, envsubst, tags := s'.cwd, s'.baseDirs, s'.envsubst, s'.tags;
        if e.Some? {
          err := e;
          tr := None;
          ApplyOptionsAfterError(start, opts, i + 1);
          return;
        }
        i := i + 1;
      }
      assert opts[..i] == opts;
      var children := ParseChildren(c, env, [], []);
      tr := Some(Tree(Node(File("", []), File("", []), children, Unset)));
      err := None;
    }

    /** `parseChildren`. */
    method ParseChildren(c: Config, env: Expander, ptargets: seq<string>, plinks: seq<string>) returns (children: seq<Node>)
      ensures children == ChildrenOf(Current(), env, c, ptargets, plinks)
      decreases OptionsDepth(c), if c.targets == [] then 0 else 2, 0
    {
      children := [];
      if |c.targets| > 0 {
        var targets := ExpandTargets(c.targets, env);
        targets := Sort(targets);
        children := ParseSorted(c, env, targets, ptargets, plinks);
      }
    }

    /** The second loop of `parseChildren`, over the sorted targets. */
    method ParseSorted(c: Config, env: Expander, targets: seq<string>, ptargets: seq<string>, plinks: seq<string>) returns (children: seq<Node>)
      ensures children == Children(Current(), env, c, targets, 0, ptargets, plinks)
      decreases OptionsDepth(c), 1, 1
    {
      children := [];
      ghost var s := Current();
      for i := 0 to |targets|
        invariant s == Current()
        invariant children + Children(s, env, c, targets, i, ptargets, plinks) == Children(s, env, c, targets, 0, ptargets, plinks)
      {
        var child := ParseChild(c, env, targets[i], ptargets, plinks);
        ChildrenStep(s, env, c, targets, i, ptargets, plinks, children, child);
        if child.Some? {
          children := children + [child.value];
        }
      }
      ChildrenDone(s, env, c, targets, ptargets, plinks, children);
    }

    /** The body of the `parseChildren` loop for target `tg`. */
    method ParseChild(c: Config, env: Expander, tg: string, ptargets: seq<string>, plinks: seq<string>) returns (child: Option<Node>)
      ensures child == ChildFor(Current(), env, c, tg, ptargets, plinks)
      decreases OptionsDepth(c), 1, 0
    {
      var cc := if tg in c.options then c.options[tg] else DefaultConfig;
      var keep := ShouldInclude(cc);
      if !keep {
        return None;
      }
      if cc.useHome.None? {
        cc := cc.(useHome := c.useHome);
      }
      if cc.baseDir == "" {
        cc := cc.(baseDir := c.baseDir);
      }
      cc := cc.(baseDir := ExpandVar(Current(), env, cc.baseDir));
      assert cc == Inherit(Current(), env, c, OptionsFor(c, tg));
      OptionsForDepth(c, tg);
      SameOptionsSameDepth(cc, OptionsFor(c, tg));
      var n := ParseTarget(cc, env, ptargets + [tg], plinks + [tg]);
      child := Some(n);
    }

    /** The first loop of `parseChildren`: `expandVar` on every target. */
    method ExpandTargets(ts: seq<string>, env: Expander) returns (targets: seq<string>)
      ensures targets == ExpandAll(Current(), env, ts)
    {
      targets := ts;
      for i := 0 to |targets|
        invariant |targets| == |ts|
        invariant forall k :: 0 <= k < i ==> targets[k] == ExpandVar(Current(), env, ts[k])
        invariant forall k :: i <= k < |ts| ==> targets[k] == ts[k]
      {
        targets := targets[i := ExpandVar(Current(), env, targets[i])];
      }
      assert targets == ExpandAll(Current(), env, ts);
    }

    /** The tag filter of `parseChildren`: a tagged target needs one of its tags selected. */
    method ShouldInclude(cc: Config) returns (keep: bool)
      ensures keep == Selected(Current().tags, cc)
    {
      if |cc.tags| == 0 {
        return true;
      }
      if |tags| == 0 {
        return false;
      }
      keep := false;
      for j := 0 to |cc.tags|
        invariant !keep ==> forall k :: 0 <= k < j ==> cc.tags[k] !in tags
        invariant keep ==> AnyTagSelected(cc.tags, tags)
      {
        if cc.tags[j] in tags {
          keep := true;
          break;
        }
      }
    }

    /** `parseTarget`. */
    method ParseTarget(c: Config, env: Expander, targets: seq<string>, links: seq<string>) returns (n: Node)
      requires |links| > 0
      ensures n == Target(Current(), env, c, targets, links)
      decreases OptionsDepth(c), if c.targets == [] then 0 else 3, 1
    {
      var lnlen := |links|;
      var links' := links;
      if c.link != "" {
        links' := links'[lnlen - 1 := c.link];
      }
      if c.flatten {
        links' := links'[..lnlen - 1];
      }
      assert links' == LinkPath(c, links);
      var c' := c;
      if c.baseDir == "" {
        var mode := UserMode;
        if c.useHome.Some? && c.useHome.value {
          mode := HomeMode;
        }
        c' := c.(baseDir := if mode in baseDirs then baseDirs[mode] else "");
      }
      SameOptionsSameDepth(c, c');
      var children := ParseChildren(c', env, targets, links');
      n := Node(File(cwd, targets), File(c'.baseDir, links'), children, Unset);
    }
  }

  lemma {:induction false} ApplyOptionsAfterError(s: Settings, opts: seq<ParseOption>, k: nat)
    requires 0 < k <= |opts|
    requires ApplyOptions(s, opts[..k]).1.Some?
    ensures ApplyOptions(s, opts) == ApplyOptions(s, opts[..k])
    decreases |opts|
  {
    if k < |opts| {
      assert opts[..|opts| - 1][..k] == opts[..k];
      ApplyOptionsAfterError(s, opts[..|opts| - 1], k);
    } else {
      assert opts[..k] == opts;
    }
  }
}
