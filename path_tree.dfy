/**
 * The path tree of the Rust rewrite (`src/parser/node.rs`, `src/parser/tree.rs`,
 * `src/config.rs`).
 *
 * A `Node` is either a `Branch` mapping one path segment to a child, or a `Leaf`
 * carrying the resolved source path and link destination. `Insert` follows the
 * control flow of `Node::insert`: split the path into its first segment and the
 * rest, store a leaf for the last segment, and for an intermediate segment build
 * a brand-new branch, insert the rest into it and store it under the segment,
 * replacing whatever was there. Inserting into a leaf is an error (the Rust code
 * aborts). The leaf itself is computed as the tests of `tree.rs` require: its
 * target is the source directory, the parent path and the key; its link is an
 * (anchor, path) pair honouring the `link` and `base_dir` overrides.
 */
module PathTree {
  import opened Wrappers

  /** A path as its segments. */
  type Path = seq<string>

  /** The symbolic directory a link is created under. */
  datatype BaseDir = Config | Home

  /** `TargetConfig`: per-target overrides, each optional. */
  datatype TargetConfig = TargetConfig(link: Option<Path>, baseDir: Option<BaseDir>)

  /** The defaults passed to `Tree::with`: the source directory and the default anchor. */
  datatype NodeDefaults = NodeDefaults(srcDir: Path, baseDir: BaseDir)

  /** `NodeConfig`: the context threaded through `insert`. */
  datatype NodeConfig = NodeConfig(targetConfig: TargetConfig, defaults: NodeDefaults, parentPath: Path)

  /** Where a link is created: an anchor and a path relative to it. */
  datatype Link = Link(baseDir: BaseDir, path: Path)

  datatype Node = Branch(children: map<string, Node>) | Leaf(target: Path, link: Link)

  /** The condition `Node::insert` aborts on. */
  datatype InsertError = InsertIntoLeaf

  /** The leaf stored for the final segment `key`. */
  function NewLeaf(key: string, config: NodeConfig): Node
  {
    var tc := config.targetConfig;
    Leaf(config.defaults.srcDir + config.parentPath + [key],
         Link(tc.baseDir.GetOr(config.defaults.baseDir), config.parentPath + tc.link.GetOr([key])))
  }

  /** The context for the child under `key`: the parent path grows by `key`. */
  function Descend(config: NodeConfig, key: string): NodeConfig
  {
    config.(parentPath := config.parentPath + [key])
  }

  /** `Node::insert`. */
  function Insert(node: Node, path: Path, config: NodeConfig): (r: Result<Node, InsertError>)
    ensures r.Ok? <==> node.Branch?
    ensures r.Ok? ==> r.value.Branch?
    ensures r.Err? ==> r.error == InsertIntoLeaf
    decreases |path|
  {
    match node
    case Leaf(_, _) => Err(InsertIntoLeaf)
    case Branch(children) =>
      if path == [] then Ok(node)
      else
        var key, rest := path[0], path[1..];
        if rest == [] then Ok(Branch(children[key := NewLeaf(key, config)]))
        else
          var child := Insert(Branch(map[]), rest, Descend(config, key)).value;
          Ok(Branch(children[key := child]))
  }

  /** Follow `path` from `node`, one segment per branch. */
  function Lookup(node: Node, path: Path): Option<Node>
  {
    if path == [] then Some(node)
    else
      match node
      case Leaf(_, _) => None
      case Branch(children) =>
        if path[0] in children then Lookup(children[path[0]], path[1..]) else None
  }

  /** The leaf that inserting the non-empty `path` with `config` must produce. */
  function LeafFor(path: Path, config: NodeConfig): Node
    requires path != []
  {
    NewLeaf(path[|path| - 1], config.(parentPath := config.parentPath + path[..|path| - 1]))
  }

  /** A branch holding nothing but `leaf` at the end of `path`. */
  function Chain(path: Path, leaf: Node): Node
    requires path != []
  {
    if |path| == 1 then Branch(map[path[0] := leaf])
    else Branch(map[path[0] := Chain(path[1..], leaf)])
  }

  /** Inserting into a leaf is refused. */
  lemma InsertIntoLeafFails(target: Path, link: Link, path: Path, config: NodeConfig)
    ensures Insert(Leaf(target, link), path, config) == Err(InsertIntoLeaf)
  {
  }

  /** An empty path leaves a branch unchanged. */
  lemma InsertEmptyPath(children: map<string, Node>, config: NodeConfig)
    ensures Insert(Branch(children), [], config) == Ok(Branch(children))
  {
  }

  /** Inserting into a fresh branch builds a single chain ending in the resolved leaf. */
  lemma {:induction false} InsertIntoEmpty(path: Path, config: NodeConfig)
    requires path != []
    ensures Insert(Branch(map[]), path, config) == Ok(Chain(path, LeafFor(path, config)))
  {
    if |path| == 1 {
      assert path[..0] == [];
      assert config.(parentPath := config.parentPath + []) == config;
    } else {
      var rest := path[1..];
      InsertIntoEmpty(rest, Descend(config, path[0]));
      assert Descend(config, path[0]).parentPath + rest[..|rest| - 1] == config.parentPath + path[..|path| - 1];
      assert rest[|rest| - 1] == path[|path| - 1];
    }
  }

  /**
   * A one-segment path stores the resolved leaf under its key, replacing any
   * previous child there; a longer path stores under its first segment a new
   * branch holding only the inserted remainder, discarding the previous subtree.
   */
  lemma InsertStoresUnderFirstSegment(children: map<string, Node>, path: Path, config: NodeConfig)
    requires path != []
    ensures Insert(Branch(children), path, config).Ok?
    ensures var r := Insert(Branch(children), path, config).value;
      && r.children.Keys == children.Keys + {path[0]}
      && (|path| == 1 ==> r.children[path[0]] == LeafFor(path, config))
      && (|path| > 1 ==> r.children[path[0]] == Chain(path[1..], LeafFor(path, config)))
  {
    if |path| == 1 {
      assert path[..0] == [];
      assert config.(parentPath := config.parentPath + []) == config;
    } else {
      var rest := path[1..];
      InsertIntoEmpty(rest, Descend(config, path[0]));
      assert Descend(config, path[0]).parentPath + rest[..|rest| - 1] == config.parentPath + path[..|path| - 1];
      assert rest[|rest| - 1] == path[|path| - 1];
    }
  }

  /** Children under keys other than the first segment are untouched. */
  lemma InsertKeepsOtherChildren(children: map<string, Node>, path: Path, config: NodeConfig, k: string)
    requires path != [] && k != path[0] && k in children
    ensures var r := Insert(Branch(children), path, config);
      r.Ok? && k in r.value.children && r.value.children[k] == children[k]
  {
  }

  /** The only leaf reachable in a chain is the one at its end. */
  lemma {:induction false} ChainLeaves(path: Path, leaf: Node, q: Path)
    requires path != [] && leaf.Leaf?
    ensures Lookup(Chain(path, leaf), path) == Some(leaf)
    ensures Lookup(Chain(path, leaf), q).Some? && Lookup(Chain(path, leaf), q).value.Leaf? ==> q == path
  {
    if |path| > 1 {
      ChainLeaves(path[1..], leaf, path[1..]);
      if q != [] && q[0] == path[0] {
        ChainLeaves(path[1..], leaf, q[1..]);
        if Lookup(Chain(path, leaf), q).Some? && Lookup(Chain(path, leaf), q).value.Leaf? {
          assert q == [q[0]] + q[1..];
          assert path == [path[0]] + path[1..];
        }
      }
    } else {
      if q != [] && q[0] == path[0] && q[1..] != [] {
        assert Lookup(Chain(path, leaf), q) == Lookup(leaf, q[1..]) == None;
      }
      if q != [] && q[0] == path[0] && q[1..] == [] {
        assert q == path;
      }
    }
  }

  /**
   * After inserting a non-empty path into a branch, following the path ends at
   * the resolved leaf, and the node is still a branch.
   */
  lemma InsertThenLookup(children: map<string, Node>, path: Path, config: NodeConfig)
    requires path != []
    ensures var r := Insert(Branch(children), path, config);
      r.Ok? && r.value.Branch? && Lookup(r.value, path) == Some(LeafFor(path, config))
  {
    InsertStoresUnderFirstSegment(children, path, config);
    if |path| > 1 {
      ChainLeaves(path[1..], LeafFor(path, config), path[1..]);
    }
  }

  /**
   * Inserting a path of two or more segments discards every other leaf that was
   * reachable under its first segment: `foo/baz` after `foo/bar` loses `foo/bar`.
   */
  lemma InsertDiscardsSiblings(children: map<string, Node>, path: Path, q: Path, config: NodeConfig)
    requires |path| > 1 && q != [] && q[0] == path[0] && q != path
    ensures var r := Insert(Branch(children), path, config).value;
      Lookup(r, q).None? || !Lookup(r, q).value.Leaf?
  {
    InsertStoresUnderFirstSegment(children, path, config);
    ChainLeaves(path[1..], LeafFor(path, config), q[1..]);
    assert q == [q[0]] + q[1..] && path == [path[0]] + path[1..];
  }

  /** The leaf of a path: its target spells the whole path, and the overrides decide the link. */
  lemma LeafForFields(path: Path, config: NodeConfig)
    requires path != []
    ensures var leaf := LeafFor(path, config);
      && leaf.target == config.defaults.srcDir + config.parentPath + path
      && leaf.link.baseDir == config.targetConfig.baseDir.GetOr(config.defaults.baseDir)
      && leaf.link.path == config.parentPath + path[..|path| - 1] + config.targetConfig.link.GetOr([path[|path| - 1]])
  {
    assert path == path[..|path| - 1] + [path[|path| - 1]];
  }

  /** `Tree`: owns the root node, which is always a branch. */
  class Tree {
    var root: Node

    ghost predicate Valid()
      reads this
    {
      root.Branch?
    }

    /** `Tree::new`: an empty root branch. */
    constructor ()
      ensures Valid()
      ensures root == Branch(map[])
    {
      root := Branch(map[]);
    }

    /** `Tree::with`: insert `path` from an empty parent path and hand the tree back. */
    method With(path: Path, targetConfig: TargetConfig, defaults: NodeDefaults) returns (self: Tree)
      requires Valid()
      modifies this
      ensures self == this && Valid()
      ensures Ok(root) == Insert(old(root), path, NodeConfig(targetConfig, defaults, []))
      ensures path != [] ==> Lookup(root, path) == Some(LeafFor(path, NodeConfig(targetConfig, defaults, [])))
    {
      var config := NodeConfig(targetConfig, defaults, []);
      if path != [] {
        InsertThenLookup(root.children, path, config);
      }
      root := Insert(root, path, config).value;
      self := this;
    }
  }

  /** The defaults every test of `tree.rs` uses: source directory `src`, anchor `Config`. */
  function TestDefaults(): NodeDefaults
  {
    NodeDefaults(["src"], Config)
  }

  /** `inserts_single_item`: `foo` becomes a leaf with target `src/foo` and link (Config, `foo`). */
  lemma InsertsSingleItem()
    ensures Insert(Branch(map[]), ["foo"], NodeConfig(TargetConfig(None, None), TestDefaults(), []))
         == Ok(Branch(map["foo" := Leaf(["src", "foo"], Link(Config, ["foo"]))]))
  {
    assert ["src"] + [] + ["foo"] == ["src", "foo"];
    assert [] + ["foo"] == ["foo"];
  }

  /** `inserts_nested_item`: `foo/bar` gives branch `foo` holding leaf `bar`. */
  lemma InsertsNestedItem()
    ensures Insert(Branch(map[]), ["foo", "bar"], NodeConfig(TargetConfig(None, None), TestDefaults(), []))
         == Ok(Branch(map["foo" := Branch(map["bar" := Leaf(["src", "foo", "bar"], Link(Config, ["foo", "bar"]))])]))
  {
    assert ["foo", "bar"][1..] == ["bar"];
    assert ["src"] + ([] + ["foo"]) + ["bar"] == ["src", "foo", "bar"];
    assert ([] + ["foo"]) + ["bar"] == ["foo", "bar"];
  }

  /** `override_link`: a `link` override renames the link only. */
  lemma OverrideLink()
    ensures Insert(Branch(map[]), ["foo"], NodeConfig(TargetConfig(Some(["custom"]), None), TestDefaults(), []))
         == Ok(Branch(map["foo" := Leaf(["src", "foo"], Link(Config, ["custom"]))]))
  {
    assert ["src"] + [] + ["foo"] == ["src", "foo"];
    assert [] + ["custom"] == ["custom"];
  }

  /** `override_base_dir`: a `base_dir` override changes the anchor only. */
  lemma OverrideBaseDir()
    ensures Insert(Branch(map[]), ["foo"], NodeConfig(TargetConfig(None, Some(Home)), TestDefaults(), []))
         == Ok(Branch(map["foo" := Leaf(["src", "foo"], Link(Home, ["foo"]))]))
  {
    assert ["src"] + [] + ["foo"] == ["src", "foo"];
    assert [] + ["foo"] == ["foo"];
  }
}
