/**
 * `parser/node.go`, `parser/status.go` and `parser/tree.go`: the parsed tree
 * and its depth-first walk.
 */
module ParserTree {
  import opened Wrappers
  import opened ParserFile

  /**
   * A node's status. `parser/status.go` defines only `StatusReady` (starting
   * from one, so zero means unset); `linker/linker.go` also uses `StatusSkip`.
   */
  datatype Status = Unset | Ready | Skip

  /** `Node`: where a target lives, where its link goes, its children and its status. */
  datatype Node = Node(target: File, link: File, children: seq<Node>, status: Status)

  /** `Tree`: the root node, which carries no file of its own. */
  datatype Tree = Tree(root: Node)

  /** Every node of a forest in pre-order: a node, then its children's subtrees, in slice order. */
  function PreOrder(nodes: seq<Node>): seq<Node>
  {
    if nodes == [] then []
    else [nodes[0]] + PreOrder(nodes[0].children) + PreOrder(nodes[1..])
  }

  /** The number of nodes of a forest. */
  function Size(nodes: seq<Node>): nat
  {
    if nodes == [] then 0
    else 1 + Size(nodes[0].children) + Size(nodes[1..])
  }

  /** The height of a forest: zero when empty. */
  function Height(nodes: seq<Node>): nat
  {
    if nodes == [] then 0
    else
      var h0 := 1 + Height(nodes[0].children);
      var h1 := Height(nodes[1..]);
      if h0 < h1 then h1 else h0
  }

  /**
   * A callback of `Walk`: Go's `func(*Node) error` receives the node by pointer,
   * so it returns the node as it left it together with its error.
   */
  type Callback<E> = Node -> (Node, Option<E>)

  /**
   * The callbacks the walk is modelled for: they may change a node's files and
   * status but keep its children (as `linker.Resolve` does).
   */
  ghost predicate KeepsChildren<E>(fn: Callback<E>)
  {
    forall m :: fn(m).0.children == m.children
  }

  /**
   * `walk(n, fn)`: call `fn` on `n`, then walk the children of the node `fn`
   * left, in order, stopping at the first error. The result is the subtree
   * afterwards, the nodes `fn` was called on (as they were when called) and
   * the error returned, if any.
   */
  function WalkNode<E>(n: Node, fn: Callback<E>): (Node, seq<Node>, Option<E>)
    requires KeepsChildren(fn)
    decreases n, 1
  {
    var (n', err) := fn(n);
    if err.Some? then (n', [n], err)
    else
      var (kids, visited, err') := WalkForest(n'.children, fn);
      (n'.(children := kids), [n] + visited, err')
  }

  /** The loop over a slice of nodes shared by `Tree.Walk` and `walk`; the nodes after an error are left as they were. */
  function WalkForest<E>(nodes: seq<Node>, fn: Callback<E>): (seq<Node>, seq<Node>, Option<E>)
    requires KeepsChildren(fn)
    decreases nodes, 0
  {
    if nodes == [] then ([], [], None)
    else
      var (m, visited, err) := WalkNode(nodes[0], fn);
      if err.Some? then ([m] + nodes[1..], visited, err)
      else
        var (ms, visited', err') := WalkForest(nodes[1..], fn);
        ([m] + ms, visited + visited', err')
  }

  /** `Tree.Walk`: walk the root's children; the root itself is not visited. */
  function Walk<E>(tr: Tree, fn: Callback<E>): (Tree, seq<Node>, Option<E>)
    requires KeepsChildren(fn)
  {
    var (kids, visited, err) := WalkForest(tr.root.children, fn);
    (Tree(tr.root.(children := kids)), visited, err)
  }

  /** What a walk with early exit must do, stated against the pre-order listing. */
  ghost predicate WalkSpec<E>(all: seq<Node>, fn: Callback<E>, visited: seq<Node>, err: Option<E>)
  {
    && |visited| <= |all|
    && visited == all[..|visited|]
    && (forall i :: 0 <= i < |visited| - 1 ==> fn(visited[i]).1.None?)
    && (err.None? ==> visited == all && forall i :: 0 <= i < |all| ==> fn(all[i]).1.None?)
    && (err.Some? ==> |visited| > 0 && err == fn(visited[|visited| - 1]).1)
  }

  /** A node without its children: what a callback's changes to one node are compared on. */
  function Strip(m: Node): Node
  {
    m.(children := [])
  }

  /**
   * The pre-order listing `after` is `before` with the first `k` nodes as the
   * callback left them and every later node untouched.
   */
  ghost predicate Rewritten<E>(before: seq<Node>, after: seq<Node>, fn: Callback<E>, k: nat)
  {
    && |after| == |before|
    && k <= |before|
    && (forall i :: 0 <= i < k ==> Strip(after[i]) == Strip(fn(before[i]).0))
    && (forall i :: k <= i < |before| ==> after[i] == before[i])
  }

  /**
   * `walk` calls the callback on the nodes of the subtree in pre-order, stops at
   * the first error and returns it; the nodes it called the callback on are
   * left as the callback left them, and the rest of the subtree is untouched.
   */
  lemma {:induction false} WalkNodeSpec<E>(n: Node, fn: Callback<E>)
    requires KeepsChildren(fn)
    ensures var (n', visited, err) := WalkNode(n, fn);
      && WalkSpec(PreOrder([n]), fn, visited, err)
      && Rewritten(PreOrder([n]), PreOrder([n']), fn, |visited|)
    decreases n, 1
  {
    var (n1, e1) := fn(n);
    var (n', visited, err) := WalkNode(n, fn);
    PreOrderSingle(n);
    PreOrderSingle(n');
    if e1.Some? {
      RewrittenNone(PreOrder(n.children), fn);
      RewrittenCons(n, n', PreOrder(n.children), PreOrder(n.children), fn, 0);
    } else {
      WalkForestSpec(n.children, fn);
      var (kids, v, e) := WalkForest(n.children, fn);
      assert WalkSpec([n], fn, [n], None);
      WalkSpecConcat([n], PreOrder(n.children), fn, [n], v, e);
      RewrittenCons(n, n', PreOrder(n.children), PreOrder(kids), fn, |v|);
    }
  }

  /** The same for the loop over a slice of nodes. */
  lemma {:induction false} WalkForestSpec<E>(nodes: seq<Node>, fn: Callback<E>)
    requires KeepsChildren(fn)
    ensures var (after, visited, err) := WalkForest(nodes, fn);
      && WalkSpec(PreOrder(nodes), fn, visited, err)
      && Rewritten(PreOrder(nodes), PreOrder(after), fn, |visited|)
    decreases nodes, 0
  {
    if nodes != [] {
      var head := PreOrder([nodes[0]]);
      PreOrderCons(nodes[0], nodes[1..]);
      assert [nodes[0]] + nodes[1..] == nodes;
      WalkNodeSpec(nodes[0], fn);
      var (m, v, e) := WalkNode(nodes[0], fn);
      PreOrderCons(m, nodes[1..]);
      if e.None? {
        WalkForestSpec(nodes[1..], fn);
        var (ms, v', e') := WalkForest(nodes[1..], fn);
        PreOrderCons(m, ms);
        WalkSpecConcat(head, PreOrder(nodes[1..]), fn, v, v', e');
        RewrittenConcat(head, PreOrder([m]), PreOrder(nodes[1..]), PreOrder(ms), fn, |v'|);
      } else {
        WalkSpecStopped(head, PreOrder(nodes[1..]), fn, v, e);
        RewrittenKeepTail(head, PreOrder([m]), PreOrder(nodes[1..]), fn, |v|);
      }
    }
  }

  /** The listing of one node: the node, then its children's subtrees. */
  lemma PreOrderSingle(n: Node)
    ensures PreOrder([n]) == [n] + PreOrder(n.children)
  {
    assert [n][1..] == [];
  }

  /** The listing of a forest: its first tree's listing, then the rest's. */
  lemma PreOrderCons(n: Node, rest: seq<Node>)
    ensures PreOrder([n] + rest) == PreOrder([n]) + PreOrder(rest)
  {
    assert ([n] + rest)[1..] == rest;
    PreOrderSingle(n);
  }

  /** No node rewritten: the listing is unchanged. */
  lemma RewrittenNone<E>(a: seq<Node>, fn: Callback<E>)
    ensures Rewritten(a, a, fn, 0)
  {
  }

  /** One more rewritten node in front. */
  lemma RewrittenCons<E>(x: Node, y: Node, a: seq<Node>, b: seq<Node>, fn: Callback<E>, k: nat)
    requires Rewritten(a, b, fn, k)
    requires Strip(y) == Strip(fn(x).0)
    requires PreOrder([y]) == [y] + b
    ensures Rewritten([x] + a, PreOrder([y]), fn, k + 1)
  {
    var a', b' := [x] + a, [y] + b;
    forall i | 0 <= i < k + 1 ensures Strip(b'[i]) == Strip(fn(a'[i]).0) {
      if i > 0 {
        assert a'[i] == a[i - 1] && b'[i] == b[i - 1];
      }
    }
    forall i | k + 1 <= i < |a'| ensures b'[i] == a'[i] {
      assert a'[i] == a[i - 1] && b'[i] == b[i - 1];
    }
  }

  /** A fully rewritten listing followed by a partly rewritten one. */
  lemma RewrittenConcat<E>(a: seq<Node>, a': seq<Node>, b: seq<Node>, b': seq<Node>, fn: Callback<E>, k: nat)
    requires Rewritten(a, a', fn, |a|)
    requires Rewritten(b, b', fn, k)
    ensures Rewritten(a + b, a' + b', fn, |a| + k)
  {
    forall i | 0 <= i < |a| + k ensures Strip((a' + b')[i]) == Strip(fn((a + b)[i]).0) {
      if i >= |a| {
        assert (a + b)[i] == b[i - |a|] && (a' + b')[i] == b'[i - |a|];
      }
    }
    forall i | |a| + k <= i < |a + b| ensures (a' + b')[i] == (a + b)[i] {
      assert (a + b)[i] == b[i - |a|] && (a' + b')[i] == b'[i - |a|];
    }
  }

  /** A partly rewritten listing followed by an untouched one. */
  lemma RewrittenKeepTail<E>(a: seq<Node>, a': seq<Node>, b: seq<Node>, fn: Callback<E>, k: nat)
    requires Rewritten(a, a', fn, k)
    ensures Rewritten(a + b, a' + b, fn, k)
  {
    forall i | k <= i < |a + b| ensures (a' + b)[i] == (a + b)[i] {
      if i >= |a| {
        assert (a + b)[i] == b[i - |a|] && (a' + b)[i] == b[i - |a|];
      }
    }
  }

  /** A walk of `a` that finished without error, followed by a walk of `b`, walks `a + b`. */
  lemma WalkSpecConcat<E>(a: seq<Node>, b: seq<Node>, fn: Callback<E>, v: seq<Node>, v': seq<Node>, e': Option<E>)
    requires WalkSpec(a, fn, v, None)
    requires WalkSpec(b, fn, v', e')
    ensures WalkSpec(a + b, fn, v + v', e')
  {
    assert v == a;
    assert (v + v')[..|v + v'|] == v + v';
    assert (a + b)[..|v + v'|] == a + b[..|v'|];
    forall i | 0 <= i < |v + v'| - 1 ensures fn((v + v')[i]).1.None? {
      if i >= |v| {
        assert (v + v')[i] == v'[i - |v|];
      }
    }
    if e'.None? {
      forall i | 0 <= i < |a + b| ensures fn((a + b)[i]).1.None? {
        if i >= |a| {
          assert (a + b)[i] == b[i - |a|];
        }
      }
    } else {
      assert (v + v')[|v + v'| - 1] == v'[|v'| - 1];
    }
  }

  /** A walk of `a` that stopped with an error is also a walk of `a + b` that stopped there. */
  lemma WalkSpecStopped<E>(a: seq<Node>, b: seq<Node>, fn: Callback<E>, v: seq<Node>, e: Option<E>)
    requires e.Some?
    requires WalkSpec(a, fn, v, e)
    ensures WalkSpec(a + b, fn, v, e)
  {
    assert (a + b)[..|v|] == a[..|v|];
  }

  /**
   * `Tree.Walk` calls the callback on the root's descendants in pre-order, stops
   * at the first error and returns it unchanged; without an error it visits
   * every non-root node and returns nil. The nodes visited are left as the
   * callback left them, the later ones and the root untouched.
   */
  lemma WalkIsPreOrderWithEarlyExit<E>(tr: Tree, fn: Callback<E>)
    requires KeepsChildren(fn)
    ensures var (tr', visited, err) := Walk(tr, fn);
      && WalkSpec(PreOrder(tr.root.children), fn, visited, err)
      && Rewritten(PreOrder(tr.root.children), PreOrder(tr'.root.children), fn, |visited|)
      && Strip(tr'.root) == Strip(tr.root)
  {
    WalkForestSpec(tr.root.children, fn);
  }

  /** Each node of a forest appears in its pre-order listing once: the listing has `Size` entries. */
  lemma {:induction false} PreOrderSize(nodes: seq<Node>)
    ensures |PreOrder(nodes)| == Size(nodes)
  {
    if nodes != [] {
      PreOrderSize(nodes[0].children);
      PreOrderSize(nodes[1..]);
    }
  }

  /** A node listed in a forest's pre-order is no taller than the forest. */
  lemma {:induction false} PreOrderHeight(nodes: seq<Node>, m: Node)
    requires m in PreOrder(nodes)
    ensures 1 + Height(m.children) <= Height(nodes)
  {
    var rest := PreOrder(nodes[0].children) + PreOrder(nodes[1..]);
    assert PreOrder(nodes) == [nodes[0]] + rest;
    if m != nodes[0] {
      if m in PreOrder(nodes[0].children) {
        PreOrderHeight(nodes[0].children, m);
      } else {
        PreOrderHeight(nodes[1..], m);
      }
    }
  }

  /** The root is never passed to the callback. */
  lemma RootNotVisited<E>(tr: Tree, fn: Callback<E>)
    requires KeepsChildren(fn)
    ensures tr.root !in Walk(tr, fn).1
  {
    WalkIsPreOrderWithEarlyExit(tr, fn);
    var visited := Walk(tr, fn).1;
    var all := PreOrder(tr.root.children);
    if tr.root in visited {
      assert tr.root in all;
      PreOrderHeight(tr.root.children, tr.root);
    }
  }
}
