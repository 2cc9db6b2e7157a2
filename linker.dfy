/**
 * `linker/linker.go` and `linker/conflict_error.go`: deciding, node by node of
 * a parsed tree, whether a link can be created, and the message that reports
 * how many conflicts were found. The file system is the `Info` query of the
 * `FileSystem` interface, given as a function from a path to its metadata or
 * an error.
 */
module Linker {
  import opened Wrappers
  import opened Strings
  import opened ParserFile
  import opened ParserTree

  /** `FileInfo`: what the file system reports about a path. */
  datatype FileInfo = FileInfo(present: bool, isDir: bool, linkname: string)

  /** `FileSystem.Info`: the metadata of a path, or the error the query failed with. */
  type InfoQuery = string -> Result<FileInfo, string>

  /** A `*parser.Node`: the node that `Resolve` updates in place. */
  class NodeRef {
    var node: Node

    constructor(node: Node)
      ensures this.node == node
    {
      this.node := node;
    }
  }

  /**
   * What `Resolve` does to a node: the node afterwards and the error it
   * returns. A parent is skipped without a query; a leaf is ready when its
   * link does not exist; a failed query leaves the node as it was.
   */
  function ResolveSpec(info: InfoQuery, n: Node): (Node, Option<string>)
  {
    if |n.children| > 0 then
      (n.(status := Skip), None)
    else
      match info(n.link.FullPath())
      case Err(e) => (n, Some(e))
      case Ok(link) => (if !link.present then n.(status := Ready) else n, None)
  }

  /** `Linker`: a file system to query. */
  class Linker {
    const info: InfoQuery

    /** `New(fs)`. */
    constructor(info: InfoQuery)
      ensures this.info == info
    {
      this.info := info;
    }

    /** `(*Linker).Resolve(n)`: set the node's status from its children and its link. */
    method Resolve(n: NodeRef) returns (err: Option<string>)
      modifies n
      ensures (n.node, err) == ResolveSpec(info, old(n.node))
    {
      if |n.node.children| > 0 {
        n.node := n.node.(status := Skip);
        return None;
      }
      var link := info(n.node.link.FullPath());
      if link.Err? {
        return Some(link.error);
      }
      if !link.value.present {
        n.node := n.node.(status := Ready);
      }
      return None;
    }
  }

  /** `Resolve` as the callback of `Tree.Walk`. */
  function Resolver(info: InfoQuery): Callback<string>
  {
    (n: Node) => ResolveSpec(info, n)
  }

  /**
   * `tr.Walk(l.Resolve)`: `Resolve` changes only a node's status, so the walk
   * reaches every node; when it returns no error, every parent in the tree is
   * skipped, every node keeps its files and every leaf has the status the file
   * system query gives it.
   */
  lemma ResolveWalk(info: InfoQuery, tr: Tree)
    ensures KeepsChildren(Resolver(info))
    ensures var (tr', visited, err) := Walk(tr, Resolver(info));
      var all, all' := PreOrder(tr.root.children), PreOrder(tr'.root.children);
      err.None? ==>
        && |all'| == |all|
        && (forall i :: 0 <= i < |all| ==> all'[i].target == all[i].target && all'[i].link == all[i].link)
        && (forall i :: 0 <= i < |all| && |all[i].children| > 0 ==> all'[i].status == Skip)
        && (forall i :: 0 <= i < |all| && |all[i].children| == 0 ==>
              all'[i].status == ResolveSpec(info, all[i]).0.status)
  {
    WalkIsPreOrderWithEarlyExit(tr, Resolver(info));
    var (tr', visited, err) := Walk(tr, Resolver(info));
    var all, all' := PreOrder(tr.root.children), PreOrder(tr'.root.children);
    if err.None? {
      forall i | 0 <= i < |all|
        ensures all'[i].target == all[i].target && all'[i].link == all[i].link
        ensures all'[i].status == ResolveSpec(info, all[i]).0.status
      {
        assert Strip(all'[i]) == Strip(ResolveSpec(info, all[i]).0);
      }
    }
  }

  /** A node with children is skipped, whatever the file system would say about it. */
  lemma ParentSkipped(info: InfoQuery, n: Node)
    requires |n.children| > 0
    ensures ResolveSpec(info, n).0.status == Skip
    ensures ResolveSpec(info, n).1 == None
    ensures forall other: InfoQuery :: ResolveSpec(other, n) == ResolveSpec(info, n)
  {
  }

  /** Only the answer for the link's full path matters. */
  lemma QueriesLinkPath(a: InfoQuery, b: InfoQuery, n: Node)
    requires a(n.link.FullPath()) == b(n.link.FullPath())
    ensures ResolveSpec(a, n) == ResolveSpec(b, n)
  {
  }

  /** A failed query is returned as is, and the node keeps its status. */
  lemma QueryErrorPassedOn(info: InfoQuery, n: Node, e: string)
    requires |n.children| == 0
    requires info(n.link.FullPath()) == Err(e)
    ensures ResolveSpec(info, n) == (n, Some(e))
  {
  }

  /**
   * A leaf whose link is reported is ready exactly when the link does not
   * exist, and otherwise keeps its status; no error is returned.
   */
  lemma LeafStatus(info: InfoQuery, n: Node, link: FileInfo)
    requires |n.children| == 0
    requires info(n.link.FullPath()) == Ok(link)
    ensures ResolveSpec(info, n).1 == None
    ensures !link.present ==> ResolveSpec(info, n).0.status == Ready
    ensures link.present ==> ResolveSpec(info, n).0 == n
  {
  }

  /**
   * `Resolve` changes the status and nothing else, and an error is returned
   * exactly when the leaf's query fails.
   */
  lemma OnlyStatusChanges(info: InfoQuery, n: Node)
    ensures ResolveSpec(info, n).0 == n.(status := ResolveSpec(info, n).0.status)
    ensures ResolveSpec(info, n).1.Some? <==> |n.children| == 0 && info(n.link.FullPath()).Err?
  {
  }

  /** Resolving a node again gives the same node, when the file system answers the same. */
  lemma ResolveIdempotent(info: InfoQuery, n: Node)
    ensures ResolveSpec(info, ResolveSpec(info, n).0).0 == ResolveSpec(info, n).0
  {
  }

  // ---------------------------------------------------------------------------
  // Conflict errors

  /** `ConflictError`: the errors grouped as conflicts. */
  datatype ConflictError = ConflictError(errs: seq<string>)

  /** `resolveWords(n)`: the verb and the noun agreeing with a count of `n`. */
  function ResolveWords(n: int): (string, string)
  {
    if n == 1 then ("is", "conflict") else ("are", "conflicts")
  }

  /** `(*ConflictError).Error()`. */
  function Message(e: ConflictError): string
  {
    var (verb, conflicts) := ResolveWords(|e.errs|);
    "linker: there " + verb + " " + DecimalString(|e.errs|) + " " + conflicts
  }

  /** One error reads "is 1 conflict". */
  lemma OneConflict(e: ConflictError)
    requires |e.errs| == 1
    ensures Message(e) == "linker: there is 1 conflict"
  {
    assert DecimalString(1) == "1";
  }

  /** Any other count, zero included, reads "are <count> conflicts". */
  lemma OtherCounts(e: ConflictError)
    requires |e.errs| != 1
    ensures Message(e) == "linker: there are " + DecimalString(|e.errs|) + " conflicts"
  {
    var d := DecimalString(|e.errs|);
    assert "linker: there " + "are" + " " + d + " " + "conflicts"
      == "linker: there are " + d + " conflicts";
  }

  /** The message depends on the number of errors only, not on what they say. */
  lemma CountOnlyMatters(a: ConflictError, b: ConflictError)
    requires |a.errs| == |b.errs|
    ensures Message(a) == Message(b)
  {
  }

  /** Different counts give different messages: the count can be read back from the message. */
  lemma MessageDeterminesCount(a: ConflictError, b: ConflictError)
    requires Message(a) == Message(b)
    ensures |a.errs| == |b.errs|
  {
    var m := Message(a);
    var n, k := |a.errs|, |b.errs|;
    if n != 1 && k != 1 {
      OtherCounts(a);
      OtherCounts(b);
      var head := "linker: there are ";
      var tail := " conflicts";
      var da, db := DecimalString(n), DecimalString(k);
      assert m == head + (da + tail) && m == head + (db + tail);
      assert da + tail == m[|head|..] == db + tail;
      assert da == (da + tail)[..|da + tail| - |tail|];
      assert db == (db + tail)[..|db + tail| - |tail|];
      DecimalRoundTrip(n);
      DecimalRoundTrip(k);
    }
  }

  /** The cases of the conflict error's tests. */
  lemma MessageExamples()
    ensures Message(ConflictError([])) == "linker: there are 0 conflicts"
    ensures Message(ConflictError([""])) == "linker: there is 1 conflict"
    ensures Message(ConflictError(["", ""])) == "linker: there are 2 conflicts"
  {
    OneConflict(ConflictError([""]));
    OtherCounts(ConflictError([]));
    OtherCounts(ConflictError(["", ""]));
    assert DecimalString(0) == "0" && DecimalString(2) == "2";
  }

  /** A two-digit count: 99 errors. */
  lemma NinetyNineConflicts(e: ConflictError)
    requires |e.errs| == 99
    ensures Message(e) == "linker: there are 99 conflicts"
  {
    OtherCounts(e);
    assert DecimalString(9) == "9";
    assert DecimalString(99) == DecimalString(9) + ['9'];
  }
}
