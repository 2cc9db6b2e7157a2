/**
 * `parser/internal/treewriter/writer.go`: print a tree the way `tree(1)`
 * does, one line per node, with box-drawing columns showing where each node
 * hangs. A node is what the `Node` interface exposes: its children (`At`,
 * `Len`) and the text `fmt.Sprint` gives for it. The output stream is the
 * string written so far; the writes never fail and the byte counts are not
 * modelled.
 */
module TreeWriter {

  /** A `Node`: its printed text and its children in `At` order. */
  datatype TNode = TNode(text: string, kids: seq<TNode>)

  /** The number of nodes of a tree. */
  function Size(n: TNode): nat
    decreases n, 1
  {
    1 + SizeForest(n.kids)
  }

  function SizeForest(ns: seq<TNode>): nat
    decreases ns, 0
  {
    if ns == [] then 0 else Size(ns[0]) + SizeForest(ns[1..])
  }

  /** The column of an ancestor: a bar if more siblings follow it, blank otherwise. */
  function Column(isLast: bool): string
  {
    if isLast then "    " else "│   "
  }

  /** The column of the node itself: a tee, or a corner for its parent's last child. */
  function Branch(isLast: bool): string
  {
    if isLast then "└──" else "├──"
  }

  /** The ancestor columns for the flags `ll`. */
  function Columns(ll: seq<bool>): string
  {
    if ll == [] then "" else Columns(ll[..|ll| - 1]) + Column(ll[|ll| - 1])
  }

  /** What the loop over `lastlist` prints: the ancestors' columns, then the node's own. */
  function Indent(ll: seq<bool>): string
  {
    if ll == [] then "" else Columns(ll[..|ll| - 1]) + Branch(ll[|ll| - 1])
  }

  /** The node's text after a space, or nothing when the text is empty. */
  function Label(text: string): string
  {
    if text == "" then "" else " " + text
  }

  /** `write(n, lastlist)`: the node's line, then each child with its own last-child flag appended. */
  function Render(n: TNode, ll: seq<bool>): string
    decreases n, 1
  {
    Indent(ll) + Label(n.text) + "\n" + RenderForest(n.kids, ll)
  }

  /** The children `ns`, each flagged as last exactly when no sibling follows it. */
  function RenderForest(ns: seq<TNode>, ll: seq<bool>): string
    decreases ns, 0
  {
    if ns == [] then "" else Render(ns[0], ll + [|ns| == 1]) + RenderForest(ns[1..], ll)
  }

  /** What the loop over `ll` has printed after its first `i` rounds. */
  function IndentUpTo(ll: seq<bool>, i: nat): string
    requires i <= |ll|
  {
    if i == |ll| then Indent(ll) else Columns(ll[..i])
  }

  /** One round of the loop over `ll` prints the next column. */
  lemma IndentStep(ll: seq<bool>, i: nat, start: string, out: string, piece: string)
    requires i < |ll|
    requires out == start + IndentUpTo(ll, i)
    requires piece == if i == |ll| - 1 then Branch(ll[i]) else Column(ll[i])
    ensures out + piece == start + IndentUpTo(ll, i + 1)
  {
    if i == |ll| - 1 {
      assert ll[..|ll| - 1] == ll[..i];
      assert IndentUpTo(ll, i + 1) == Columns(ll[..i]) + Branch(ll[i]);
    } else {
      var pre := ll[..i + 1];
      assert pre[..|pre| - 1] == ll[..i] && pre[|pre| - 1] == ll[i];
      assert IndentUpTo(ll, i + 1) == Columns(ll[..i]) + Column(ll[i]);
    }
    Assoc(start, IndentUpTo(ll, i), piece);
  }

  /** The glyphs `write` prints, one mark and its tail. */
  lemma Glyphs()
    ensures "└" + "──" == Branch(true) && "├" + "──" == Branch(false)
    ensures " " + "   " == Column(true) && "│" + "   " == Column(false)
  {
  }

  /** The pieces `write` prints one after the other add up to `Render`. */
  lemma RenderSplit(n: TNode, ll: seq<bool>, start: string, indented: string, line: string, out: string)
    requires indented == start + Indent(ll)
    requires line == indented + (Label(n.text) + "\n")
    requires out == line + RenderForest(n.kids, ll)
    ensures out == start + Render(n, ll)
  {
  }

  /** One round of the loop over the children prints the next child's subtree. */
  lemma KidsStep(kids: seq<TNode>, ll: seq<bool>, i: nat, before: string, out: string)
    requires i < |kids|
    requires out == before + Render(kids[i], ll + [i == |kids| - 1])
    ensures out + RenderForest(kids[i + 1..], ll) == before + RenderForest(kids[i..], ll)
  {
    var rest := kids[i..];
    assert rest[0] == kids[i] && rest[1..] == kids[i + 1..];
    assert (|rest| == 1) == (i == |kids| - 1);
    Assoc(before, Render(kids[i], ll + [i == |kids| - 1]), RenderForest(kids[i + 1..], ll));
  }

  lemma Assoc(a: string, b: string, c: string)
    ensures (a + b) + c == a + (b + c)
  {
  }

  /** `Writer`: the stream written to and the tree to print. */
  class Writer {
    var out: string
    const root: TNode

    /** `NewWriter(w, root)`, writing to an empty stream. */
    constructor(root: TNode)
      ensures out == "" && this.root == root
    {
      out := "";
      this.root := root;
    }

    /** `Write(nil)`: a dot, then the tree from the root with no columns. */
    method Write()
      modifies this
      ensures out == old(out) + "." + Render(root, [])
    {
      out := out + ".";
      WriteNode(root, []);
    }

    /** The loop over `lastlist` at the head of `write`. */
    method WriteIndent(lastlist: seq<bool>)
      modifies this
      ensures out == old(out) + Indent(lastlist)
    {
      ghost var start := out;
      for i := 0 to |lastlist|
        invariant out == start + IndentUpTo(lastlist, i)
      {
        var isLast := lastlist[i];
        var piece;
        if i == |lastlist| - 1 {
          var mark := if isLast then "└" else "├";
          piece := mark + "──";
        } else {
          var mark := if isLast then " " else "│";
          piece := mark + "   ";
        }
        Glyphs();
        IndentStep(lastlist, i, start, out, piece);
        out := out + piece;
      }
    }

    /** `write(w, n, lastlist)`. */
    method WriteNode(n: TNode, lastlist: seq<bool>)
      modifies this
      ensures out == old(out) + Render(n, lastlist)
      decreases n, 1
    {
      ghost var start := out;
      WriteIndent(lastlist);
      ghost var indented := out;
      if n.text != "" {
        out := out + (" " + n.text);
      }
      out := out + "\n";
      ghost var line := out;
      assert line == indented + (Label(n.text) + "\n");
      WriteKids(n.kids, lastlist);
      RenderSplit(n, lastlist, start, indented, line, out);
    }

    /** The loop over the children at the end of `write`. */
    method WriteKids(kids: seq<TNode>, lastlist: seq<bool>)
      modifies this
      ensures out == old(out) + RenderForest(kids, lastlist)
      decreases kids, 0
    {
      ghost var start := out;
      var nlen := |kids|;
      for i := 0 to nlen
        invariant out + RenderForest(kids[i..], lastlist) == start + RenderForest(kids, lastlist)
      {
        var isLast := i == nlen - 1;
        ghost var before := out;
        WriteNode(kids[i], lastlist + [isLast]);
        KidsStep(kids, lastlist, i, before, out);
      }
      assert kids[nlen..] == [];
    }
  }

  // ---------------------------------------------------------------------------
  // The output, line by line

  /** A node and the last-child flags of its ancestors and itself. */
  datatype Entry = Entry(node: TNode, flags: seq<bool>)

  /** The nodes of a tree in pre-order, each with its flags. */
  function Entries(n: TNode, ll: seq<bool>): seq<Entry>
    decreases n, 1
  {
    [Entry(n, ll)] + EntriesForest(n.kids, ll)
  }

  function EntriesForest(ns: seq<TNode>, ll: seq<bool>): seq<Entry>
    decreases ns, 0
  {
    if ns == [] then [] else Entries(ns[0], ll + [|ns| == 1]) + EntriesForest(ns[1..], ll)
  }

  /** The line printed for one entry, without its newline. */
  function LineOf(e: Entry): string
  {
    Indent(e.flags) + Label(e.node.text)
  }

  /** The lines of `es`, each ended by a newline. */
  function Lines(es: seq<Entry>): string
  {
    if es == [] then "" else LineOf(es[0]) + "\n" + Lines(es[1..])
  }

  lemma {:induction false} LinesAppend(a: seq<Entry>, b: seq<Entry>)
    ensures Lines(a + b) == Lines(a) + Lines(b)
  {
    if a != [] {
      assert (a + b)[1..] == a[1..] + b;
      LinesAppend(a[1..], b);
    } else {
      assert a + b == b;
    }
  }

  /** The output is one newline-ended line per node, in pre-order. */
  lemma {:induction false} RenderIsLines(n: TNode, ll: seq<bool>)
    ensures Render(n, ll) == Lines(Entries(n, ll))
    decreases n, 1
  {
    RenderForestIsLines(n.kids, ll);
    LinesAppend([Entry(n, ll)], EntriesForest(n.kids, ll));
    assert [Entry(n, ll)][1..] == [];
  }

  lemma {:induction false} RenderForestIsLines(ns: seq<TNode>, ll: seq<bool>)
    ensures RenderForest(ns, ll) == Lines(EntriesForest(ns, ll))
    decreases ns, 0
  {
    if ns != [] {
      RenderIsLines(ns[0], ll + [|ns| == 1]);
      RenderForestIsLines(ns[1..], ll);
      LinesAppend(Entries(ns[0], ll + [|ns| == 1]), EntriesForest(ns[1..], ll));
    }
  }

  /** There is one line per node. */
  lemma {:induction false} EntriesSize(n: TNode, ll: seq<bool>)
    ensures |Entries(n, ll)| == Size(n)
    decreases n, 1
  {
    EntriesForestSize(n.kids, ll);
  }

  lemma {:induction false} EntriesForestSize(ns: seq<TNode>, ll: seq<bool>)
    ensures |EntriesForest(ns, ll)| == SizeForest(ns)
    decreases ns, 0
  {
    if ns != [] {
      EntriesSize(ns[0], ll + [|ns| == 1]);
      EntriesForestSize(ns[1..], ll);
    }
  }

  /**
   * Every line below a node's own extends its flags by one flag per level, so
   * each descendant is drawn inside the node's columns.
   */
  lemma {:induction false} EntriesExtendFlags(n: TNode, ll: seq<bool>)
    ensures Entries(n, ll)[0] == Entry(n, ll)
    ensures forall k :: 0 < k < |Entries(n, ll)| ==>
      |Entries(n, ll)[k].flags| > |ll| && Entries(n, ll)[k].flags[..|ll|] == ll
    decreases n, 1
  {
    EntriesForestExtendFlags(n.kids, ll);
  }

  lemma {:induction false} EntriesForestExtendFlags(ns: seq<TNode>, ll: seq<bool>)
    ensures forall k :: 0 <= k < |EntriesForest(ns, ll)| ==>
      |EntriesForest(ns, ll)[k].flags| > |ll| && EntriesForest(ns, ll)[k].flags[..|ll|] == ll
    decreases ns, 0
  {
    if ns != [] {
      var ll' := ll + [|ns| == 1];
      EntriesExtendFlags(ns[0], ll');
      EntriesForestExtendFlags(ns[1..], ll);
      var a: seq<Entry> := Entries(ns[0], ll');
      var b: seq<Entry> := EntriesForest(ns[1..], ll);
      forall k | 0 <= k < |a + b|
        ensures |(a + b)[k].flags| > |ll| && (a + b)[k].flags[..|ll|] == ll
      {
        if k < |a| {
          var fl := a[k].flags;
          assert |fl| >= |ll'| && fl[..|ll'|] == ll';
          assert fl[..|ll|] == fl[..|ll'|][..|ll|] == ll;
        } else {
          assert (a + b)[k] == b[k - |a|];
        }
      }
    }
  }

  /** The columns of two runs of ancestors are those of each, one after the other. */
  lemma {:induction false} ColumnsAppend(a: seq<bool>, b: seq<bool>)
    ensures Columns(a + b) == Columns(a) + Columns(b)
    decreases |b|
  {
    if b == [] {
      assert a + b == a;
    } else {
      var b' := b[..|b| - 1];
      assert (a + b)[..|a + b| - 1] == a + b';
      ColumnsAppend(a, b');
    }
  }

  /**
   * `Columns` has four characters per ancestor, and the group of ancestor `i`
   * is a bar or blanks according to that ancestor's own flag alone.
   */
  lemma {:induction false} ColumnsShape(ll: seq<bool>, i: int)
    requires 0 <= i < |ll|
    ensures |Columns(ll)| == 4 * |ll|
    ensures Columns(ll) == Columns(ll[..i]) + Column(ll[i]) + Columns(ll[i + 1..])
  {
    ColumnsLength(ll);
    assert ll == ll[..i] + [ll[i]] + ll[i + 1..];
    ColumnsAppend(ll[..i] + [ll[i]], ll[i + 1..]);
    ColumnsAppend(ll[..i], [ll[i]]);
    assert Columns([ll[i]]) == Column(ll[i]) by {
      assert [ll[i]][..0] == [];
    }
  }

  lemma {:induction false} ColumnsLength(ll: seq<bool>)
    ensures |Columns(ll)| == 4 * |ll|
  {
    if ll != [] {
      ColumnsLength(ll[..|ll| - 1]);
    }
  }

  /**
   * A node's line starts with one column per ancestor (a bar where that
   * ancestor has later siblings, blanks where it was the last child), then a
   * corner if the node is its parent's last child and a tee otherwise.
   */
  lemma IndentShape(ll: seq<bool>, i: int)
    requires 0 <= i < |ll| - 1
    ensures |Indent(ll)| == 4 * (|ll| - 1) + 3
    ensures Indent(ll)
      == Columns(ll[..i]) + Column(ll[i]) + Columns(ll[i + 1..|ll| - 1]) + Branch(ll[|ll| - 1])
  {
    var init := ll[..|ll| - 1];
    ColumnsShape(init, i);
    assert init[..i] == ll[..i] && init[i] == ll[i] && init[i + 1..] == ll[i + 1..|ll| - 1];
  }

  /** The number of newlines in `s`. */
  function Newlines(s: string): nat
  {
    if s == [] then 0 else (if s[0] == '\n' then 1 else 0) + Newlines(s[1..])
  }

  lemma {:induction false} NewlinesAppend(a: string, b: string)
    ensures Newlines(a + b) == Newlines(a) + Newlines(b)
  {
    if a != [] {
      assert (a + b)[1..] == a[1..] + b;
      NewlinesAppend(a[1..], b);
    } else {
      assert a + b == b;
    }
  }

  /** No node's text holds a newline. */
  ghost predicate OneLineTexts(es: seq<Entry>)
  {
    forall k :: 0 <= k < |es| ==> '\n' !in es[k].node.text
  }

  lemma {:induction false} ColumnsOneLine(ll: seq<bool>)
    ensures '\n' !in Columns(ll)
  {
    if ll != [] {
      ColumnsOneLine(ll[..|ll| - 1]);
    }
  }

  lemma {:induction false} NoNewlineInText(s: string)
    requires '\n' !in s
    ensures Newlines(s) == 0
  {
    if s != [] {
      NoNewlineInText(s[1..]);
    }
  }

  /** With one-line texts, the printed lines hold exactly one newline each. */
  lemma {:induction false} LinesNewlines(es: seq<Entry>)
    requires OneLineTexts(es)
    ensures Newlines(Lines(es)) == |es|
  {
    if es != [] {
      var e := es[0];
      LinesNewlines(es[1..]);
      if e.flags != [] {
        ColumnsOneLine(e.flags[..|e.flags| - 1]);
      }
      assert '\n' !in LineOf(e);
      NoNewlineInText(LineOf(e));
      NewlinesAppend(LineOf(e), "\n");
      NewlinesAppend(LineOf(e) + "\n", Lines(es[1..]));
    }
  }

  /**
   * `Write` prints a dot, the root's text after a space if it has one, and
   * then exactly one line per node: the output has as many newlines as the
   * tree has nodes.
   */
  lemma WriteShape(root: TNode)
    requires OneLineTexts(Entries(root, []))
    ensures ("." + Render(root, []))[0] == '.'
    ensures Render(root, []) == Label(root.text) + "\n" + RenderForest(root.kids, [])
    ensures Newlines("." + Render(root, [])) == Size(root)
  {
    RenderRoot(root);
    var out := Render(root, []);
    var es := Entries(root, []);
    RenderIsLines(root, []);
    EntriesSize(root, []);
    LinesNewlines(es);
    NewlinesAppend(".", out);
    assert Newlines(".") == 0 by {
      assert "."[1..] == [];
    }
  }

  /** Two siblings: the first drawn with a tee, the second with a corner. */
  lemma RenderTwo(first: TNode, second: TNode, ll: seq<bool>)
    ensures RenderForest([first, second], ll) == Render(first, ll + [false]) + Render(second, ll + [true])
  {
    assert [first, second][1..] == [second] && [second][1..] == [];
    var y := Render(second, ll + [true]);
    assert RenderForest([second], ll) == y + "";
    assert y + "" == y;
  }

  /** The root line is the root's text alone: the root has no columns. */
  lemma RenderRoot(n: TNode)
    ensures Render(n, []) == Label(n.text) + "\n" + RenderForest(n.kids, [])
  {
    assert Indent([]) + Label(n.text) == Label(n.text);
  }

  /** A leaf under the root, with its flag. */
  lemma RenderTopLeaf(text: string, isLast: bool)
    requires text != ""
    ensures Render(TNode(text, []), [] + [isLast]) == Branch(isLast) + (" " + text) + "\n"
  {
    assert [] + [isLast] == [isLast];
    assert Indent([isLast]) == Branch(isLast) by {
      assert [isLast][..0] == [];
    }
    var line := Branch(isLast) + (" " + text) + "\n";
    assert RenderForest([], [isLast]) == "";
    assert line + "" == line;
  }

  /** The first case of the writer's tests: a root with two leaves. */
  lemma FlatExample()
    ensures "." + Render(TNode("root", [TNode("foo", []), TNode("bar", [])]), [])
      == ". root\n" + "├── foo\n" + "└── bar\n"
  {
    var foo := TNode("foo", []);
    var bar := TNode("bar", []);
    RenderRoot(TNode("root", [foo, bar]));
    RenderTwo(foo, bar, []);
    RenderTopLeaf("foo", false);
    RenderTopLeaf("bar", true);
    FlatLines();
    var x := Render(foo, [] + [false]);
    var y := Render(bar, [] + [true]);
    Assoc(".", Label("root") + "\n", x + y);
    Assoc(". root\n" + x, y, "");
  }

  /** The lines of the first case, each as `write` assembles it. */
  lemma FlatLines()
    ensures "." + (Label("root") + "\n") == ". root\n"
    ensures Branch(false) + (" " + "foo") + "\n" == "├── foo\n"
    ensures Branch(true) + (" " + "bar") + "\n" == "└── bar\n"
  {
  }

  /**
   * The second case of the writer's tests: nested children under both kinds
   * of column. The expected output is written line by line.
   */
  lemma NestedExample()
    ensures "." + Render(TNode("", [TNode("foo", [TNode("bar", [])]), TNode("baz", [TNode("qux", [])])]), [])
      == ".\n" + ("├── foo\n" + "│   └── bar\n") + ("└── baz\n" + "    └── qux\n")
  {
    var foo := TNode("foo", [TNode("bar", [])]);
    var baz := TNode("baz", [TNode("qux", [])]);
    var x := NestedChild(foo, false);
    var y := NestedChild(baz, true);
    ExampleLines();
    RenderRoot(TNode("", [foo, baz]));
    RenderTwo(foo, baz, []);
    assert [] + [false] == [false] && [] + [true] == [true];
    assert Label("") + "\n" == "\n";
    Assoc(".", "\n", x + y);
    Assoc(".\n", x, y);
  }

  /** The lines of the second case, each as `write` assembles it. */
  lemma ExampleLines()
    ensures Branch(false) + (" " + "foo") + "\n" == "├── foo\n"
    ensures Column(false) + "└── " + "bar" + "\n" == "│   └── bar\n"
    ensures Branch(true) + (" " + "baz") + "\n" == "└── baz\n"
    ensures Column(true) + "└── " + "qux" + "\n" == "    └── qux\n"
    ensures "." + "\n" == ".\n"
  {
  }

  /** A child with one leaf below it, drawn under the child's own flag. */
  lemma NestedChild(n: TNode, isLast: bool) returns (r: string)
    requires n.text != "" && |n.kids| == 1 && n.kids[0].text != "" && n.kids[0].kids == []
    ensures r == Render(n, [isLast])
    ensures r == Branch(isLast) + (" " + n.text) + "\n" + (Column(isLast) + "└── " + n.kids[0].text + "\n")
  {
    assert n.kids == [TNode(n.kids[0].text, [])];
    var leaves := RenderForest(n.kids, [isLast]);
    NestedLeaf(n.kids[0].text, isLast);
    r := Render(n, [isLast]);
    assert Indent([isLast]) == Branch(isLast) by {
      assert [isLast][..0] == [];
    }
  }

  /** An only child two levels down, below a parent that is or is not the last. */
  lemma NestedLeaf(text: string, parentLast: bool)
    requires text != ""
    ensures RenderForest([TNode(text, [])], [parentLast])
      == Column(parentLast) + "└── " + text + "\n"
  {
    assert [parentLast, true][..1] == [parentLast];
    assert Columns([parentLast]) == Column(parentLast) by {
      assert [parentLast][..0] == [];
    }
    assert Indent([parentLast, true]) == Column(parentLast) + "└──";
    var leaf := TNode(text, []);
    assert [leaf][1..] == [] && [parentLast] + [true] == [parentLast, true];
    assert RenderForest([leaf], [parentLast]) == Render(leaf, [parentLast, true]);
    assert Render(leaf, [parentLast, true]) == Column(parentLast) + "└──" + (" " + text) + "\n";
    assert "└──" + " " == "└── ";
  }
}
