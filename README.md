# pilgo, modelled in Dafny

pilgo is a dotfiles symlinker. A YAML configuration lists the targets of a
dotfiles directory and, per target, options that rename the link, move it
under the home directory, flatten it or tag it. The parser turns that
configuration into a tree of target/link pairs. The linker decides for every
node whether a link can be created. The command line filters directory
listings into configurations, edits options in place and prints trees. The
repository holds several revisions side by side: Go packages written against
two different `Config` records, and a partial Rust rewrite of the tree. Each
file is modelled on its own terms, with its own record types.

The modules, one per part of the program:

- `PathTree` (`path_tree.dfy`) is the Rust path tree (`src/parser/node.rs`,
  `src/parser/tree.rs`). A node is a branch mapping a path segment to a child,
  or a leaf. `Insert` follows `Node::insert`: split off the first segment,
  store a leaf for the last one, build a brand-new branch for an intermediate
  one, and refuse a leaf receiver. `Tree` is a class whose `With` replaces its
  root.
- `ParserFile`, `ParserTree`, `Parser` and `ParserProperties` cover the Go
  parser:
  - `parser/file.go` paths;
  - the pre-order `Walk` of `parser/tree.go`, whose callback may change the
    node it is given (its files and status, not its children);
  - `parser/parser.go`, as a class `ConfigParser` holding the settings the
    options write. Its methods, with their loops, are proved equal to
    recursive specification functions (`ChildrenOf`, `ChildFor`, `Target`);
    the properties of the parse are lemmas about those functions.
- `Configs` (`config.dfy`) is `config/config.go`:
  - `New` filters a listing into `Targets`;
  - the functional options set the filters;
  - `Set` stores an option record at a slash-separated path.
- `Filters` is the order-preserving filter that `config.New` and
  `readMode.resolve` share. `ReadModes` is `cmd/plg/read.go`, and
  `CommaFlags` is the two flag types of `cmd/plg/misc.go`.
- `MemFs` and `MemFsProperties` are `fs/fstest/in_memory_driver.go`, a file
  system kept in memory as nested maps. The driver is a class whose `files`
  field is the root directory. `find`, `mkdirAll` and `create` are methods
  with their loops, each proved equal to a function on the tree value.
- `TreeWriter` is `parser/internal/treewriter/writer.go`, the box-drawing tree
  printer. A `Writer` appends to its `out` string exactly as the Go code
  writes to its stream. The output is proved to be one line per node, in
  pre-order, with the columns drawn from the last-child flags.
- `Linker` is `linker/linker.go` (`Resolve`) and `linker/conflict_error.go`.
- `Strings`, `FilePath` and `Wrappers` hold the Go library functions the
  code calls:
  - `strings.Split` and `strings.Join`;
  - `sort.Strings`, with Go's byte-wise string order;
  - `filepath.Join`, without the lexical cleaning Go applies, and
    `filepath.Split`, both with `/` as separator;
  - `%d` formatting;
  - `Option`/`Result`.

Where the files disagree with each other, the model follows the code in each
file, with these exceptions and notes:

- `src/parser/node.rs` and `src/parser/tree.rs` are out of step.
  `tree.rs:26-33` builds a `NodeConfig` with a `parent_path` that
  `node.rs:54-57` does not declare. The tests of `tree.rs:50-136` expect:
  - a leaf target that includes the parent directories;
  - a link that is an (anchor, path) pair honouring the `link` and `base_dir`
    overrides.

  `node.rs:34-35` only joins the defaults with the key. The model keeps the
  control flow of `node.rs` and carries the context `tree.rs` builds. It
  computes leaves as the tests require (`NewLeaf`), appending each segment to
  the parent path on the way down. `src/config.rs` declares only `link`;
  `TargetConfig` has both optional fields because the tests use both.
- `parser/parser.go` reads a configuration with a string `Link`, `Flatten`
  and `Tags`, the one its tests build. It is not the `config/config.go` in
  this snapshot, so `Parser.Config` and `Configs.Config` are separate records.
- `parser/status.go` declares only `StatusReady`, while `linker/linker.go:16`
  sets `StatusSkip`. `ParserTree.Status` is `Unset | Ready | Skip`.
- The doc comment of `Exclude` (`config/config.go:124`) says an inclusion
  list makes exclusion ineffective. The code applies both filters, so an
  excluded name never survives (`Configs.ExcludeWinsOverInclude`).
- `Set` looks every directory key up in the top-level `Options`
  (`config/config.go:77`). It is modelled as written; see "## Findings".

## Model

| member | source | states |
|---|---|---|
| PathTree.Insert | src/parser/node.rs:21-51 | insertion succeeds exactly when the receiver is a branch, and then yields a branch; a leaf receiver gives `InsertIntoLeaf`, where the Rust code aborts |
| PathTree.InsertIntoLeafFails | src/parser/node.rs:46-50 | inserting any path into a leaf is refused |
| PathTree.InsertEmptyPath | src/parser/node.rs:25 | an empty path leaves the branch unchanged |
| PathTree.InsertIntoEmpty | src/parser/node.rs:39-43 | inserting into a fresh branch builds a single chain of branches ending in the resolved leaf |
| PathTree.InsertStoresUnderFirstSegment | src/parser/node.rs:28-43 | the key set gains the first segment; a one-segment path stores its leaf there, replacing any child; a longer path stores a new chain holding only the inserted remainder |
| PathTree.InsertKeepsOtherChildren | src/parser/node.rs:31-43 | children under keys other than the first segment are unchanged |
| PathTree.ChainLeaves | src/parser/node.rs:39-43 | the only leaf reachable in a freshly built chain is the one at its end |
| PathTree.InsertThenLookup | src/parser/node.rs:22-45 | after inserting a non-empty path, following it from the node reaches the resolved leaf, and the node is still a branch |
| PathTree.InsertDiscardsSiblings | src/parser/node.rs:39-43 | inserting a path of two or more segments makes every other leaf under its first segment unreachable (`foo/baz` after `foo/bar` loses `foo/bar`) |
| PathTree.LeafForFields | src/parser/tree.rs:70-90 | the leaf for a path has the whole path under the source directory as its target, and its link honours the overrides below the parent directories |
| PathTree.Tree.constructor | src/parser/tree.rs:14-18 | a new tree's root is an empty branch |
| PathTree.Tree.With | src/parser/tree.rs:20-37 | the root is replaced by the insertion from an empty parent path, stays a branch, and leads along the path to the resolved leaf; the same tree is returned |
| PathTree.InsertsSingleItem | src/parser/tree.rs:50-68 | `foo` under defaults (`src`, Config) becomes `Leaf{src/foo, (Config, foo)}` |
| PathTree.InsertsNestedItem | src/parser/tree.rs:70-90 | `foo/bar` gives branch `foo` holding `Leaf{src/foo/bar, (Config, foo/bar)}` |
| PathTree.OverrideLink | src/parser/tree.rs:92-113 | a `link` override renames the link to `custom` and leaves the target `src/foo` |
| PathTree.OverrideBaseDir | src/parser/tree.rs:115-136 | a `base_dir` override changes the anchor to Home and leaves the link path `foo` |
| ParserFile.DirIsParentFullPath | parser/file.go:12-32 | for a non-empty path, `Dir` is the `FullPath` of the file with its last segment removed |
| ParserFile.DirBaseFullPath | parser/file.go:12-34 | `Dir` joined with `base` is `FullPath` |
| ParserFile.DirOfShortPath | parser/file.go:13-17 | with fewer than two segments `Dir` is the base directory unchanged |
| ParserFile.FullPathAppend | parser/file.go:26-32 | the full path of a file one segment longer is the full path joined with that segment |
| ParserFile.FileExamples | parser/file_test.go:20-30 | an empty file gives "" for `Dir` and `FullPath`; a bare base directory gives itself for both (also lines 60-70) |
| ParserFile.FileExampleOneSegment | parser/file_test.go:31-37 | `test` + `foo` has `Dir` `test` and `FullPath` `test/foo` (also lines 71-77) |
| ParserFile.FileExampleTwoSegments | parser/file_test.go:38-44 | `test` + `foo/bar` has `Dir` `test/foo` and `FullPath` `test/foo/bar` (also lines 78-84) |
| ParserTree.WalkNodeSpec | parser/tree.go:19-29 | `walk` calls the callback on the nodes of the subtree in pre-order, descending into the node the callback left, stops at the first error and returns it unchanged; without an error it visits every node and returns none. Each visited node is left as the callback left it, and every later node is untouched |
| ParserTree.WalkForestSpec | parser/tree.go:11-16 | the loop over a slice of nodes walks their subtrees one after the other with the same early exit; the visited nodes carry the callback's changes and the nodes after an error are untouched |
| ParserTree.WalkIsPreOrderWithEarlyExit | parser/tree.go:10-17 | `Tree.Walk` visits the root's descendants in pre-order up to and including the first failing one, whose error it returns; the tree afterwards holds the callback's changes to the visited nodes, the other nodes and the root unchanged |
| ParserTree.PreOrderSize | parser/tree.go:10-29 | the pre-order listing has one entry per node |
| ParserTree.RootNotVisited | parser/tree.go:10-16 | the root itself is never passed to the callback |
| Parser.ExpandAll | parser/parser.go:44-46 | each target is replaced by its `expandVar`, in place and in order |
| Parser.ApplyOptionsAfterError | parser/parser.go:31-35 | once an option has failed, later options change nothing |
| Parser.ConfigParser.Parse | parser/parser.go:30-38 | the options are applied in order; the first error aborts with no tree, keeping what the failing option wrote to the parser; otherwise the tree's root holds `parseChildren` of the configuration |
| Parser.ConfigParser.ParseChildren | parser/parser.go:40-82 | the children are those of the expanded, sorted targets (`ChildrenOf`) |
| Parser.ConfigParser.ParseSorted | parser/parser.go:49-79 | the loop over the sorted targets appends the child of each target its tags keep, in order |
| Parser.ConfigParser.ParseChild | parser/parser.go:50-78 | one round: the target's options, or the default configuration, filtered by tags, inheriting `UseHome` and `BaseDir`, parsed with the target appended to both paths |
| Parser.ConfigParser.ExpandTargets | parser/parser.go:44-46 | the first loop rewrites every target with `expandVar` |
| Parser.ConfigParser.ShouldInclude | parser/parser.go:54-68 | a target is kept when it has no tags, or when some tag is selected and one of its tags is among them |
| Parser.ConfigParser.ParseTarget | parser/parser.go:84-108 | the node of one target: target `File{cwd, targets}`, link renamed and flattened, base directory resolved by mode, children parsed below it |
| ParserProperties.KeptMembers | parser/parser.go:54-68 | a target is kept exactly when it is listed and selected by its tags: untagged targets always, tagged ones only when one of their tags is selected |
| ParserProperties.KeptSorted | parser/parser.go:47-68 | filtering by tags keeps the sorted order |
| ParserProperties.ChildrenAreKeptTargets | parser/parser.go:49-79 | the loop builds exactly one node per kept target, in order, each the node of that target |
| ParserProperties.ChildNamesSpec | parser/parser.go:44-68 | the children's names are sorted, and are exactly the expanded targets that their tags select |
| ParserProperties.ChildrenOfSpec | parser/parser.go:40-82 | `parseChildren` gives one child per name of `ChildNames`, in that order |
| ParserProperties.LinkPathRules | parser/parser.go:86-97 | `Link` replaces the last link segment; `Flatten` drops it; otherwise the link path is unchanged |
| ParserProperties.BaseDirRules | parser/parser.go:98-104 | an explicit base directory wins; otherwise `useHome` true selects the home directory and anything else the user directory |
| ParserProperties.ChildOfTarget | parser/parser.go:69-106 | a child's target path is its parent's plus its name; its link path is the parent's link path plus its name, renamed or flattened; its base directory and `useHome` are inherited when unset |
| ParserProperties.TargetFields | parser/parser.go:84-107 | the fields `parseTarget` sets: target file, link file and children |
| ParserProperties.ParsedPathsExtend | parser/parser.go:76-106 | in the whole tree each node's target path is its parent's plus one name, and its link path extends the parent's |
| ParserProperties.OptionsStopAtFirstError | parser/parser.go:31-35 | with an error, every earlier option succeeded, and the error and the settings are those the failing option returned on the settings the earlier ones left; without one every option succeeded |
| ParserProperties.SetterOptions | parser/parser.go:120-147 | `Cwd`, `BaseDirs`, `Envsubst` and `Tags` never fail and each sets only its own field |
| ParserProperties.PlainChild | parser/parser.go:50-74 | a target without options becomes a childless node under the inherited base directory |
| ParserProperties.ParsesTwoTargetsSorted | parser/parser_test.go:45-67 | targets `foo`, `bar` come out as `bar`, `foo`, both linked under `test` |
| ParserProperties.UntaggedParseDropsTagged | parser/parser_test.go:504-527 | with no tags selected, a tagged target `bar` (tagged `test` in the test) is dropped and only `foo` is parsed |
| ParserProperties.TaggedParseKeepsTagged | parser/parser_test.go:528-589 | selecting any one of `bar`'s tags (`test` of `test`, `test_tag` of `test`, `test_tag` in the tests) keeps it, sorted before `foo` |
| Configs.New | config/config.go:24-53 | the options are applied in order to a zero configuration, and its targets are the input names the filters keep, in order |
| Configs.NewKeepsOrder | config/config.go:29-51 | the kept targets are an order-preserving subsequence of the input, no longer than it |
| Configs.NewMembership | config/config.go:30-50 | a name survives exactly when it is listed, not empty, not the skip name, not hidden unless allowed, in the include set if that is non-empty, and not excluded |
| Configs.ExcludeWinsOverInclude | config/config.go:39-48 | an excluded name never survives, whichever of `Include` and `Exclude` comes first |
| Configs.HiddenDroppedByDefault | config/config.go:36-37 | without `IncludeHidden`, every dot-prefixed name is dropped |
| Configs.IncludeHiddenKeeps | config/config.go:117-121 | `IncludeHidden` lets a listed dot-prefixed name through |
| Configs.MergeWithKeepsFilters | config/config.go:102-108 | `MergeWith(c)` takes every public field of `c` and keeps the filters already set |
| Configs.Set | config/config.go:56-91 | `Set` leaves the configuration `SetSpec` describes, the key loop included |
| Configs.SetEmptyPathReplaces | config/config.go:58-63 | `Set("", o)` replaces the whole configuration with `o` |
| Configs.SetNameStores | config/config.go:64-68 | `Set(name, o)` stores `o` unmerged under `Options[name]`, creating the map if nil; other entries and fields are untouched |
| Configs.SetMissingDirUnchanged | config/config.go:76-79 | `Set(dir/name, o)` changes nothing when `dir` is not a top-level option |
| Configs.SetUnderDir | config/config.go:76-90 | `Set(dir/name, o)` stores `o` under `dir`'s `Options[name]`; an entry without `Options` is first replaced by a copy keeping only `BaseDir`, `Link` and `Targets`; everything else is untouched |
| Configs.SetPathReaches | config/config.go:76-90 | the descending key loop stores `o` at the full path whenever every directory on it exists |
| Configs.SetKeysOneLevelAgrees | config/config.go:76-90 | for a single directory level the loop as written and the descending loop agree |
| Configs.SetNestedIgnored | config/config.go:77 | as written, `Set("a/b/x", o)` with `b` nested under `a` changes nothing, while the descending loop stores `o` at `a/b/x` |
| Filters.Filter | cmd/plg/read.go:18-34 | the filter keeps exactly the accepted names and is no longer than its input |
| Filters.FilterSubsequence | cmd/plg/read.go:18-34 | the filter's result is a subsequence of its input |
| ReadModes.ReadMode.Resolve | cmd/plg/read.go:17-35 | the result is the admitted file names in listing order; the flags are not changed |
| ReadModes.EmptyNeverEligible | cmd/plg/read.go:21 | an empty name is never eligible |
| ReadModes.HiddenRule | cmd/plg/read.go:21 | a dot-prefixed name is eligible only with `hidden` set, and with it set is eligible when nothing else excludes it |
| ReadModes.IncludeRule | cmd/plg/read.go:24-28 | with a non-empty include set, every eligible name is in it |
| ReadModes.ExcludeWins | cmd/plg/read.go:29-31 | an excluded name is never eligible, hidden or included as it may be |
| ReadModes.ResolveKeepsOrder | cmd/plg/read.go:18-34 | the result is an order-preserving subsequence of the listing, no longer than it |
| CommaFlags.CommaList.Set | cmd/plg/misc.go:13-16 | the list is replaced by the pieces of the value split on `,` |
| CommaFlags.ListStringAfterSet | cmd/plg/misc.go:13-18 | `String()` after `Set(v)` gives back exactly `v` |
| CommaFlags.ListSetAfterString | cmd/plg/misc.go:13-18 | `Set(String())` gives the list back when it is non-empty and no item holds a comma |
| CommaFlags.ListEmptyNotRestored | cmd/plg/misc.go:13-18 | an empty list prints as "", which reads back as one empty item |
| CommaFlags.CommaSet.Set | cmd/plg/misc.go:22-31 | a nil set is allocated; the members afterwards are the old ones plus every piece of the value |
| CommaFlags.CommaSet.String | cmd/plg/misc.go:33-40 | the output is the members in ascending order joined by commas |
| CommaFlags.SetTwice | cmd/plg/misc.go:22-31 | calling a flag's `Set(v)` twice leaves the members one call gives: the old ones plus the pieces of `v` |
| CommaFlags.SetOrderIndependent | cmd/plg/misc.go:22-31 | two flags with the same members end with the same members after `Set(a)`, `Set(b)` on one and `Set(b)`, `Set(a)` on the other |
| CommaFlags.RenderParses | cmd/plg/misc.go:22-40 | the printed set splits back into its members, ascending and each once, so `Set(String())` rebuilds a non-empty set without commas |
| CommaFlags.RenderEmpty | cmd/plg/misc.go:33-40 | an empty set prints as "", which reads back as the set holding "" |
| Strings.Sort | parser/parser.go:47 | `sort.Strings` leaves the same strings in ascending order |
| Strings.SortPermutationInvariant | cmd/plg/misc.go:33-40 | the sorted result depends only on which strings are given, not on the order a map range yields them |
| Strings.CollectSorted | cmd/plg/misc.go:34-38 | collecting a set's members and sorting them gives the set's members in ascending order (`SortedKeys`) |
| MemFs.InMemoryDriver.Find | fs/fstest/in_memory_driver.go:140-155 | `find` walks the segments from the root, each looked up in the previous file's children, and fails with `ErrNotExist` at the first missing one |
| MemFs.InMemoryDriver.MkdirAll | fs/fstest/in_memory_driver.go:157-188 | the new tree and the error are those of `MkdirAllSpec` (root allocated, segments made) |
| MemFs.InMemoryDriver.ReadDir | fs/fstest/in_memory_driver.go:46-61 | the directory's entries sorted by name, or the lookup error, or `ErrNotDir` for a file |
| MemFs.InMemoryDriver.Entries | fs/fstest/in_memory_driver.go:54-59 | the children collected and sorted form the listing |
| MemFs.InMemoryDriver.Stats | fs/fstest/in_memory_driver.go:55-58 | one `FileStat` per name, each with its own entry, in order |
| MemFs.InMemoryDriver.ReadFile | fs/fstest/in_memory_driver.go:65-71 | the data of the file found, or the lookup error |
| MemFs.InMemoryDriver.Stat | fs/fstest/in_memory_driver.go:75-81 | a missing file gives the zero `FileStat` and no error; otherwise what `find` gives |
| MemFs.InMemoryDriver.Create | fs/fstest/in_memory_driver.go:107-138 | the new tree and the error are those of `CreateSpec` |
| MemFs.InMemoryDriver.Symlink | fs/fstest/in_memory_driver.go:85-93 | `create` of a link to `oldname` with `ModePerm`, making the parents |
| MemFs.InMemoryDriver.WriteFile | fs/fstest/in_memory_driver.go:97-105 | `create` of a data file with the given perm, overwriting allowed |
| MemFsProperties.FindSpec | fs/fstest/in_memory_driver.go:140-155 | `find(dirs/name)` succeeds exactly when every directory on the way exists and holds `name`, returning that entry under its name; its only error is `ErrNotExist` |
| MemFsProperties.DirPathFound | fs/fstest/in_memory_driver.go:140-155 | every directory on a path of directories is found as a directory |
| MemFsProperties.FindAfterPut | fs/fstest/in_memory_driver.go:131-136 | after `parent[name] = f` in an existing directory, `find` returns `f` there |
| MemFsProperties.MkdirSkipsEmpty | fs/fstest/in_memory_driver.go:166-169 | `mkdirAll` ignores empty segments |
| MemFsProperties.MkdirFailsIff | fs/fstest/in_memory_driver.go:170-175 | `mkdirAll` fails exactly when a non-directory lies on the path, and then with `ErrExist` |
| MemFsProperties.MkdirMakesDirs | fs/fstest/in_memory_driver.go:166-186 | after a successful `mkdirAll` every non-empty segment is a directory |
| MemFsProperties.MkdirIdempotent | fs/fstest/in_memory_driver.go:170-176 | `mkdirAll` of existing directories changes nothing |
| MemFsProperties.MkdirFresh | fs/fstest/in_memory_driver.go:176-185 | in an empty directory `mkdirAll` makes one fresh directory (`ModePerm`, empty children) per non-empty segment, nested |
| MemFsProperties.MkdirAllTwice | fs/fstest/in_memory_driver.go:157-188 | a second `MkdirAll` of the same path leaves the tree and the error as the first did |
| MemFsProperties.ListingSpec | fs/fstest/in_memory_driver.go:54-60 | the listing holds each entry once under its own name, in strictly ascending name order |
| MemFsProperties.ReadDirErrors | fs/fstest/in_memory_driver.go:46-53 | `ReadDir` of a file gives `ErrNotDir`, of a missing path `ErrNotExist` |
| MemFsProperties.StatNeverFails | fs/fstest/in_memory_driver.go:75-81 | `Stat` never fails; a missing file gives a `FileStat` that neither exists nor is a directory |
| MemFsProperties.LookupOnlyMisses | fs/fstest/in_memory_driver.go:146-153 | the only error `find` reports is `ErrNotExist` |
| MemFsProperties.CreateExisting | fs/fstest/in_memory_driver.go:112-115 | `create` of an existing file without overwrite, or onto a directory, fails with `ErrExist` and changes nothing |
| MemFsProperties.CreateMissing | fs/fstest/in_memory_driver.go:108-132 | `create` of a missing file goes straight to storing it, the root allocated if nil |
| MemFsProperties.CreateOverwrite | fs/fstest/in_memory_driver.go:112-136 | overwriting a file that is not a directory stores the new file with the old perm |
| MemFsProperties.SymlinkExisting | fs/fstest/in_memory_driver.go:85-93 | `Symlink` onto an existing name fails with `ErrExist` and changes nothing |
| MemFsProperties.StoreMkdir | fs/fstest/in_memory_driver.go:119-136 | with no file in the way, making the parents and storing succeeds and `find` then returns the stored file |
| MemFsProperties.SymlinkCreates | fs/fstest/in_memory_driver.go:85-138 | `Symlink` to a missing name succeeds, making the parents, and `find` then returns a link to `oldname` with `ModePerm` |
| MemFsProperties.SymlinkBlocked | fs/fstest/in_memory_driver.go:123-130 | `Symlink` below a file that is not a directory fails with `ErrExist`, and only a nil root gets allocated |
| MemFsProperties.StoreFind | fs/fstest/in_memory_driver.go:119-136 | storing into an existing parent directory succeeds and `find` then returns the stored file |
| MemFsProperties.WriteFileCreates | fs/fstest/in_memory_driver.go:97-136 | `WriteFile` of a new file in an existing directory stores its data with the given perm |
| MemFsProperties.WriteFileOverwrites | fs/fstest/in_memory_driver.go:112-136 | `WriteFile` over an existing file replaces its data but keeps its old perm |
| MemFsProperties.WriteFileOnDir | fs/fstest/in_memory_driver.go:112-115 | `WriteFile` onto a directory fails with `ErrExist` and changes nothing |
| MemFsProperties.WriteFileUnderFile | fs/fstest/in_memory_driver.go:127-136 | `WriteFile` below a file that is not a directory reaches a write into a nil map: a Go panic |
| TreeWriter.Writer.constructor | parser/internal/treewriter/writer.go:15-17 | the writer holds the root and has written nothing yet |
| TreeWriter.Writer.Write | parser/internal/treewriter/writer.go:19-41 | the stream gains a `.` and then the tree rendered from the root with no columns |
| TreeWriter.Writer.WriteIndent | parser/internal/treewriter/writer.go:45-63 | the loop over `lastlist` writes the ancestors' columns and then the node's own |
| TreeWriter.Writer.WriteNode | parser/internal/treewriter/writer.go:43-87 | `write` appends the node's line and then each child's subtree with its last-child flag |
| TreeWriter.Writer.WriteKids | parser/internal/treewriter/writer.go:77-85 | the loop over the children appends each child's subtree, only the last flagged as last |
| TreeWriter.RenderIsLines | parser/internal/treewriter/writer.go:43-87 | the output is one newline-ended line per node, in pre-order, each its columns and label |
| TreeWriter.EntriesSize | parser/internal/treewriter/writer.go:72-86 | there are as many lines as nodes |
| TreeWriter.EntriesExtendFlags | parser/internal/treewriter/writer.go:77-85 | a node's line comes first, and every line below it extends its flags, so descendants are drawn inside its columns |
| TreeWriter.ColumnsShape | parser/internal/treewriter/writer.go:57-62 | each ancestor takes four characters, a bar or blanks by that ancestor's own flag |
| TreeWriter.IndentShape | parser/internal/treewriter/writer.go:45-63 | a line starts with one column per ancestor and then a corner for a last child or a tee otherwise |
| TreeWriter.LinesNewlines | parser/internal/treewriter/writer.go:72-76 | with one-line texts, each printed line holds exactly one newline |
| TreeWriter.WriteShape | parser/internal/treewriter/writer.go:32-86 | the output starts with `.`; the root's text follows after a space only if non-empty; there are as many newlines as nodes |
| TreeWriter.RenderTwo | parser/internal/treewriter/writer.go:77-85 | of two siblings the first is drawn with a tee and the second with a corner |
| TreeWriter.RenderRoot | parser/internal/treewriter/writer.go:45-71 | the root line is the root's label alone |
| TreeWriter.RenderTopLeaf | parser/internal/treewriter/writer.go:46-71 | a leaf under the root is its corner or tee, a space and its text |
| TreeWriter.FlatExample | internal/treewriter/writer_test.go:17-30 | a root `root` with leaves `foo`, `bar` prints `. root`, `├── foo`, `└── bar` |
| TreeWriter.NestedExample | internal/treewriter/writer_test.go:31-56 | nested children print under a bar column for a non-last parent and blanks for a last one |
| Linker.Linker.constructor | linker/linker.go:11 | the linker keeps the file-system query it is given |
| Linker.Linker.Resolve | linker/linker.go:14-27 | the node and the error afterwards are those of `ResolveSpec` |
| Linker.ParentSkipped | linker/linker.go:15-18 | a node with children is skipped with no error, whatever the file system says |
| Linker.QueriesLinkPath | linker/linker.go:19 | only the file system's answer for the link's full path matters |
| Linker.QueryErrorPassedOn | linker/linker.go:19-22 | a failed query is returned as is and the node keeps its status |
| Linker.LeafStatus | linker/linker.go:23-26 | a leaf whose link does not exist becomes ready; one whose link exists is unchanged; no error |
| Linker.OnlyStatusChanges | linker/linker.go:14-27 | only the status changes, and an error is returned exactly when a leaf's query fails |
| Linker.ResolveWalk | linker/linker.go:13-27 | `Resolve` as a walk callback keeps every node's children; a walk with it that returns no error leaves every parent skipped, every node's files unchanged and every leaf with the status its link's query gives |
| Linker.ResolveIdempotent | linker/linker.go:14-27 | resolving again against the same file system changes nothing more |
| Linker.OneConflict | linker/conflict_error.go:10-20 | one error reads "linker: there is 1 conflict" |
| Linker.OtherCounts | linker/conflict_error.go:10-22 | any other count, zero included, reads "linker: there are <count> conflicts" |
| Linker.CountOnlyMatters | linker/conflict_error.go:11 | the message depends on the number of errors only |
| Linker.MessageDeterminesCount | linker/conflict_error.go:10-14 | equal messages mean equal counts: the count can be read back |
| Linker.MessageExamples | linker/conflict_error_test.go:15-17 | 0, 1 and 2 errors give the expected messages |
| Linker.NinetyNineConflicts | linker/conflict_error_test.go:18 | 99 errors read "linker: there are 99 conflicts" |

## Left out

- Environment substitution: `os.ExpandEnv` reads the process environment, so it is an `Expander` parameter of the parser.
- Go slice and map aliasing is not modelled; paths, configurations and trees are values. In `parser/parser.go:77-78` siblings may share a backing array from depth four on. The parser also writes into the caller's configuration (`c.Targets[i]`, `cc.UseHome`, `cc.BaseDir`); those writes are dropped, and each node gets the values the code computes for it.
- Parser.ConfigParser.Parse: nil and empty slices are not told apart; a node without children has an empty sequence.
- ParserTree.WalkNodeSpec, ParserTree.WalkForestSpec and ParserTree.WalkIsPreOrderWithEarlyExit (and `WalkNode`, `WalkForest`, `Walk`): stated only for callbacks that keep the children of the node they are given (`KeepsChildren`), as `Resolve` does. A Go callback may also replace `n.Children`, which `walk` then reads, or change other nodes through shared pointers; with such a callback Go's walk need not terminate, and it is not modelled.
- FilePath.Join, and through it ParserFile.File.Dir and ParserFile.File.FullPath: Go's `filepath.Join` cleans its result lexically, and the model does not. `.` and `..` elements, trailing separators and doubled separators are kept. So `Cwd("/")` gives a target `//foo` where Go gives `/foo`, and a link `../x` under `home/u` gives `home/u/../x` where Go gives `home/x`.
- ReadModes.ReadMode.Resolve: a directory listing is given by its file names, the only part of `fs.FileInfo` that `resolve` reads.
- CommaFlags.CommaList.Set and CommaFlags.CommaSet.Set: the `error` they return is always nil and is omitted.
- Configs.Set: Go shares nested maps by reference, and the model instead writes back every option along the path. The two agree only while no two entries share an `Options` map. After `Set("a", o)` and `Set("b", o)` with a non-nil `o.Options`, a later `Set("a/x", p)` in Go also gives `b` the entry `x` (`config/config.go:67`, `config/config.go:90`); the model changes only `a`.
- The `MemFs` driver: the model writes back every directory along the path instead of writing through shared maps. The driver never puts one map under two names (`mkdirAll` makes a fresh map for each directory, and files are stored by value), so the tree comes out the same.
- MemFs errors carry no message text (`fmt.Errorf` wrapping), only the error they wrap. A Go run-time panic is the error value `Panic`.
- The `createOpts` bit set is a pair of booleans.
- TreeWriter.Writer.Write: the prelude, the byte counts and stream write errors are not modelled; the stream is a string that is only appended to.
- TreeWriter.NestedExample: its postcondition is written as the five expected lines concatenated, not as the test's raw string literal.
- The third case of the writer's tests (`internal/treewriter/writer_test.go:57-84`) has no lemma of its own; `RenderIsLines`, `IndentShape` and `RenderTwo` cover its shape.
- PathTree.Insert: a Rust `PathBuf` is taken directly as its list of segments. What `path.iter()` does is not modelled: dropping empty and interior `.` components, and yielding a leading `/` as a component of its own. `Path::join` with an absolute key, which replaces the base instead of extending it, is not modelled either.
- The `Node` interface of the tree writer is a datatype holding each node's text and children.
- `os.FileMode` is a 32-bit newtype; its mode bits have no meaning in the model.
- The command-line layer, the YAML encoding, the real file system drivers and the test doubles are not part of this model.
- `CurrentDir` and `AbsPath` of the file system interface are not part of this revision of the in-memory driver.

## Findings

| source | as written | input that shows it | evidently intended | confidence | as-written member | corrected member |
|---|---|---|---|---|---|---|
| config/config.go:77 | every directory key of `Set`'s path is looked up in the top-level `Options`, so a path two directories deep never reaches the nested option | `Set("a/b/x", o)` on a configuration whose option `a` holds an option `b`, with no top-level `b`: nothing is stored | the key loop descends into the option it just found, so `o` is stored at `a/b/x` | medium, not executed | Configs.SetNestedIgnored | Configs.SetPathReaches |

`Configs.Set` keeps the behaviour as written, because it models the code.
`Configs.SetPath` is the descending loop. `Configs.SetKeysOneLevelAgrees`
shows the two agree for one directory level, which is all the tests of `Set`
use.
