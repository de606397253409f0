# FIFF directory tree, modelled in Dafny

A FIFF file is a stream of tagged records. A flat directory lists them as
`(kind, type, pos, size)` entries. Records of kind BLOCK_START (104) and
BLOCK_END (105) bracket nested blocks. `FiffDirTree` in
`MNE/fiff/fiff_dir_tree.cpp` does four jobs:

- It turns the flat directory into a tree of blocks (`make_dir_tree`).
- It re-serialises a list of subtrees into another stream (`copy_tree`).
- It answers queries: `dir_tree_find`, `find_tag` and `has_tag`.
- It resets a node (`clear`).

This project models those operations as pure Dafny functions and proves
what they guarantee.

The tag codec is abstract: a `Codec` value made of four total functions.
- `tagAt(pos)` is the tag stored at a byte position.
- `toInt` and `toFiffId` decode a tag's payload.
- `seekOk(pos)` says whether the input device can seek to a position.

The stream the copier writes is a `seq<Record>` of START, END, identity and
data records.

Modules:

- `FiffTypes` (`fiff_types.dfy`): tag kinds, `FiffId`, `DirEntry`, `Tag`,
  `DirTree`, `Codec`, the cleared node, and the `for p < nent` view of a
  node's entries.
- `DirTreeBuild` (`dir_tree_build.dfy`): `make_dir_tree`. `Build` is the
  call and `Scan` is its `while` loop; they are mutually recursive.
- `DirTreeLayout` (`dir_tree_layout.dfy`): an independent description of
  the builder's result in terms of bracket depth. It is proved equal to
  `Build`.
- `DirTreeBuildFacts` (`dir_tree_build_facts.dfy`): close behaviour,
  returned index, identities, and small concrete directories.
- `DirTreeQuery` (`dir_tree_query.dfy`): `dir_tree_find`, `find_tag`,
  `has_tag`.
- `DirTreeCopy` (`dir_tree_copy.dfy`): `copy_tree` as written.
- `DirTreeCopyFacts` (`dir_tree_copy_facts.dfy`): framing, body, and the
  bracket structure of the output.
- `DirTreeCopyChecked` (`dir_tree_copy_checked.dfy`): the copier with child
  failures propagated, next to a witness of the as-written behaviour.
- `DirTreeRoundTrip` (`dir_tree_round_trip.dfy`): what `copy_tree` writes,
  listed again as a directory, is rebuilt by `make_dir_tree` into a tree
  with the copied tree's block kinds and child structure.

Behaviour kept exactly as the code has it:

- **The END test reads the START entry's payload.** The test at line 241
  decodes `dir[start].pos`, not the END's own position. So a block opened by
  BLOCK_START closes at its first BLOCK_END at depth 0, whatever that END
  carries. The implicit root closes only if the integer read at its first
  entry is 0.
- **The returned index is the closing END itself, not one past it.**
  `break` skips `++current`. For START(999), FILE_ID, END the call returns
  2 (`DirTreeBuildFacts.FileIdInsideBlock`). A block that never closes
  returns `|dir|` plus the number of nested blocks still open, because each
  level adds one on the way out.
- **Unmatched BLOCK_END entries are dropped.**
- **A child's failed copy is ignored** (see Findings).
- **The tree does not keep the order of a block's entries relative to its
  children.** Two directories that differ only in that order build the same
  tree (`DirTreeBuildFacts.InterleavingLost`). So a tree determines its
  block structure but not the directory it was built from, and the round
  trip runs from tree to stream to tree.

## Model

| member | source | states |
|---|---|---|
| `DirTreeBuild.Build` | MNE/fiff/fiff_dir_tree.cpp:200-288 | The node's block is the START entry's integer payload, or 0 when `dir[start]` is no BLOCK_START. `nent` and `nchild` equal the list lengths, and no block marker is an entry. The identities come from the node's own entries. The returned index is `>= start`, and strictly greater when `dir[start]` is a BLOCK_START. If it is inside the directory, it is a BLOCK_END whose close test held. |
| `DirTreeBuild.Scan` | MNE/fiff/fiff_dir_tree.cpp:227-276 | One run of the scan loop keeps the node well built and its block kind unchanged. It stops inside the directory only on a BLOCK_END whose close test held. |
| `DirTreeBuild.AddEntryKeepsWellBuilt` | MNE/fiff/fiff_dir_tree.cpp:245-273 | Appending a plain entry puts it at the end of `dir`, leaves block and children alone, and keeps the node well built. It takes the identity from the entry when the entry's kind is the identity kind for this block. |
| `DirTreeLayout.NextFrom` | MNE/fiff/fiff_dir_tree.cpp:239-243 | Reference return index. It is the first index at depth 0 holding a BLOCK_END whose close test holds, or `|dir|` plus the depth at the end when there is none. No earlier index closes. |
| `DirTreeLayout.ChildrenFrom` | MNE/fiff/fiff_dir_tree.cpp:229-237 | Reference child starts: strictly increasing BLOCK_START indices after `start`. |
| `DirTreeLayout.DepthShift` | MNE/fiff/fiff_dir_tree.cpp:231-234 | Inside a nested block, the depth relative to the parent is one more than the depth relative to the child. |
| `DirTreeLayout.SkipNested` | MNE/fiff/fiff_dir_tree.cpp:234 | A stretch at positive depth adds no entry, no child and no close to the enclosing node. |
| `DirTreeLayout.ChildSpan` | MNE/fiff/fiff_dir_tree.cpp:231-236 | A child spans up to its own close, and the parent resumes one past it at depth 0. A child that never closes ends the parent one past the child's returned index. |
| `DirTreeLayout.StepRefs` | MNE/fiff/fiff_dir_tree.cpp:239-248 | Past a depth-0 entry that neither opens a child nor closes, the reference return index and children are unchanged, and only a plain entry is owned. |
| `DirTreeLayout.ScanPasses` | MNE/fiff/fiff_dir_tree.cpp:229-244 | The loop steps over the block's own START and over an END whose close test fails, with the node unchanged. |
| `DirTreeLayout.ScanLayout` | MNE/fiff/fiff_dir_tree.cpp:227-276 | A scan from depth 0 adds exactly the plain depth-0 entries and the depth-0 children, and returns the reference index. |
| `DirTreeLayout.ScanPlainLayout` | MNE/fiff/fiff_dir_tree.cpp:245-248 | The plain-entry step of the scan agrees with the depth description. |
| `DirTreeLayout.ScanPassLayout` | MNE/fiff/fiff_dir_tree.cpp:239-244 | The step over an unmatched END or the block's own START agrees with the depth description. |
| `DirTreeLayout.ScanChildLayout` | MNE/fiff/fiff_dir_tree.cpp:229-237 | The nested-START step (recursive build, append, resume one past the returned index) agrees with the depth description. |
| `DirTreeLayout.ScanAfterChild` | MNE/fiff/fiff_dir_tree.cpp:234-275 | After a nested child that closes inside the directory, the scan resumed one past its END still agrees with the depth description, with the child first among the node's children. |
| `DirTreeLayout.BuildLayout` | MNE/fiff/fiff_dir_tree.cpp:200-288 | The built node's `dir` is exactly the plain depth-0 entries in directory order. Its children are the nodes built at the depth-0 BLOCK_STARTs in directory order. The returned index is the reference index. |
| `DirTreeBuildFacts.BlockStartClosesAtFirstEnd` | MNE/fiff/fiff_dir_tree.cpp:239-243 | A START-opened block returns inside the directory iff some BLOCK_END lies at depth 0 after it, whatever that END's payload. It returns the first such END. |
| `DirTreeBuildFacts.RootCloses` | MNE/fiff/fiff_dir_tree.cpp:208-217 | The implicit root returns inside the directory iff the integer decoded at its first entry is 0 and a depth-0 BLOCK_END exists. |
| `DirTreeBuildFacts.UnclosedReturnIndex` | MNE/fiff/fiff_dir_tree.cpp:275-287 | A block that never closes returns `|dir|` plus the number of nested blocks still open at the end. |
| `DirTreeBuildFacts.BuildIdsFromOwnEntries` | MNE/fiff/fiff_dir_tree.cpp:253-273 | `id` and `parent_id` are decoded from the last matching entry among the node's own depth-0 entries, never from a descendant's. They are FILE_ID at block 0, and BLOCK_ID and PARENT_BLOCK_ID elsewhere. |
| `DirTreeBuildFacts.FileIdOnly` | MNE/fiff/fiff_dir_tree.cpp:253-259 | A directory holding one FILE_ID builds a root that owns it and carries its identifier, and returns 1. |
| `DirTreeBuildFacts.FileIdInsideBlock` | MNE/fiff/fiff_dir_tree.cpp:261-273 | For START(999), FILE_ID, END, the FILE_ID is owned but sets no identifier, and the returned index is 2. |
| `DirTreeBuildFacts.NestedPair` | MNE/fiff/fiff_dir_tree.cpp:231-243 | For START START END END, the root has exactly one empty child and returns 3; the child returns 2. |
| `DirTreeBuildFacts.EmptyBlockAt` | MNE/fiff/fiff_dir_tree.cpp:227-243 | START directly followed by END builds a node with no entry and no child, and returns the END's index. |
| `DirTreeBuildFacts.ChildBeforeEntry` | MNE/fiff/fiff_dir_tree.cpp:227-276 | For START START END x END, the root gets the empty child first, then the entry x, and returns 4. |
| `DirTreeBuildFacts.EntryBeforeChild` | MNE/fiff/fiff_dir_tree.cpp:227-276 | For START x START END END, the root gets the entry x first, then the empty child, and returns 4. |
| `DirTreeBuildFacts.InterleavingLost` | MNE/fiff/fiff_dir_tree.cpp:227-276 | The two directories above differ, yet build the same tree and return the same index: entries and children are kept in separate lists. |
| `DirTreeQuery.OfKind` | MNE/fiff/fiff_dir_tree.cpp:296-297 | The order-preserving filter by block kind: membership iff membership in the input with that kind. |
| `DirTreeQuery.DirTreeFind` | MNE/fiff/fiff_dir_tree.cpp:293-304 | Every returned node has the requested kind, and the node itself comes first when it has that kind. |
| `DirTreeQuery.FindFrom` | MNE/fiff/fiff_dir_tree.cpp:299-301 | The children's results contain only nodes of the requested kind. |
| `DirTreeQuery.FindIsPreOrderOfKind` | MNE/fiff/fiff_dir_tree.cpp:293-304 | `dir_tree_find` equals the pre-order listing of the subtree filtered by kind. So it returns every such node once per occurrence, parents before descendants, and nothing else. |
| `DirTreeQuery.FindFromIsPreOrderOfKind` | MNE/fiff/fiff_dir_tree.cpp:299-301 | The same, for the children from index `i`. |
| `DirTreeQuery.FindTwoNested` | MNE/fiff/fiff_dir_tree.cpp:293-304 | On 0 ( 5 ( 5 ) ) ( 7 ), searching for 5 returns the outer node and then the inner one. |
| `DirTreeQuery.HasTag` | MNE/fiff/fiff_dir_tree.cpp:328-334 | True iff some entry in `dir[0..nent)` has the kind (`HasOwnTag`); children are not consulted. |
| `DirTreeQuery.FindTag` | MNE/fiff/fiff_dir_tree.cpp:309-323 | Its boolean equals `HasOwnTag`, so it agrees with `has_tag`. When found, the tag is the one read at the first own entry of the kind. Otherwise the tag is cleared. |
| `FiffTypes.Cleared` | MNE/fiff/fiff_dir_tree.cpp:100-110 | The cleared node has absent block and parent identifiers (version -1), no entries and no children, and negative counters, so every `for p < nent` and `for p < nchild` loop over it visits nothing. |
| `DirTreeQuery.ClearedFindsNothing` | MNE/fiff/fiff_dir_tree.cpp:100-110 | A cleared node holds no entry of any kind, and `dir_tree_find` returns it only for kind -1. |
| `DirTreeCopy.IdRecordsFraming` | MNE/fiff/fiff_dir_tree.cpp:125-132 | No identity records for a node whose id version is -1. Otherwise BLOCK_ID then PARENT_BLOCK_ID(node id), and PARENT_FILE_ID(in_id) is written iff both ids are present. |
| `DirTreeCopy.KeptMembers` | MNE/fiff/fiff_dir_tree.cpp:136-139 | The copied entries are exactly the listed entries whose kind is not BLOCK_ID, PARENT_BLOCK_ID or PARENT_FILE_ID. |
| `DirTreeCopy.FirstFailure` | MNE/fiff/fiff_dir_tree.cpp:144-148 | The index of the first copied entry whose seek fails: every earlier copied entry seeks. |
| `DirTreeCopy.CopyEntries` | MNE/fiff/fiff_dir_tree.cpp:133-185 | The entry loop succeeds iff no copied entry's seek fails. It writes one record per kept entry before the first failure, in order. |
| `DirTreeCopy.RecordsOfAreData` | MNE/fiff/fiff_dir_tree.cpp:179-184 | Every record of the entry loop is a data tag with its next link set to FIFFV_NEXT_SEQ. |
| `DirTreeCopy.CopyNode` | MNE/fiff/fiff_dir_tree.cpp:122-192 | A node's output starts with START(block). It succeeds iff its own entries all seek, whatever its children do, and on success it ends with END(block). |
| `DirTreeCopy.CopyChildren` | MNE/fiff/fiff_dir_tree.cpp:186-191 | The child loop writes something iff a child is left to visit (`p < nchild`), and then begins with that child's START. Its output leaves the open blocks unchanged under `DirTreeCopyFacts.CopyChildrenNest`. |
| `DirTreeCopy.CopyNodes` | MNE/fiff/fiff_dir_tree.cpp:122-193 | The loop over nodes succeeds iff every node's own entries seek, and its output starts with the first node's START. |
| `DirTreeCopy.CopyTree` | MNE/fiff/fiff_dir_tree.cpp:115-195 | An empty list fails and writes nothing. Otherwise the copy succeeds iff every listed node's own entries seek, and the output opens with the first node's START. |
| `DirTreeCopyFacts.CopyNodeHead` | MNE/fiff/fiff_dir_tree.cpp:124-132 | A node's output begins with START followed by exactly its identity records. |
| `DirTreeCopyFacts.CopyNodeFailureUnclosed` | MNE/fiff/fiff_dir_tree.cpp:144-148 | After a failed seek, nothing after START is a block marker: the node's END and its children are never written. |
| `DirTreeCopyFacts.CopyNodeNests` | MNE/fiff/fiff_dir_tree.cpp:122-192 | When no seek anywhere in the subtree fails, the node's copy succeeds, and its records open and close blocks in matching pairs. |
| `DirTreeCopyFacts.CopyChildrenNest` | MNE/fiff/fiff_dir_tree.cpp:186-191 | Under the same condition, the children's records leave the stack of open blocks unchanged. |
| `DirTreeCopyFacts.CopyTreeWellNested` | MNE/fiff/fiff_dir_tree.cpp:115-195 | A single tree with no failing seek copies successfully into a well-nested stream. |
| `DirTreeCopyFacts.CopyTreeSingleton` | MNE/fiff/fiff_dir_tree.cpp:188-190 | Copying the one-element list built for a child is copying that child. |
| `DirTreeCopyFacts.ClearedCopiesEmpty` | MNE/fiff/fiff_dir_tree.cpp:100-110 | Copying a cleared node succeeds and writes exactly START(-1) END(-1): no identity, no entry and no child is written. |
| `DirTreeCopyFacts.CopiedKindsExcludeIds` | MNE/fiff/fiff_dir_tree.cpp:136-139 | When the stored tags carry the kinds the directory lists, no copied record has an identity kind. |
| `DirTreeCopyFacts.CopiedDataInOrder` | MNE/fiff/fiff_dir_tree.cpp:151-184 | On success, the k-th data record carries the kind, type and data of the tag at the k-th kept entry, with next FIFFV_NEXT_SEQ. |
| `DirTreeCopyChecked.ChildFailureHidden` | MNE/fiff/fiff_dir_tree.cpp:186-191 | As written: a parent whose only child cannot seek its entry copies as START(1) START(2) END(1), and the copy still reports success. That stream is not well nested. |
| `DirTreeCopyChecked.CopyNodeChecked` | MNE/fiff/fiff_dir_tree.cpp:122-192 | Corrected node copy: it succeeds iff no seek in the whole subtree fails, and then writes what the code writes. |
| `DirTreeCopyChecked.CopyChildrenChecked` | MNE/fiff/fiff_dir_tree.cpp:186-191 | Corrected children loop: it stops at the first failing child, succeeds iff every child subtree seeks, and then writes what the code writes. |
| `DirTreeCopyChecked.CopyNodesChecked` | MNE/fiff/fiff_dir_tree.cpp:122-193 | Corrected node loop: it succeeds iff every listed subtree seeks, and then agrees with the code. |
| `DirTreeCopyChecked.CopyTreeChecked` | MNE/fiff/fiff_dir_tree.cpp:115-195 | Corrected `copy_tree`: an empty list fails with nothing written. Otherwise it succeeds iff no seek in any listed subtree fails, and then equals the code's output. |
| `DirTreeCopyChecked.CheckedSuccessIsWellNested` | MNE/fiff/fiff_dir_tree.cpp:115-195 | Whenever the corrected copier succeeds on a tree, its output is well nested. |
| `DirTreeRoundTrip.CopyThenRebuild` | MNE/fiff/fiff_dir_tree.cpp:115-288 | A tree with no failing seek in any subtree, and no stored tag of a block-marker kind, copies successfully. If the written records are listed again as a directory, building from index 0 gives a tree with the copied tree's block kind and, recursively, its children's block kinds in order. The build returns the index of the last written record, the final END. |
| `DirTreeRoundTrip.RebuildNode` | MNE/fiff/fiff_dir_tree.cpp:200-288 | The same for one node's copy listed from any index `o`: the build at `o` has the node's shape and returns the index of the copy's END. |
| `DirTreeRoundTrip.NodeListing` | MNE/fiff/fiff_dir_tree.cpp:122-192 | A listed node copy opens with a START entry whose payload decodes to the block kind. Then come only plain entries (identity records and data tags), then the children's copies and the END. |
| `DirTreeRoundTrip.CopyNodeParts` | MNE/fiff/fiff_dir_tree.cpp:122-192 | A node copy whose own seeks succeed is START, identity records, entry records, the children's copies, END. |
| `DirTreeRoundTrip.BodyKindsPlain` | MNE/fiff/fiff_dir_tree.cpp:124-184 | When no stored tag has a block-marker kind, no identity or entry record of a node copy is a block marker. |
| `DirTreeRoundTrip.IdKindsPlain` | MNE/fiff/fiff_dir_tree.cpp:124-132 | Identity records are never block markers. |
| `DirTreeRoundTrip.RebuildFlat` | MNE/fiff/fiff_dir_tree.cpp:227-276 | Over the plain entries of a listed copy, the scan adds no child, then builds exactly the copied children's shapes and stops at the copy's END. |
| `DirTreeRoundTrip.RebuildChildren` | MNE/fiff/fiff_dir_tree.cpp:229-243 | From child `p` on, the scan over the listed children's copies builds one child per copied child with its shape, in order, and stops at the parent's END. |
| `DirTreeRoundTrip.RebuildChild` | MNE/fiff/fiff_dir_tree.cpp:229-275 | The scan at the listed copy of child `p` builds one child with that child's shape and resumes one past the child's END. |
| `DirTreeRoundTrip.ChildListing` | MNE/fiff/fiff_dir_tree.cpp:186-191 | The listed children's copies split into child `p`'s copy, which begins with a START entry, and what follows it. |
| `DirTreeRoundTrip.RebuildNoChild` | MNE/fiff/fiff_dir_tree.cpp:239-243 | Past the last copied child, the scan stops at the listed END with the children it has. |
| `DirTreeRoundTrip.ScanStart` | MNE/fiff/fiff_dir_tree.cpp:204-275 | A build at a START entry starts from the cleared node with the decoded block kind and zero counters, steps over its own START, and scans on from the next index. |
| `DirTreeRoundTrip.ScanPlainStep` | MNE/fiff/fiff_dir_tree.cpp:245-275 | A scan step over a plain entry appends it, keeps the block and children, and keeps the node well built. |
| `DirTreeRoundTrip.ScanChildStep` | MNE/fiff/fiff_dir_tree.cpp:229-275 | A scan step at a nested START appends the child built there and resumes one past the index that build returns. |
| `DirTreeRoundTrip.ScanCloseStep` | MNE/fiff/fiff_dir_tree.cpp:239-287 | A scan step at an END whose close test holds ends the scan there: the node is finished (an empty `dir` is cleared) and the END's index is returned. |

## Left out

- The tag codec's internals are not modelled: `FiffTag::read_tag`, `toInt`, `toFiffID` and QDataStream reads and writes. They are uninterpreted functions of the `Codec`.
- Byte-order conversion is folded into `tagAt`. `convert_tag_data` turns big-endian payload into host order (line 172), and `tagAt` returns the payload already converted. The copier writes that payload unchanged (line 184) under a big-endian header (lines 177-182). So on a little-endian host the copied payload is in host order, not the input's bytes, although the comment at line 142 calls the copy transparent; the model's `DataTag` cannot show this difference.
- Decode failures are not modelled, because the code ignores the result of `read_tag` and uses the tag regardless.
- `FiffStream::start_block`, `end_block` and `write_id` are abstract records. A freshly generated BLOCK_ID is `NewIdTag` and carries no value, because its contents come from the clock and the host.
- `printf` diagnostics, and the copy constructor and destructor, carry no logic.
- `fiff_constants.h` and `fiff_id.cpp` are not part of this model. The tag kinds use the FIFF format's values (FILE_ID 100, BLOCK_ID 103, BLOCK_START 104, BLOCK_END 105, PARENT_FILE_ID 109, PARENT_BLOCK_ID 110, FIFFV_NEXT_SEQ 0). A cleared id is version -1 with all other fields 0.
- DirTreeBuild.Build: integers are unbounded. The 32-bit `qint32` counters and indices of the code are not wrapped, because a directory long enough to overflow them cannot be held in memory.
- DirTreeBuild.Build: `start` must be inside the directory, because the code indexes `p_Dir[start]` without a guard. An empty directory is not a modelled input.
- DirTreeQuery.FindTag: the returned tag is `tagAt` at the entry's position. The shared tag handle, and a handle left unchanged when `read_tag` fails, are not modelled.
- DirTreeRoundTrip.CopyThenRebuild: turning written bytes back into a directory is outside this model, so the listing is the relation `Lists`. It fixes each entry's kind and each START's decoded block kind. The round trip compares block kinds and child structure (`Shape`). It does not compare identities or entry contents: BLOCK_ID is freshly generated, and a data tag's payload goes through the codec.
- DirTreeRoundTrip.CopyThenRebuild: the copied tree must hold no stored tag whose kind is BLOCK_START or BLOCK_END. The copier would write such a tag as a data record, and the rebuild would read it as a bracket.
- DirTreeCopy.CopyTree: the `size` field written for a copied tag is the payload length, so `DataTag` keeps only the payload. The source's `pos`/`size` of the directory entry are not cross-checked against the tag read.

## Findings

| source | as written | input that shows it | evidently intended | confidence | as-written member | corrected member |
|---|---|---|---|---|---|---|
| MNE/fiff/fiff_dir_tree.cpp:190 | The result of copying each child is discarded. A child whose entry cannot be sought stops after its START, and the parent then writes its own END and reports success. | A parent of block 1 whose only child, of block 2, has one copied entry at a position the input device cannot seek to. The output is START(1) START(2) END(1) and the result is true. | The child's failure fails the whole copy, as a failing own entry does. A successful copy is then always well nested. | medium, not executed | `DirTreeCopyChecked.ChildFailureHidden` | `DirTreeCopyChecked.CopyTreeChecked` |
