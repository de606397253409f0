/**
 The copier drops the result of each child copy, so a failed seek inside a
 child leaves that child's START unclosed while the copy still reports
 success. This module exhibits that on a two-node tree and defines the
 copier with the child's failure propagated, which reports failure exactly
 when some seek in the subtree fails, agrees with the copier as written
 whenever it succeeds, and only ever succeeds with a well-nested stream.
 */
module DirTreeCopyChecked {
  import opened FiffTypes
  import opened DirTreeCopy
  import opened DirTreeCopyFacts

  /** As written: a block whose only child cannot seek its one entry is
      copied as START(1) START(2) END(1) — the child is never closed — and
      the copy reports success. */
  lemma ChildFailureHidden(c: Codec, inId: FiffId, e: DirEntry)
    requires !Skipped(e.kind) && !c.seekOk(e.pos)
    ensures var child := DirTree(2, ClearedId, ClearedId, [e], 1, -1, [], 0);
      var parent := DirTree(1, ClearedId, ClearedId, [], 0, -1, [child], 1);
      var r := CopyTree(c, inId, [parent]);
      && r.ok
      && r.out == [BlockStart(1), BlockStart(2), BlockEnd(1)]
      && !WellNested(r.out)
  {
    var child := DirTree(2, ClearedId, ClearedId, [e], 1, -1, [], 0);
    var parent := DirTree(1, ClearedId, ClearedId, [], 0, -1, [child], 1);
    assert OwnEntries(child) == [e];
    assert CopyEntries(c, [e]).out == [];
    assert CopyNode(c, inId, child) == CopyResult(false, [BlockStart(2)]);
    assert CopyChildren(c, inId, parent, 0) == [BlockStart(2)];
    assert CopyNode(c, inId, parent) == CopyResult(true, [BlockStart(1), BlockStart(2), BlockEnd(1)]);
    CopyTreeSingleton(c, inId, parent);
    assert Unwind([BlockStart(1), BlockStart(2), BlockEnd(1)], []) == None;
  }

  /** A node copied with the children's failures propagated: a failing
      child stops the node before its END, as a failing entry does. */
  function CopyNodeChecked(c: Codec, inId: FiffId, n: DirTree): (r: CopyResult)
    requires Indexable(n)
    ensures r.ok <==> SubtreeSeeksOk(c, n)
    ensures r.ok ==> r == CopyNode(c, inId, n)
    decreases n, 1
  {
    var head := [BlockStart(n.block)] + IdRecords(inId, n.id);
    var body := CopyEntries(c, OwnEntries(n));
    SeeksOkIffNoFailure(c, OwnEntries(n));
    if !body.ok then
      CopyResult(false, head + body.out)
    else
      var kids := CopyChildrenChecked(c, inId, n, 0);
      if !kids.ok then CopyResult(false, head + body.out + kids.out)
      else CopyResult(true, head + body.out + kids.out + [BlockEnd(n.block)])
  }

  /** The children from index `p`, stopping at the first that fails. */
  function CopyChildrenChecked(c: Codec, inId: FiffId, n: DirTree, p: nat): (r: CopyResult)
    requires Indexable(n) && p <= |n.children|
    ensures r.ok <==> ChildrenSeekOk(c, n, p)
    ensures r.ok ==> r.out == CopyChildren(c, inId, n, p)
    decreases n, 0, |n.children| - p
  {
    if p >= n.nchild || p == |n.children| then CopyResult(true, [])
    else
      var first := CopyNodeChecked(c, inId, n.children[p]);
      if !first.ok then first
      else
        var rest := CopyChildrenChecked(c, inId, n, p + 1);
        CopyResult(rest.ok, first.out + rest.out)
  }

  /** Every node of the list from index `k` has a subtree whose seeks all
      succeed. */
  predicate NodesSeekOk(c: Codec, nodes: seq<DirTree>, k: nat)
    requires k <= |nodes| && AllIndexable(nodes)
    decreases |nodes| - k
  {
    k == |nodes| || (SubtreeSeeksOk(c, nodes[k]) && NodesSeekOk(c, nodes, k + 1))
  }

  lemma {:induction false} NodesSeekOkIffAll(c: Codec, nodes: seq<DirTree>, k: nat)
    requires k <= |nodes| && AllIndexable(nodes)
    ensures NodesSeekOk(c, nodes, k) <==> forall i :: k <= i < |nodes| ==> SubtreeSeeksOk(c, nodes[i])
    decreases |nodes| - k
  {
    if k < |nodes| {
      NodesSeekOkIffAll(c, nodes, k + 1);
    }
  }

  /** The node list from index `k`, stopping at the first that fails. */
  function CopyNodesChecked(c: Codec, inId: FiffId, nodes: seq<DirTree>, k: nat): (r: CopyResult)
    requires k <= |nodes| && AllIndexable(nodes)
    ensures r.ok <==> NodesSeekOk(c, nodes, k)
    ensures r.ok ==> r == CopyNodes(c, inId, nodes, k)
    decreases |nodes| - k
  {
    if k == |nodes| then CopyResult(true, [])
    else
      var first := CopyNodeChecked(c, inId, nodes[k]);
      if !first.ok then first
      else
        var rest := CopyNodesChecked(c, inId, nodes, k + 1);
        CopyResult(rest.ok, first.out + rest.out)
  }

  /** `copy_tree` with child failures propagated: it succeeds exactly when
      the list is non-empty and no seek in any of its subtrees fails, and
      then writes what the copier as written writes. */
  function CopyTreeChecked(c: Codec, inId: FiffId, nodes: seq<DirTree>): (r: CopyResult)
    requires AllIndexable(nodes)
    ensures |nodes| == 0 ==> !r.ok && r.out == []
    ensures r.ok <==> |nodes| > 0 && forall i :: 0 <= i < |nodes| ==> SubtreeSeeksOk(c, nodes[i])
    ensures r.ok ==> r == CopyTree(c, inId, nodes)
  {
    if |nodes| == 0 then CopyResult(false, [])
    else
      NodesSeekOkIffAll(c, nodes, 0);
      CopyNodesChecked(c, inId, nodes, 0)
  }

  /** Whenever the corrected copier reports success for a tree, the stream
      it wrote is well nested. */
  lemma CheckedSuccessIsWellNested(c: Codec, inId: FiffId, n: DirTree)
    requires Indexable(n)
    ensures CopyTreeChecked(c, inId, [n]).ok ==> WellNested(CopyTreeChecked(c, inId, [n]).out)
  {
    if CopyTreeChecked(c, inId, [n]).ok {
      assert SubtreeSeeksOk(c, [n][0]);
      CopyTreeWellNested(c, inId, n);
    }
  }
}
