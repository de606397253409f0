/**
 The tree copier `copy_tree`: re-emits a list of nodes, each as START,
 identity records, its own entries re-read from the source stream, its
 children, END. The destination stream is the sequence of records written;
 what was written before a failure stays written.
 */
module DirTreeCopy {
  import opened FiffTypes

  /** One record written to the destination stream. */
  datatype Record =
    | BlockStart(block: int)                             // start_block
    | BlockEnd(block: int)                               // end_block
    | IdTag(kind: int, id: FiffId)                       // write_id(kind, id)
    | NewIdTag(kind: int)                                // write_id(kind): a freshly made id
    | DataTag(kind: int, typ: int, next: int, data: seq<byte>)  // a copied tag; its size is |data|

  /** Every node of the list is indexable. */
  predicate AllIndexable(nodes: seq<DirTree>)
  {
    forall i :: 0 <= i < |nodes| ==> Indexable(nodes[i])
  }

  /** The outcome of a copy: the boolean the source returns and the records
      written, whether or not it succeeded. */
  datatype CopyResult = CopyResult(ok: bool, out: seq<Record>)

  /** Entries of these kinds are never copied: the copy gets new identities. */
  predicate Skipped(kind: int)
  {
    kind == FIFF_BLOCK_ID || kind == FIFF_PARENT_BLOCK_ID || kind == FIFF_PARENT_FILE_ID
  }

  /** The record written for an entry: the tag read at its position, with
      the "next" link reset to sequential. */
  function Copied(c: Codec, e: DirEntry): Record
  {
    var tag := c.tagAt(e.pos);
    DataTag(tag.kind, tag.typ, FIFFV_NEXT_SEQ, tag.data)
  }

  /** The identity records written after START when the node has an id. */
  function IdRecords(inId: FiffId, id: FiffId): seq<Record>
  {
    if id.version == -1 then []
    else
      (if inId.version != -1 then [IdTag(FIFF_PARENT_FILE_ID, inId)] else [])
      + [NewIdTag(FIFF_BLOCK_ID), IdTag(FIFF_PARENT_BLOCK_ID, id)]
  }

  /** None for a node without an id; otherwise a fresh BLOCK_ID and the
      node's id as PARENT_BLOCK_ID, preceded by the input file's id as
      PARENT_FILE_ID exactly when that is present too. */
  lemma IdRecordsFraming(inId: FiffId, id: FiffId)
    ensures var rs := IdRecords(inId, id);
      && (id.version == -1 ==> rs == [])
      && (id.version != -1 ==>
            && |rs| >= 2
            && rs[|rs| - 2..] == [NewIdTag(FIFF_BLOCK_ID), IdTag(FIFF_PARENT_BLOCK_ID, id)])
      && (IdTag(FIFF_PARENT_FILE_ID, inId) in rs <==> id.version != -1 && inId.version != -1)
  {
  }

  // ---- Reference definitions of the body, as a filter followed by a map ----

  /** The entries that get copied, in order. */
  function Kept(es: seq<DirEntry>): seq<DirEntry>
  {
    if es == [] then []
    else (if Skipped(es[0].kind) then [] else [es[0]]) + Kept(es[1..])
  }

  /** The copied entries are exactly the listed entries of a copied kind. */
  lemma {:induction false} KeptMembers(es: seq<DirEntry>)
    ensures forall k :: 0 <= k < |Kept(es)| ==> !Skipped(Kept(es)[k].kind)
    ensures forall e :: e in Kept(es) <==> e in es && !Skipped(e.kind)
  {
    if es != [] {
      KeptMembers(es[1..]);
      var h := if Skipped(es[0].kind) then [] else [es[0]];
      assert Kept(es) == h + Kept(es[1..]);
      assert es == [es[0]] + es[1..];
    }
  }

  /** The records for a list of entries, one each, in order. */
  function RecordsOf(c: Codec, es: seq<DirEntry>): (rs: seq<Record>)
    ensures |rs| == |es|
    ensures forall k :: 0 <= k < |es| ==> rs[k] == Copied(c, es[k])
  {
    if es == [] then [] else [Copied(c, es[0])] + RecordsOf(c, es[1..])
  }

  /** Every copied entry can be sought in the source. */
  predicate SeeksOk(c: Codec, es: seq<DirEntry>)
  {
    forall k :: 0 <= k < |es| && !Skipped(es[k].kind) ==> c.seekOk(es[k].pos)
  }

  /** The index of the first copied entry whose seek fails, or `|es|`. */
  function FirstFailure(c: Codec, es: seq<DirEntry>): (f: nat)
    ensures f <= |es|
    ensures f < |es| ==> !Skipped(es[f].kind) && !c.seekOk(es[f].pos)
    ensures forall k :: 0 <= k < f && !Skipped(es[k].kind) ==> c.seekOk(es[k].pos)
  {
    if es == [] then 0
    else if !Skipped(es[0].kind) && !c.seekOk(es[0].pos) then 0
    else 1 + FirstFailure(c, es[1..])
  }

  /** All seeks succeed exactly when no copied entry fails. */
  lemma SeeksOkIffNoFailure(c: Codec, es: seq<DirEntry>)
    ensures SeeksOk(c, es) <==> FirstFailure(c, es) == |es|
  {
  }

  // ---- The copier as written ----

  /** The loop over a node's own entries: skip identity tags, seek, copy;
      a failed seek stops at once. It writes the kept entries that precede
      the first failing one, and succeeds when there is no failing one. */
  function CopyEntries(c: Codec, es: seq<DirEntry>): (r: CopyResult)
    ensures r.ok <==> FirstFailure(c, es) == |es|
    ensures r.out == RecordsOf(c, Kept(es[..FirstFailure(c, es)]))
  {
    if es == [] then CopyResult(true, [])
    else if Skipped(es[0].kind) then
      var rest := CopyEntries(c, es[1..]);
      assert es[..FirstFailure(c, es)][1..] == es[1..][..FirstFailure(c, es[1..])];
      rest
    else if !c.seekOk(es[0].pos) then
      CopyResult(false, [])
    else
      var rest := CopyEntries(c, es[1..]);
      var f := FirstFailure(c, es);
      assert es[..f][1..] == es[1..][..FirstFailure(c, es[1..])];
      assert Kept(es[..f]) == [es[0]] + Kept(es[1..][..FirstFailure(c, es[1..])]);
      CopyResult(rest.ok, [Copied(c, es[0])] + rest.out)
  }

  /** Only data records come out of the entry loop, each marked sequential. */
  lemma RecordsOfAreData(c: Codec, es: seq<DirEntry>)
    ensures forall k :: 0 <= k < |RecordsOf(c, es)| ==>
      RecordsOf(c, es)[k].DataTag? && RecordsOf(c, es)[k].next == FIFFV_NEXT_SEQ
  {
  }

  /** The per-node body of `copy_tree`. The result of copying each child is
      dropped, so a node fails only through its own entries. */
  function CopyNode(c: Codec, inId: FiffId, n: DirTree): (r: CopyResult)
    requires Indexable(n)
    ensures |r.out| > 0 && r.out[0] == BlockStart(n.block)
    ensures r.ok <==> SeeksOk(c, OwnEntries(n))
    ensures r.ok ==> r.out[|r.out| - 1] == BlockEnd(n.block)
    decreases n, 1
  {
    var head := [BlockStart(n.block)] + IdRecords(inId, n.id);
    var body := CopyEntries(c, OwnEntries(n));
    SeeksOkIffNoFailure(c, OwnEntries(n));
    if !body.ok then
      CopyResult(false, head + body.out)
    else
      CopyResult(true, head + body.out + CopyChildren(c, inId, n, 0) + [BlockEnd(n.block)])
  }

  /** The loop `for p < nchild` copying each child as a one-node list. It
      writes something exactly when a child is left to visit, and then
      begins with that child's START. */
  function CopyChildren(c: Codec, inId: FiffId, n: DirTree, p: nat): (rs: seq<Record>)
    requires Indexable(n) && p <= |n.children|
    ensures |rs| > 0 <==> p < n.nchild && p < |n.children|
    ensures |rs| > 0 ==> rs[0] == BlockStart(n.children[p].block)
    decreases n, 0, |n.children| - p
  {
    if p >= n.nchild || p == |n.children| then []
    else CopyNode(c, inId, n.children[p]).out + CopyChildren(c, inId, n, p + 1)
  }

  /** Every node of the list from index `k` can seek its own copied entries. */
  predicate NodesOwnSeeksOk(c: Codec, nodes: seq<DirTree>, k: nat)
    requires k <= |nodes| && AllIndexable(nodes)
    decreases |nodes| - k
  {
    k == |nodes| || (SeeksOk(c, OwnEntries(nodes[k])) && NodesOwnSeeksOk(c, nodes, k + 1))
  }

  lemma {:induction false} NodesOwnSeeksOkIffAll(c: Codec, nodes: seq<DirTree>, k: nat)
    requires k <= |nodes| && AllIndexable(nodes)
    ensures NodesOwnSeeksOk(c, nodes, k) <==> forall i :: k <= i < |nodes| ==> SeeksOk(c, OwnEntries(nodes[i]))
    decreases |nodes| - k
  {
    if k < |nodes| {
      NodesOwnSeeksOkIffAll(c, nodes, k + 1);
    }
  }

  /** The loop over the node list from index `k`: stop at the first node
      that fails. */
  function CopyNodes(c: Codec, inId: FiffId, nodes: seq<DirTree>, k: nat): (r: CopyResult)
    requires k <= |nodes|
    requires AllIndexable(nodes)
    ensures r.ok <==> NodesOwnSeeksOk(c, nodes, k)
    ensures k < |nodes| ==> |r.out| > 0 && r.out[0] == BlockStart(nodes[k].block)
    decreases |nodes| - k
  {
    if k == |nodes| then CopyResult(true, [])
    else
      var first := CopyNode(c, inId, nodes[k]);
      if !first.ok then first
      else
        var rest := CopyNodes(c, inId, nodes, k + 1);
        CopyResult(rest.ok, first.out + rest.out)
  }

  /** `copy_tree(in, in_id, nodes, out)`: false with nothing written for an
      empty list; otherwise true exactly when every node's own entries can
      be sought, and the output opens with the first node's START. */
  function CopyTree(c: Codec, inId: FiffId, nodes: seq<DirTree>): (r: CopyResult)
    requires AllIndexable(nodes)
    ensures |nodes| == 0 ==> !r.ok && r.out == []
    ensures |nodes| > 0 ==>
      && (r.ok <==> forall i :: 0 <= i < |nodes| ==> SeeksOk(c, OwnEntries(nodes[i])))
      && |r.out| > 0 && r.out[0] == BlockStart(nodes[0].block)
  {
    if |nodes| == 0 then CopyResult(false, [])
    else
      NodesOwnSeeksOkIffAll(c, nodes, 0);
      CopyNodes(c, inId, nodes, 0)
  }
}
