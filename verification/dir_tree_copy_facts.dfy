/**
 Properties of the copier as written: the one-node calls it makes for
 children, which entries it copies, and the bracket structure of what it
 writes when no seek fails.
 */
module DirTreeCopyFacts {
  import opened FiffTypes
  import opened DirTreeCopy

  // ---- Bracket structure of a record stream ----

  /** Reads records against a stack of open blocks (innermost last): START
      pushes, END must match the innermost open block and pops it; `None`
      means a mismatched or unopened END. */
  function Unwind(rs: seq<Record>, open: seq<int>): Option<seq<int>>
  {
    if rs == [] then Some(open)
    else
      match rs[0]
      case BlockStart(b) => Unwind(rs[1..], open + [b])
      case BlockEnd(b) =>
        if |open| > 0 && open[|open| - 1] == b then Unwind(rs[1..], open[..|open| - 1]) else None
      case _ => Unwind(rs[1..], open)
  }

  /** Continues `Unwind` after a prefix. */
  function Then(o: Option<seq<int>>, rs: seq<Record>): Option<seq<int>>
  {
    match o
    case None => None
    case Some(open) => Unwind(rs, open)
  }

  /** Every START is closed by a matching END, in order. */
  predicate WellNested(rs: seq<Record>)
  {
    Unwind(rs, []) == Some([])
  }

  /** A record that is neither START nor END. */
  predicate Flat(r: Record)
  {
    !r.BlockStart? && !r.BlockEnd?
  }

  lemma {:induction false} UnwindAppend(a: seq<Record>, b: seq<Record>, open: seq<int>)
    ensures Unwind(a + b, open) == Then(Unwind(a, open), b)
    decreases |a|
  {
    if a == [] {
      assert a + b == b;
    } else {
      assert (a + b)[0] == a[0];
      assert (a + b)[1..] == a[1..] + b;
      match a[0]
      case BlockStart(x) => UnwindAppend(a[1..], b, open + [x]);
      case BlockEnd(x) =>
        if |open| > 0 && open[|open| - 1] == x {
          UnwindAppend(a[1..], b, open[..|open| - 1]);
        }
      case _ => UnwindAppend(a[1..], b, open);
    }
  }

  lemma {:induction false} UnwindFlat(rs: seq<Record>, open: seq<int>)
    requires forall k :: 0 <= k < |rs| ==> Flat(rs[k])
    ensures Unwind(rs, open) == Some(open)
    decreases |rs|
  {
    if rs != [] {
      UnwindFlat(rs[1..], open);
    }
  }

  /** The identity and data records of a node contain no block marker. */
  lemma NodeBodyIsFlat(c: Codec, inId: FiffId, id: FiffId, es: seq<DirEntry>)
    ensures forall k :: 0 <= k < |IdRecords(inId, id)| ==> Flat(IdRecords(inId, id)[k])
    ensures forall k :: 0 <= k < |RecordsOf(c, es)| ==> Flat(RecordsOf(c, es)[k])
  {
  }

  // ---- Seeks over a whole subtree ----

  /** Every copied entry of every node the copier visits can be sought. */
  predicate SubtreeSeeksOk(c: Codec, n: DirTree)
    requires Indexable(n)
    decreases n, 1
  {
    SeeksOk(c, OwnEntries(n)) && ChildrenSeekOk(c, n, 0)
  }

  /** `SubtreeSeeksOk` for the children the copier visits from index `p`. */
  predicate ChildrenSeekOk(c: Codec, n: DirTree, p: nat)
    requires Indexable(n) && p <= |n.children|
    decreases n, 0, |n.children| - p
  {
    p >= n.nchild || p == |n.children|
    || (SubtreeSeeksOk(c, n.children[p]) && ChildrenSeekOk(c, n, p + 1))
  }

  /** When no seek in the subtree fails, the copy of a node succeeds and
      its records are well nested: they leave any stack of open blocks as
      they found it. */
  lemma {:induction false} CopyNodeNests(c: Codec, inId: FiffId, n: DirTree, open: seq<int>)
    requires Indexable(n) && SubtreeSeeksOk(c, n)
    ensures CopyNode(c, inId, n).ok
    ensures Unwind(CopyNode(c, inId, n).out, open) == Some(open)
    decreases n, 1
  {
    var ids := IdRecords(inId, n.id);
    var body := CopyEntries(c, OwnEntries(n)).out;
    var kids := CopyChildren(c, inId, n, 0);
    var inner := open + [n.block];
    NodeBodyIsFlat(c, inId, n.id, Kept(OwnEntries(n)[..FirstFailure(c, OwnEntries(n))]));
    UnwindFlat(ids, inner);
    UnwindFlat(body, inner);
    CopyChildrenNest(c, inId, n, 0, inner);
    var head := [BlockStart(n.block)] + ids;
    assert CopyNode(c, inId, n).out == head + body + kids + [BlockEnd(n.block)];
    assert Unwind([BlockStart(n.block)], open) == Some(inner);
    UnwindAppend([BlockStart(n.block)], ids, open);
    assert Unwind(head, open) == Some(inner);
    UnwindAppend(head, body, open);
    assert Unwind(head + body, open) == Some(inner);
    UnwindAppend(head + body, kids, open);
    assert Unwind(head + body + kids, open) == Some(inner);
    UnwindAppend(head + body + kids, [BlockEnd(n.block)], open);
    assert inner[..|inner| - 1] == open;
    assert Unwind([BlockEnd(n.block)], inner) == Some(open);
  }

  lemma {:induction false} CopyChildrenNest(c: Codec, inId: FiffId, n: DirTree, p: nat, open: seq<int>)
    requires Indexable(n) && p <= |n.children| && ChildrenSeekOk(c, n, p)
    ensures Unwind(CopyChildren(c, inId, n, p), open) == Some(open)
    decreases n, 0, |n.children| - p
  {
    if p < n.nchild && p < |n.children| {
      CopyNodeNests(c, inId, n.children[p], open);
      CopyChildrenNest(c, inId, n, p + 1, open);
      UnwindAppend(CopyNode(c, inId, n.children[p]).out, CopyChildren(c, inId, n, p + 1), open);
    }
  }

  /** Each node's output opens with START and its identity records. */
  lemma CopyNodeHead(c: Codec, inId: FiffId, n: DirTree)
    requires Indexable(n)
    ensures var r := CopyNode(c, inId, n);
      var ids := IdRecords(inId, n.id);
      |r.out| >= 1 + |ids| && r.out[..1 + |ids|] == [BlockStart(n.block)] + ids
  {
    var head := [BlockStart(n.block)] + IdRecords(inId, n.id);
    var out := CopyNode(c, inId, n).out;
    var tail := out[|head|..];
    assert out == head + tail;
    assert (head + tail)[..|head|] == head;
  }

  /** When a seek fails, what follows START holds no block marker at all:
      neither the node's END nor any child. */
  lemma CopyNodeFailureUnclosed(c: Codec, inId: FiffId, n: DirTree)
    requires Indexable(n) && !CopyNode(c, inId, n).ok
    ensures var out := CopyNode(c, inId, n).out;
      forall k :: 1 <= k < |out| ==> Flat(out[k])
  {
    var ids := IdRecords(inId, n.id);
    var es := OwnEntries(n);
    var body := CopyEntries(c, es);
    var rs := RecordsOf(c, Kept(es[..FirstFailure(c, es)]));
    assert !body.ok && body.out == rs;
    NodeBodyIsFlat(c, inId, n.id, Kept(es[..FirstFailure(c, es)]));
    FlatAfterFirst(BlockStart(n.block), ids, rs);
    assert CopyNode(c, inId, n).out == [BlockStart(n.block)] + ids + rs;
  }

  lemma FlatAfterFirst(x: Record, a: seq<Record>, b: seq<Record>)
    requires forall k :: 0 <= k < |a| ==> Flat(a[k])
    requires forall k :: 0 <= k < |b| ==> Flat(b[k])
    ensures var s := [x] + a + b;
      forall k :: 1 <= k < |s| ==> Flat(s[k])
  {
    var s := [x] + a + b;
    forall k | 1 <= k < |s|
      ensures Flat(s[k])
    {
      if k < 1 + |a| {
        assert s[k] == a[k - 1];
      } else {
        assert s[k] == b[k - 1 - |a|];
      }
    }
  }

  /** So a single tree copied without a failed seek is a well-nested stream. */
  lemma CopyTreeWellNested(c: Codec, inId: FiffId, n: DirTree)
    requires Indexable(n) && SubtreeSeeksOk(c, n)
    ensures CopyTree(c, inId, [n]).ok && WellNested(CopyTree(c, inId, [n]).out)
  {
    CopyNodeNests(c, inId, n, []);
    CopyTreeSingleton(c, inId, n);
  }

  // ---- The calls the copier makes ----

  /** Copying a one-node list, as the loop over children does, is copying
      that node. */
  lemma CopyTreeSingleton(c: Codec, inId: FiffId, n: DirTree)
    requires Indexable(n)
    ensures CopyTree(c, inId, [n]) == CopyNode(c, inId, n)
  {
    var first := CopyNode(c, inId, n);
    assert CopyNodes(c, inId, [n], 1) == CopyResult(true, []);
    assert first.out + [] == first.out;
  }

  /** A cleared node copies as an empty block of kind -1: its id is absent,
      so no identity is written, and its negative counters let neither the
      entry loop nor the child loop run, whatever the codec. */
  lemma ClearedCopiesEmpty(c: Codec, inId: FiffId)
    ensures CopyTree(c, inId, [Cleared()]) == CopyResult(true, [BlockStart(-1), BlockEnd(-1)])
  {
    var t := Cleared();
    CopyTreeSingleton(c, inId, t);
    assert OwnEntries(t) == [] && IdRecords(inId, t.id) == [];
    assert CopyChildren(c, inId, t, 0) == [];
  }

  /** When the codec reads back the kinds the directory lists, no copied
      data record carries an identity kind: those entries are never copied,
      and each copied record is the tag at its entry's position. */
  lemma CopiedKindsExcludeIds(c: Codec, es: seq<DirEntry>)
    requires forall k :: 0 <= k < |es| ==> c.tagAt(es[k].pos).kind == es[k].kind
    ensures var out := CopyEntries(c, es).out;
      forall k :: 0 <= k < |out| ==> out[k].DataTag? && !Skipped(out[k].kind)
  {
    var f := FirstFailure(c, es);
    var ks := Kept(es[..f]);
    KeptMembers(es[..f]);
    forall k | 0 <= k < |ks|
      ensures c.tagAt(ks[k].pos).kind == ks[k].kind
    {
      assert ks[k] in es[..f];
    }
  }

  /** The data records a successful entry loop writes are, one for one and
      in order, the tags at the kept entries' positions. */
  lemma CopiedDataInOrder(c: Codec, es: seq<DirEntry>)
    requires SeeksOk(c, es)
    ensures var out := CopyEntries(c, es).out;
      var ks := Kept(es);
      && |out| == |ks|
      && forall k :: 0 <= k < |ks| ==>
           var tag := c.tagAt(ks[k].pos);
           out[k] == DataTag(tag.kind, tag.typ, FIFFV_NEXT_SEQ, tag.data)
  {
    SeeksOkIffNoFailure(c, es);
    assert es[..|es|] == es;
  }
}
