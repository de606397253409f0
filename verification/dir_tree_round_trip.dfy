/**
 What `copy_tree` writes can be read back by `make_dir_tree`: when the
 written stream is listed again as a directory, the tree built from it has
 the block kinds and the child structure of the tree that was copied.

 The scan that turns written bytes into a directory is outside this model,
 so the read-back is stated as a relation `Lists` between a directory, the
 codec that reads it, and the records written.
 */
module DirTreeRoundTrip {
  import opened FiffTypes
  import opened DirTreeBuild
  import opened DirTreeLayout
  import opened DirTreeCopy
  import opened DirTreeCopyFacts

  /** The tag kind a record is written with. */
  function KindOf(r: Record): int
  {
    match r
    case BlockStart(_) => FIFF_BLOCK_START
    case BlockEnd(_) => FIFF_BLOCK_END
    case IdTag(k, _) => k
    case NewIdTag(k) => k
    case DataTag(k, _, _, _) => k
  }

  /** A tag kind that is neither block marker. */
  predicate PlainKind(k: int)
  {
    k != FIFF_BLOCK_START && k != FIFF_BLOCK_END
  }

  /** From index `o` on, `dir` lists the records `rs` as read with `c`: each
      entry has its record's kind, and a START entry's payload decodes to
      its block kind. */
  predicate Lists(c: Codec, dir: seq<DirEntry>, o: nat, rs: seq<Record>)
    decreases |rs|
  {
    if rs == [] then o <= |dir|
    else
      && o < |dir|
      && dir[o].kind == KindOf(rs[0])
      && (rs[0].BlockStart? ==> c.IntAt(dir[o].pos) == rs[0].block)
      && Lists(c, dir, o + 1, rs[1..])
  }

  /** `Lists` read entry by entry. */
  lemma {:induction false} ListsAt(c: Codec, dir: seq<DirEntry>, o: nat, rs: seq<Record>, i: nat)
    requires Lists(c, dir, o, rs) && i < |rs|
    ensures o + |rs| <= |dir|
    ensures dir[o + i].kind == KindOf(rs[i])
    ensures rs[i].BlockStart? ==> c.IntAt(dir[o + i].pos) == rs[i].block
    decreases |rs|
  {
    if i > 0 {
      ListsAt(c, dir, o + 1, rs[1..], i - 1);
    } else if |rs| > 1 {
      ListsAt(c, dir, o + 1, rs[1..], 0);
    }
  }

  /** Entries that agree with the records one by one list them. */
  lemma {:induction false} ListsFromEntries(c: Codec, dir: seq<DirEntry>, o: nat, rs: seq<Record>)
    requires o + |rs| <= |dir|
    requires forall i :: 0 <= i < |rs| ==> dir[o + i].kind == KindOf(rs[i])
    requires forall i :: 0 <= i < |rs| && rs[i].BlockStart? ==> c.IntAt(dir[o + i].pos) == rs[i].block
    ensures Lists(c, dir, o, rs)
    decreases |rs|
  {
    if rs != [] {
      forall i | 0 <= i < |rs[1..]|
        ensures dir[o + 1 + i].kind == KindOf(rs[1..][i])
        ensures rs[1..][i].BlockStart? ==> c.IntAt(dir[o + 1 + i].pos) == rs[1..][i].block
      {
        assert rs[1..][i] == rs[i + 1];
        assert o + 1 + i == o + (i + 1);
      }
      assert dir[o + 0].kind == KindOf(rs[0]);
      ListsFromEntries(c, dir, o + 1, rs[1..]);
    }
  }

  /** A listing of `a + b` is a listing of `a` followed by one of `b`. */
  lemma {:induction false} ListsSplit(c: Codec, dir: seq<DirEntry>, o: nat, ab: seq<Record>, a: seq<Record>, b: seq<Record>)
    requires ab == a + b && Lists(c, dir, o, ab)
    ensures Lists(c, dir, o, a) && Lists(c, dir, o + |a|, b)
    decreases |a|
  {
    if a == [] {
      assert a + b == b;
    } else {
      assert (a + b)[0] == a[0];
      assert (a + b)[1..] == a[1..] + b;
      ListsSplit(c, dir, o + 1, ab[1..], a[1..], b);
    }
  }

  // ---- Block structure of a tree ----

  /** A tree reduced to its block kinds and children. */
  datatype Shape = Shape(block: int, kids: seq<Shape>)

  /** The shape of a node, its children being those the index loops visit. */
  function ShapeOf(n: DirTree): Shape
    requires Indexable(n)
    decreases n, 1
  {
    Shape(n.block, KidShapes(n, 0))
  }

  /** The shapes of the children from index `p`. */
  function KidShapes(n: DirTree, p: nat): seq<Shape>
    requires Indexable(n) && p <= |n.children|
    decreases n, 0, |n.children| - p
  {
    if p >= n.nchild || p == |n.children| then []
    else [ShapeOf(n.children[p])] + KidShapes(n, p + 1)
  }

  /** The shapes of a list of nodes, in order. */
  function ShapesOf(ts: seq<DirTree>): (ss: seq<Shape>)
    requires forall i :: 0 <= i < |ts| ==> Indexable(ts[i])
    ensures |ss| == |ts|
    ensures forall i :: 0 <= i < |ts| ==> ss[i] == ShapeOf(ts[i])
  {
    if ts == [] then [] else [ShapeOf(ts[0])] + ShapesOf(ts[1..])
  }

  /** When the counter agrees with the list, the visited children are all
      of them. */
  lemma {:induction false} KidShapesAll(n: DirTree, p: nat)
    requires Indexable(n) && n.nchild == |n.children| && p <= |n.children|
    ensures KidShapes(n, p) == ShapesOf(n.children[p..])
    decreases |n.children| - p
  {
    if p < |n.children| {
      KidShapesAll(n, p + 1);
      assert n.children[p..][1..] == n.children[p + 1..];
    }
  }

  // ---- What must hold of the copied tree ----

  /** The tags stored at these entries are no block markers. */
  predicate OwnTagsPlain(c: Codec, es: seq<DirEntry>)
  {
    forall i :: 0 <= i < |es| ==> PlainKind(c.tagAt(es[i].pos).kind)
  }

  /** `OwnTagsPlain` for every node the copier visits. */
  predicate SubtreeTagsPlain(c: Codec, n: DirTree)
    requires Indexable(n)
    decreases n, 1
  {
    OwnTagsPlain(c, OwnEntries(n)) && ChildrenTagsPlain(c, n, 0)
  }

  /** `SubtreeTagsPlain` for the children the copier visits from index `p`. */
  predicate ChildrenTagsPlain(c: Codec, n: DirTree, p: nat)
    requires Indexable(n) && p <= |n.children|
    decreases n, 0, |n.children| - p
  {
    p >= n.nchild || p == |n.children|
    || (SubtreeTagsPlain(c, n.children[p]) && ChildrenTagsPlain(c, n, p + 1))
  }

  /** Identity records carry identity kinds, never block markers. */
  lemma IdKindsPlain(inId: FiffId, id: FiffId)
    ensures var ids := IdRecords(inId, id);
      forall k :: 0 <= k < |ids| ==> PlainKind(KindOf(ids[k]))
  {
  }

  /** The data records for entries whose stored tags are plain carry plain
      kinds. */
  lemma DataKindsPlain(c: Codec, ks: seq<DirEntry>, es: seq<DirEntry>)
    requires forall e :: e in ks ==> e in es
    requires OwnTagsPlain(c, es)
    ensures var rs := RecordsOf(c, ks);
      forall k :: 0 <= k < |rs| ==> PlainKind(KindOf(rs[k]))
  {
    var rs := RecordsOf(c, ks);
    forall k | 0 <= k < |rs|
      ensures PlainKind(KindOf(rs[k]))
    {
      assert rs[k] == Copied(c, ks[k]);
      assert ks[k] in es;
      var j :| 0 <= j < |es| && es[j] == ks[k];
    }
  }

  /** The identity and data records of a node that seeks all its entries
      are written under plain kinds. */
  lemma BodyKindsPlain(c: Codec, inId: FiffId, n: DirTree)
    requires Indexable(n) && SeeksOk(c, OwnEntries(n)) && OwnTagsPlain(c, OwnEntries(n))
    ensures var flat := IdRecords(inId, n.id) + CopyEntries(c, OwnEntries(n)).out;
      forall k :: 0 <= k < |flat| ==> PlainKind(KindOf(flat[k]))
  {
    var es := OwnEntries(n);
    var ids := IdRecords(inId, n.id);
    SeeksOkIffNoFailure(c, es);
    assert es[..FirstFailure(c, es)] == es;
    var body := CopyEntries(c, es).out;
    assert body == RecordsOf(c, Kept(es));
    IdKindsPlain(inId, n.id);
    KeptMembers(es);
    DataKindsPlain(c, Kept(es), es);
    PlainKindsAppend(ids, body);
  }

  lemma PlainKindsAppend(a: seq<Record>, b: seq<Record>)
    requires forall k :: 0 <= k < |a| ==> PlainKind(KindOf(a[k]))
    requires forall k :: 0 <= k < |b| ==> PlainKind(KindOf(b[k]))
    ensures forall k :: 0 <= k < |a + b| ==> PlainKind(KindOf((a + b)[k]))
  {
    forall k | 0 <= k < |a + b|
      ensures PlainKind(KindOf((a + b)[k]))
    {
      if k < |a| {
        assert (a + b)[k] == a[k];
      } else {
        assert (a + b)[k] == b[k - |a|];
      }
    }
  }

  /** Entries that list records of plain kinds are plain. */
  lemma ListedPlain(c: Codec, d: seq<DirEntry>, o: nat, rs: seq<Record>)
    requires Lists(c, d, o, rs)
    requires forall k :: 0 <= k < |rs| ==> PlainKind(KindOf(rs[k]))
    ensures o + |rs| <= |d|
    ensures forall i :: o <= i < o + |rs| ==> Plain(d[i])
  {
    if rs != [] {
      ListsAt(c, d, o, rs, 0);
    }
    forall i | o <= i < o + |rs|
      ensures Plain(d[i])
    {
      ListsAt(c, d, o, rs, i - o);
      assert o + (i - o) == i;
    }
  }

  /** A successful node copy, cut into START, the identity and data
      records, and the children followed by END. */
  lemma CopyNodeParts(c: Codec, inId: FiffId, n: DirTree)
    requires Indexable(n) && SeeksOk(c, OwnEntries(n))
    ensures CopyNode(c, inId, n).out
      == [BlockStart(n.block)] + (IdRecords(inId, n.id) + CopyEntries(c, OwnEntries(n)).out)
         + (CopyChildren(c, inId, n, 0) + [BlockEnd(n.block)])
  {
    var ids := IdRecords(inId, n.id);
    var body := CopyEntries(c, OwnEntries(n)).out;
    var kids := CopyChildren(c, inId, n, 0);
    var e := [BlockEnd(n.block)];
    var h := [BlockStart(n.block)];
    assert CopyNode(c, inId, n).out == h + ids + body + kids + e;
    AppendAssoc(h, ids, body);
    AppendAssoc(h + (ids + body), kids, e);
  }

  // ---- Single steps of the builder's scan ----

  lemma ScanPlainStep(c: Codec, dir: seq<DirEntry>, s: nat, cur: nat, t: DirTree)
    requires s <= cur < |dir| && Plain(dir[cur])
    requires t.block == BlockOf(c, dir, s) && WellBuilt(c, t)
    ensures var t' := AddEntry(c, t, dir[cur]);
      && t'.block == t.block && t'.children == t.children
      && WellBuilt(c, t')
      && Scan(c, dir, s, cur, t) == Scan(c, dir, s, cur + 1, t')
  {
    AddEntryKeepsWellBuilt(c, t, dir[cur]);
  }

  lemma ScanChildStep(c: Codec, dir: seq<DirEntry>, s: nat, cur: nat, t: DirTree)
    returns (t': DirTree, next: nat)
    requires s < cur < |dir| && dir[cur].kind == FIFF_BLOCK_START
    requires t.block == BlockOf(c, dir, s) && WellBuilt(c, t)
    ensures t'.block == t.block && t'.children == t.children + [Build(c, dir, cur).0]
    ensures next == Build(c, dir, cur).1 + 1
    ensures WellBuilt(c, t') && Scan(c, dir, s, cur, t) == Scan(c, dir, s, next, t')
  {
    var sub := Build(c, dir, cur);
    t' := t.(nchild := t.nchild + 1, children := t.children + [sub.0]);
    next := sub.1 + 1;
    assert forall i :: 0 <= i < |t'.children| ==> Indexable(t'.children[i]);
  }

  lemma ScanCloseStep(c: Codec, dir: seq<DirEntry>, s: nat, cur: nat, t: DirTree)
    requires s <= cur < |dir| && dir[cur].kind == FIFF_BLOCK_END
    requires t.block == BlockOf(c, dir, s) && WellBuilt(c, t)
    requires c.IntAt(dir[s].pos) == t.block
    ensures Scan(c, dir, s, cur, t) == (Finish(t), cur)
  {
  }

  // ---- The round trip ----

  /** Where the parts of a copied node `out` sit in a directory that lists
      it from `o`: START, then plain entries up to index `o + k`, and from
      there `tail`, the copies of the children followed by END. */
  lemma NodeListing(c: Codec, inId: FiffId, n: DirTree, out: seq<Record>, rc: Codec, d: seq<DirEntry>, o: nat)
    returns (k: nat, tail: seq<Record>)
    requires Indexable(n) && SubtreeSeeksOk(c, n) && SubtreeTagsPlain(c, n)
    requires out == CopyNode(c, inId, n).out && Lists(rc, d, o, out)
    ensures tail == CopyChildren(c, inId, n, 0) + [BlockEnd(n.block)]
    ensures 1 <= k && k + |tail| == |out| && o + |out| <= |d|
    ensures d[o].kind == FIFF_BLOCK_START && rc.IntAt(d[o].pos) == n.block
    ensures forall i :: o + 1 <= i < o + k ==> Plain(d[i])
    ensures Lists(rc, d, o + k, tail)
  {
    var flat := IdRecords(inId, n.id) + CopyEntries(c, OwnEntries(n)).out;
    var head := [BlockStart(n.block)] + flat;
    tail := CopyChildren(c, inId, n, 0) + [BlockEnd(n.block)];
    CopyNodeParts(c, inId, n);
    ListsSplit(rc, d, o, out, head, tail);
    ListsSplit(rc, d, o, head, [BlockStart(n.block)], flat);
    k := |head|;
    ListsAt(rc, d, o, out, 0);
    FlatListedPlain(c, inId, n, flat, rc, d, o + 1);
  }

  /** The identity and data records of a node that seeks all its entries,
      none of whose stored tags is a block marker, are listed as plain
      entries. */
  lemma FlatListedPlain(c: Codec, inId: FiffId, n: DirTree, flat: seq<Record>, rc: Codec, d: seq<DirEntry>, o: nat)
    requires Indexable(n) && SeeksOk(c, OwnEntries(n)) && OwnTagsPlain(c, OwnEntries(n))
    requires flat == IdRecords(inId, n.id) + CopyEntries(c, OwnEntries(n)).out && Lists(rc, d, o, flat)
    ensures o + |flat| <= |d|
    ensures forall i :: o <= i < o + |flat| ==> Plain(d[i])
  {
    BodyKindsPlain(c, inId, n);
    ListedPlain(rc, d, o, flat);
  }

  /** A build from a START entry scans on from the next entry with the
      empty node of that START's block. */
  lemma ScanStart(c: Codec, dir: seq<DirEntry>, s: nat)
    requires s < |dir| && dir[s].kind == FIFF_BLOCK_START
    ensures var t0 := Cleared().(block := c.IntAt(dir[s].pos), nent := 0, nchild := 0);
      && t0.block == BlockOf(c, dir, s) && WellBuilt(c, t0) && t0.children == []
      && Build(c, dir, s) == Scan(c, dir, s, s + 1, t0)
  {
    var t0 := Cleared().(block := c.IntAt(dir[s].pos), nent := 0, nchild := 0);
    ScanPasses(c, dir, s, s, t0);
  }

  /** The node built from the START of a copied node `out` returns at that
      copy's END and has the copied node's shape. */
  lemma {:induction false} RebuildNode(c: Codec, inId: FiffId, n: DirTree, out: seq<Record>,
                                       rc: Codec, d: seq<DirEntry>, o: nat)
    requires Indexable(n) && SubtreeSeeksOk(c, n) && SubtreeTagsPlain(c, n)
    requires out == CopyNode(c, inId, n).out && Lists(rc, d, o, out)
    ensures o < |d|
    ensures Build(rc, d, o).1 == o + |out| - 1
    ensures ShapeOf(Build(rc, d, o).0) == ShapeOf(n)
    decreases n, 2
  {
    var k, tail := NodeListing(c, inId, n, out, rc, d, o);
    ScanStart(rc, d, o);
    var t0 := Cleared().(block := rc.IntAt(d[o].pos), nent := 0, nchild := 0);
    RebuildFlat(c, inId, n, tail, rc, d, o, o + 1, o + k, t0);
    var res := Build(rc, d, o).0;
    KidShapesAll(res, 0);
    assert res.children[0..] == res.children;
    assert ShapesOf(t0.children) == [];
  }

  /** The scan over a copied node's identity and data records adds no
      child; what follows, from `b`, are the children and the END. */
  lemma {:induction false} RebuildFlat(c: Codec, inId: FiffId, n: DirTree, tail: seq<Record>,
                                       rc: Codec, d: seq<DirEntry>, s: nat, a: nat, b: nat, t: DirTree)
    requires Indexable(n) && ChildrenSeekOk(c, n, 0) && ChildrenTagsPlain(c, n, 0)
    requires s < a <= b <= |d| && forall i :: a <= i < b ==> Plain(d[i])
    requires tail == CopyChildren(c, inId, n, 0) + [BlockEnd(n.block)] && Lists(rc, d, b, tail)
    requires t.block == BlockOf(rc, d, s) && WellBuilt(rc, t) && rc.IntAt(d[s].pos) == t.block
    ensures ShapesOf(Scan(rc, d, s, a, t).0.children) == ShapesOf(t.children) + KidShapes(n, 0)
    ensures Scan(rc, d, s, a, t).1 == b + |tail| - 1
    decreases n, 1, b - a
  {
    if a == b {
      RebuildChildren(c, inId, n, 0, tail, rc, d, s, a, t);
    } else {
      ScanPlainStep(rc, d, s, a, t);
      RebuildFlat(c, inId, n, tail, rc, d, s, a + 1, b, AddEntry(rc, t, d[a]));
    }
  }

  /** The scan over `tail`, the copies of the children from index `p`
      followed by END, builds one child per copy, each with the shape of the
      child copied, and stops at that END. */
  lemma {:induction false} RebuildChildren(c: Codec, inId: FiffId, n: DirTree, p: nat, tail: seq<Record>,
                                           rc: Codec, d: seq<DirEntry>, s: nat, a: nat, t: DirTree)
    requires Indexable(n) && p <= |n.children| && ChildrenSeekOk(c, n, p) && ChildrenTagsPlain(c, n, p)
    requires tail == CopyChildren(c, inId, n, p) + [BlockEnd(n.block)] && s < a && Lists(rc, d, a, tail)
    requires t.block == BlockOf(rc, d, s) && WellBuilt(rc, t) && rc.IntAt(d[s].pos) == t.block
    ensures ShapesOf(Scan(rc, d, s, a, t).0.children) == ShapesOf(t.children) + KidShapes(n, p)
    ensures Scan(rc, d, s, a, t).1 == a + |tail| - 1
    decreases n, 0, |n.children| - p, 1
  {
    if p >= n.nchild || p == |n.children| {
      RebuildNoChild(c, inId, n, p, tail, rc, d, s, a, t);
    } else {
      var rest, a', t' := RebuildChild(c, inId, n, p, tail, rc, d, s, a, t);
      RebuildChildren(c, inId, n, p + 1, rest, rc, d, s, a', t');
      AppendAssoc(ShapesOf(t.children), [ShapeOf(n.children[p])], KidShapes(n, p + 1));
    }
  }

  /** The scan over the copy of child `p`, at `a`, builds one child with
      that child's shape and resumes at `a'`, where `rest` is listed. */
  lemma RebuildChild(c: Codec, inId: FiffId, n: DirTree, p: nat, tail: seq<Record>,
                     rc: Codec, d: seq<DirEntry>, s: nat, a: nat, t: DirTree)
    returns (rest: seq<Record>, a': nat, t': DirTree)
    requires Indexable(n) && p < n.nchild && p < |n.children| && ChildrenSeekOk(c, n, p) && ChildrenTagsPlain(c, n, p)
    requires tail == CopyChildren(c, inId, n, p) + [BlockEnd(n.block)] && s < a && Lists(rc, d, a, tail)
    requires t.block == BlockOf(rc, d, s) && WellBuilt(rc, t) && rc.IntAt(d[s].pos) == t.block
    ensures rest == CopyChildren(c, inId, n, p + 1) + [BlockEnd(n.block)]
    ensures a < a' && a' + |rest| == a + |tail| && Lists(rc, d, a', rest)
    ensures t'.block == t.block && WellBuilt(rc, t') && rc.IntAt(d[s].pos) == t'.block
    ensures Scan(rc, d, s, a, t) == Scan(rc, d, s, a', t')
    ensures ShapesOf(t'.children) == ShapesOf(t.children) + [ShapeOf(n.children[p])]
    decreases n, 0, |n.children| - p, 0
  {
    var child := n.children[p];
    var cc;
    cc, rest, a' := ChildListing(c, inId, n, p, tail, rc, d, a);
    RebuildNode(c, inId, child, cc, rc, d, a);
    var next;
    t', next := ScanChildStep(rc, d, s, a, t);
    assert next == a';
    ShapesOfSnoc(t.children, Build(rc, d, a).0);
  }

  /** Where the copy of child `p` and what follows it sit in a directory
      that lists `tail` from `a`. */
  lemma ChildListing(c: Codec, inId: FiffId, n: DirTree, p: nat, tail: seq<Record>, rc: Codec, d: seq<DirEntry>, a: nat)
    returns (cc: seq<Record>, rest: seq<Record>, b: nat)
    requires Indexable(n) && p < n.nchild && p < |n.children|
    requires tail == CopyChildren(c, inId, n, p) + [BlockEnd(n.block)] && Lists(rc, d, a, tail)
    ensures cc == CopyNode(c, inId, n.children[p]).out
    ensures rest == CopyChildren(c, inId, n, p + 1) + [BlockEnd(n.block)]
    ensures b == a + |cc| && a < b && b + |rest| == a + |tail|
    ensures a < |d| && d[a].kind == FIFF_BLOCK_START
    ensures Lists(rc, d, a, cc) && Lists(rc, d, b, rest)
  {
    cc := CopyNode(c, inId, n.children[p]).out;
    rest := CopyChildren(c, inId, n, p + 1) + [BlockEnd(n.block)];
    AppendAssoc(cc, CopyChildren(c, inId, n, p + 1), [BlockEnd(n.block)]);
    ListsSplit(rc, d, a, tail, cc, rest);
    ListsAt(rc, d, a, cc, 0);
    b := a + |cc|;
  }

  /** Past the last child visited, the scan stops at the listed END with
      the children it has. */
  lemma RebuildNoChild(c: Codec, inId: FiffId, n: DirTree, p: nat, tail: seq<Record>,
                       rc: Codec, d: seq<DirEntry>, s: nat, a: nat, t: DirTree)
    requires Indexable(n) && p <= |n.children| && (p >= n.nchild || p == |n.children|)
    requires tail == CopyChildren(c, inId, n, p) + [BlockEnd(n.block)] && s < a && Lists(rc, d, a, tail)
    requires t.block == BlockOf(rc, d, s) && WellBuilt(rc, t) && rc.IntAt(d[s].pos) == t.block
    ensures ShapesOf(Scan(rc, d, s, a, t).0.children) == ShapesOf(t.children) + KidShapes(n, p)
    ensures Scan(rc, d, s, a, t).1 == a + |tail| - 1
  {
    assert tail == [BlockEnd(n.block)];
    assert d[a].kind == FIFF_BLOCK_END;
    ScanCloseStep(rc, d, s, a, t);
    assert KidShapes(n, p) == [];
    assert ShapesOf(t.children) + [] == ShapesOf(t.children);
  }

  lemma ShapesOfSnoc(ts: seq<DirTree>, x: DirTree)
    requires forall i :: 0 <= i < |ts| ==> Indexable(ts[i])
    requires Indexable(x)
    ensures ShapesOf(ts + [x]) == ShapesOf(ts) + [ShapeOf(x)]
  {
  }

  /** Copying one tree with no failing seek and no block marker among its
      stored tags, then listing the written stream as a directory, builds a
      tree with the same block kinds and child structure; the builder stops
      at the last record written. */
  lemma CopyThenRebuild(c: Codec, inId: FiffId, n: DirTree, rc: Codec, d: seq<DirEntry>)
    requires Indexable(n) && SubtreeSeeksOk(c, n) && SubtreeTagsPlain(c, n)
    requires Lists(rc, d, 0, CopyTree(c, inId, [n]).out)
    ensures CopyTree(c, inId, [n]).ok
    ensures 0 < |d|
    ensures Build(rc, d, 0).1 == |CopyTree(c, inId, [n]).out| - 1
    ensures ShapeOf(Build(rc, d, 0).0) == ShapeOf(n)
  {
    CopyTreeSingleton(c, inId, n);
    CopyTreeWellNested(c, inId, n);
    RebuildNode(c, inId, n, CopyTree(c, inId, [n]).out, rc, d, 0);
  }
}
