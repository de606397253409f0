/**
 Consequences of the builder's layout: when a block closes, where the
 identities come from, and the behaviour on small concrete directories.
 */
module DirTreeBuildFacts {
  import opened FiffTypes
  import opened DirTreeBuild
  import opened DirTreeLayout

  /** A block opened by BLOCK_START closes at its first BLOCK_END at depth
      0, whatever that END's payload is: the close test reads the payload of
      the START entry, which always equals the block kind. */
  lemma BlockStartClosesAtFirstEnd(c: Codec, dir: seq<DirEntry>, s: nat)
    requires s < |dir| && dir[s].kind == FIFF_BLOCK_START
    ensures var r := Build(c, dir, s).1;
      && (r < |dir| <==>
            exists i :: s < i < |dir| && dir[i].kind == FIFF_BLOCK_END && Depth(dir, s, i) == 0)
      && (r < |dir| ==> Depth(dir, s, r) == 0)
      && (forall i :: s < i < r && i < |dir| ==>
            !(dir[i].kind == FIFF_BLOCK_END && Depth(dir, s, i) == 0))
  {
    BuildLayout(c, dir, s);
    assert Closes(c, dir, s);
    var r := Build(c, dir, s).1;
    if i :| s < i < |dir| && dir[i].kind == FIFF_BLOCK_END && Depth(dir, s, i) == 0 {
      assert EndsAt(c, dir, s, i);
    }
    forall i | s < i < r && i < |dir|
      ensures !(dir[i].kind == FIFF_BLOCK_END && Depth(dir, s, i) == 0)
    {
      assert !EndsAt(c, dir, s, i);
    }
  }

  /** The implicit root (no BLOCK_START at `s`) closes only if the payload
      at `s`, read as an integer, is 0; otherwise every BLOCK_END at its
      level is dropped and the scan runs to the end of the directory. */
  lemma RootCloses(c: Codec, dir: seq<DirEntry>, s: nat)
    requires s < |dir| && dir[s].kind != FIFF_BLOCK_START
    ensures var r := Build(c, dir, s).1;
      r < |dir| <==>
        && c.IntAt(dir[s].pos) == 0
        && exists i :: s <= i < |dir| && dir[i].kind == FIFF_BLOCK_END && Depth(dir, s, i) == 0
  {
    BuildLayout(c, dir, s);
    var r := Build(c, dir, s).1;
    if i :| s <= i < |dir| && dir[i].kind == FIFF_BLOCK_END && Depth(dir, s, i) == 0 && Closes(c, dir, s) {
      assert EndsAt(c, dir, s, i);
    }
  }

  /** A block that never closes returns the directory length plus the
      number of nested blocks still open at the end. */
  lemma UnclosedReturnIndex(c: Codec, dir: seq<DirEntry>, s: nat)
    requires s < |dir|
    ensures var r := Build(c, dir, s).1;
      && (r >= |dir| ==> r == |dir| + Depth(dir, s, |dir|))
      && (r >= |dir| ==> forall i :: s <= i < |dir| ==> !EndsAt(c, dir, s, i))
  {
    BuildLayout(c, dir, s);
  }

  /** The identities of a built node are decoded from its own depth-0
      entries only, never from an entry of a nested block; the last such
      entry wins. */
  lemma BuildIdsFromOwnEntries(c: Codec, dir: seq<DirEntry>, s: nat)
    requires s < |dir|
    ensures var t := Build(c, dir, s).0;
      && (t.block == 0 ==>
            t.id == LastId(c, OwnFrom(c, dir, s, s), FIFF_FILE_ID) && t.parentId == ClearedId)
      && (t.block != 0 ==>
            && t.id == LastId(c, OwnFrom(c, dir, s, s), FIFF_BLOCK_ID)
            && t.parentId == LastId(c, OwnFrom(c, dir, s, s), FIFF_PARENT_BLOCK_ID))
  {
    BuildLayout(c, dir, s);
  }

  /** A directory holding only a file id builds a single root node that
      owns that entry and carries its identifier. */
  lemma FileIdOnly(c: Codec, e: DirEntry)
    requires e.kind == FIFF_FILE_ID
    ensures Build(c, [e], 0) == (DirTree(0, c.IdAt(e.pos), ClearedId, [e], 1, -1, [], 0), 1)
  {
    var t := Cleared().(block := 0, nent := 0, nchild := 0);
    assert AddEntry(c, t, e) == DirTree(0, c.IdAt(e.pos), ClearedId, [e], 1, -1, [], 0);
    assert Scan(c, [e], 0, 0, t) == Scan(c, [e], 0, 1, AddEntry(c, t, e));
  }

  /** START(999), FILE_ID, END(999): the file id is an entry of the block
      but sets no identifier (that rule applies at block 0 only), and the
      returned index is that of the END entry, 2. */
  lemma FileIdInsideBlock(c: Codec, b: DirEntry, f: DirEntry, e: DirEntry)
    requires b.kind == FIFF_BLOCK_START && f.kind == FIFF_FILE_ID && e.kind == FIFF_BLOCK_END
    requires c.IntAt(b.pos) == 999
    ensures Build(c, [b, f, e], 0) == (DirTree(999, ClearedId, ClearedId, [f], 1, -1, [], 0), 2)
  {
    var dir := [b, f, e];
    var t := Cleared().(block := 999, nent := 0, nchild := 0);
    assert Scan(c, dir, 0, 0, t) == Scan(c, dir, 0, 1, t);
    assert Scan(c, dir, 0, 1, t) == Scan(c, dir, 0, 2, AddEntry(c, t, f));
  }

  /** START(k1) START(k2) END END: one node of kind k1 with exactly one
      child of kind k2, which returns the index of the inner END. */
  lemma NestedPair(c: Codec, s1: DirEntry, s2: DirEntry, e2: DirEntry, e1: DirEntry)
    requires s1.kind == FIFF_BLOCK_START && s2.kind == FIFF_BLOCK_START
    requires e2.kind == FIFF_BLOCK_END && e1.kind == FIFF_BLOCK_END
    ensures var dir := [s1, s2, e2, e1];
      var res := Build(c, dir, 0);
      && res.1 == 3
      && res.0.block == c.IntAt(s1.pos)
      && res.0.dir == []
      && |res.0.children| == 1
      && res.0.children[0].block == c.IntAt(s2.pos)
      && res.0.children[0].dir == []
      && res.0.children[0].children == []
      && Build(c, dir, 1).1 == 2
  {
    var dir := [s1, s2, e2, e1];
    NestedPairLayout(c, dir);
    BuildLayout(c, dir, 0);
    BuildLayout(c, dir, 1);
  }

  /** The tree forgets where a block's own entries sit relative to its
      children: START(k1) START(k2) END x END and START(k1) x START(k2) END
      END are different directories that build the same tree and return
      the same index, so no flattening of the tree gives both back. */
  lemma InterleavingLost(c: Codec, s1: DirEntry, s2: DirEntry, x: DirEntry, e2: DirEntry, e1: DirEntry)
    requires s1.kind == FIFF_BLOCK_START && s2.kind == FIFF_BLOCK_START
    requires e2.kind == FIFF_BLOCK_END && e1.kind == FIFF_BLOCK_END && Plain(x)
    ensures [s1, s2, e2, x, e1] != [s1, x, s2, e2, e1]
    ensures Build(c, [s1, s2, e2, x, e1], 0) == Build(c, [s1, x, s2, e2, e1], 0)
  {
    assert [s1, s2, e2, x, e1][1] != [s1, x, s2, e2, e1][1];
    var child := Cleared().(block := c.IntAt(s2.pos), nent := 0, nchild := 0);
    var t := Cleared().(block := c.IntAt(s1.pos), nent := 0, nchild := 0);
    ChildBeforeEntry(c, [s1, s2, e2, x, e1]);
    EntryBeforeChild(c, [s1, x, s2, e2, e1]);
    assert AddEntry(c, t, x).(nchild := 1, children := [child]) == AddEntry(c, t.(nchild := 1, children := [child]), x);
  }

  /** START immediately followed by END builds an empty node and returns
      the END's index. */
  lemma EmptyBlockAt(c: Codec, dir: seq<DirEntry>, i: nat)
    requires i + 1 < |dir| && dir[i].kind == FIFF_BLOCK_START && dir[i + 1].kind == FIFF_BLOCK_END
    ensures Build(c, dir, i) == (Cleared().(block := c.IntAt(dir[i].pos), nent := 0, nchild := 0), i + 1)
  {
    var k := Cleared().(block := c.IntAt(dir[i].pos), nent := 0, nchild := 0);
    assert Scan(c, dir, i, i, k) == Scan(c, dir, i, i + 1, k);
  }

  /** START(k1) START(k2) END x END: the empty child, then the entry. */
  lemma ChildBeforeEntry(c: Codec, dir: seq<DirEntry>)
    requires |dir| == 5 && dir[0].kind == FIFF_BLOCK_START && dir[1].kind == FIFF_BLOCK_START
    requires dir[2].kind == FIFF_BLOCK_END && Plain(dir[3]) && dir[4].kind == FIFF_BLOCK_END
    ensures var child := Cleared().(block := c.IntAt(dir[1].pos), nent := 0, nchild := 0);
      var t := Cleared().(block := c.IntAt(dir[0].pos), nent := 0, nchild := 0);
      Build(c, dir, 0) == (AddEntry(c, t.(nchild := 1, children := [child]), dir[3]), 4)
  {
    var child := Cleared().(block := c.IntAt(dir[1].pos), nent := 0, nchild := 0);
    var t := Cleared().(block := c.IntAt(dir[0].pos), nent := 0, nchild := 0);
    EmptyBlockAt(c, dir, 1);
    var withChild := t.(nchild := 1, children := [child]);
    assert t.children + [child] == [child];
    assert Scan(c, dir, 0, 0, t) == Scan(c, dir, 0, 1, t);
    assert Scan(c, dir, 0, 1, t) == Scan(c, dir, 0, 3, withChild);
    assert Scan(c, dir, 0, 3, withChild) == Scan(c, dir, 0, 4, AddEntry(c, withChild, dir[3]));
  }

  /** START(k1) x START(k2) END END: the entry, then the empty child. */
  lemma EntryBeforeChild(c: Codec, dir: seq<DirEntry>)
    requires |dir| == 5 && dir[0].kind == FIFF_BLOCK_START && Plain(dir[1])
    requires dir[2].kind == FIFF_BLOCK_START && dir[3].kind == FIFF_BLOCK_END && dir[4].kind == FIFF_BLOCK_END
    ensures var child := Cleared().(block := c.IntAt(dir[2].pos), nent := 0, nchild := 0);
      var t := Cleared().(block := c.IntAt(dir[0].pos), nent := 0, nchild := 0);
      Build(c, dir, 0) == (AddEntry(c, t, dir[1]).(nchild := 1, children := [child]), 4)
  {
    var child := Cleared().(block := c.IntAt(dir[2].pos), nent := 0, nchild := 0);
    var t := Cleared().(block := c.IntAt(dir[0].pos), nent := 0, nchild := 0);
    EmptyBlockAt(c, dir, 2);
    var withEntry := AddEntry(c, t, dir[1]);
    assert withEntry.children + [child] == [child];
    assert Scan(c, dir, 0, 0, t) == Scan(c, dir, 0, 1, t);
    assert Scan(c, dir, 0, 1, t) == Scan(c, dir, 0, 2, withEntry);
    assert Scan(c, dir, 0, 2, withEntry) == Scan(c, dir, 0, 4, withEntry.(nchild := 1, children := [child]));
  }

  /** The depth-based description of START START END END. */
  lemma NestedPairLayout(c: Codec, dir: seq<DirEntry>)
    requires |dir| == 4
    requires dir[0].kind == FIFF_BLOCK_START && dir[1].kind == FIFF_BLOCK_START
    requires dir[2].kind == FIFF_BLOCK_END && dir[3].kind == FIFF_BLOCK_END
    ensures NextFrom(c, dir, 1, 1) == 2 && ChildrenFrom(c, dir, 1, 1) == [] && OwnFrom(c, dir, 1, 1) == []
    ensures NextFrom(c, dir, 0, 0) == 3 && ChildrenFrom(c, dir, 0, 0) == [1] && OwnFrom(c, dir, 0, 0) == []
  {
    assert EndsAt(c, dir, 1, 2);
    assert Depth(dir, 0, 2) == 1 && !EndsAt(c, dir, 0, 2);
    assert Depth(dir, 0, 3) == 0 && EndsAt(c, dir, 0, 3);
    assert OwnFrom(c, dir, 0, 2) == [];
    assert ChildrenFrom(c, dir, 0, 2) == [];
  }
}
