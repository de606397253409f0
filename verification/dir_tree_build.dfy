/**
 The tree builder `make_dir_tree`: one pass over the flat directory that
 turns BLOCK_START ... BLOCK_END brackets into nested nodes.

 The loop of the source is `Scan`; a nested block is built by a recursive
 call of `Build` and the scan resumes one past the index it returns.
 */
module DirTreeBuild {
  import opened FiffTypes

  /** The kind of the block opened at `start`, or 0 for the implicit root. */
  function BlockOf(c: Codec, dir: seq<DirEntry>, start: nat): int
    requires start < |dir|
  {
    if dir[start].kind == FIFF_BLOCK_START then c.IntAt(dir[start].pos) else 0
  }

  /** The identifier decoded from the last entry of `kind` in `es`, or the
      cleared identifier when there is none. */
  function LastId(c: Codec, es: seq<DirEntry>, kind: int): FiffId
  {
    if es == [] then ClearedId
    else if es[|es| - 1].kind == kind then c.IdAt(es[|es| - 1].pos)
    else LastId(c, es[..|es| - 1], kind)
  }

  /** The identity fields of a node come from its own entries only: the
      file id at block 0, the block id and parent block id elsewhere. */
  predicate IdsFromOwnEntries(c: Codec, t: DirTree)
  {
    if t.block == 0 then
      t.id == LastId(c, t.dir, FIFF_FILE_ID) && t.parentId == ClearedId
    else
      t.id == LastId(c, t.dir, FIFF_BLOCK_ID) && t.parentId == LastId(c, t.dir, FIFF_PARENT_BLOCK_ID)
  }

  /** What holds of every node the builder produces, and of the node it is
      filling in: counters agree with the lists, no block marker is an
      entry, the identities come from the entries, every child is indexable. */
  predicate WellBuilt(c: Codec, t: DirTree)
  {
    && t.nent == |t.dir|
    && t.nchild == |t.children|
    && t.nentTree == -1
    && (forall p :: 0 <= p < |t.dir| ==>
          t.dir[p].kind != FIFF_BLOCK_START && t.dir[p].kind != FIFF_BLOCK_END)
    && IdsFromOwnEntries(c, t)
    && (forall i :: 0 <= i < |t.children| ==> Indexable(t.children[i]))
  }

  /** `make_dir_tree(stream, dir, tree, start)`: the node built from the
      block at `start`, and the index the source returns — the index of the
      closing BLOCK_END, or an index at or past the end of the directory. */
  function Build(c: Codec, dir: seq<DirEntry>, start: nat): (res: (DirTree, nat))
    requires start < |dir|
    ensures res.0.block == BlockOf(c, dir, start)
    ensures WellBuilt(c, res.0) && Indexable(res.0)
    ensures res.1 >= start
    ensures dir[start].kind == FIFF_BLOCK_START ==> res.1 > start
    ensures res.1 < |dir| ==>
              dir[res.1].kind == FIFF_BLOCK_END && c.IntAt(dir[start].pos) == res.0.block
    decreases |dir| - start, 1
  {
    var block := BlockOf(c, dir, start);
    var t := Cleared().(block := block, nent := 0, nchild := 0);
    Scan(c, dir, start, start, t)
  }

  /** One run of the `while (current < p_Dir.size())` loop from `current`,
      with `t` the node filled in so far. */
  function Scan(c: Codec, dir: seq<DirEntry>, start: nat, current: nat, t: DirTree): (res: (DirTree, nat))
    requires start < |dir| && start <= current
    requires t.block == BlockOf(c, dir, start) && WellBuilt(c, t)
    ensures res.0.block == t.block
    ensures WellBuilt(c, res.0) && Indexable(res.0)
    ensures res.1 >= current
    ensures res.1 < |dir| ==>
              dir[res.1].kind == FIFF_BLOCK_END && c.IntAt(dir[start].pos) == t.block
    decreases |dir| - start, 0, |dir| - current
  {
    if current >= |dir| then
      (Finish(t), current)
    else
      var e := dir[current];
      if e.kind == FIFF_BLOCK_START then
        if current != start then
          var sub := Build(c, dir, current);
          var t' := t.(nchild := t.nchild + 1, children := t.children + [sub.0]);
          Scan(c, dir, start, sub.1 + 1, t')
        else
          Scan(c, dir, start, current + 1, t)
      else if e.kind == FIFF_BLOCK_END then
        // The payload is read at the START entry, not at `current`.
        if c.IntAt(dir[start].pos) == t.block then
          (Finish(t), current)
        else
          Scan(c, dir, start, current + 1, t)
      else
        Scan(c, dir, start, current + 1, AddEntry(c, t, e))
  }

  /** Appends a plain entry and picks up the identity it carries, if any. */
  function AddEntry(c: Codec, t: DirTree, e: DirEntry): DirTree
  {
    var t' := t.(nent := t.nent + 1, dir := t.dir + [e]);
    if t.block == 0 then
      if e.kind == FIFF_FILE_ID then t'.(id := c.IdAt(e.pos)) else t'
    else if e.kind == FIFF_BLOCK_ID then t'.(id := c.IdAt(e.pos))
    else if e.kind == FIFF_PARENT_BLOCK_ID then t'.(parentId := c.IdAt(e.pos))
    else t'
  }

  /** The "eliminate the empty directory" step after the loop. */
  function Finish(t: DirTree): DirTree
  {
    if t.nent == 0 then t.(dir := []) else t
  }

  /** Appending a plain entry keeps a node well built; the entry lands at
      the end of `dir` and nothing else but the identities changes. */
  lemma AddEntryKeepsWellBuilt(c: Codec, t: DirTree, e: DirEntry)
    requires WellBuilt(c, t)
    requires e.kind != FIFF_BLOCK_START && e.kind != FIFF_BLOCK_END
    ensures var t' := AddEntry(c, t, e);
      && WellBuilt(c, t')
      && t'.dir == t.dir + [e]
      && t'.block == t.block
      && t'.children == t.children
  {
    assert (t.dir + [e])[..|t.dir|] == t.dir;
  }
}
