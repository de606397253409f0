/**
 An independent description of what `make_dir_tree` builds, stated through
 bracket depth instead of recursion: relative to the block opened at `s`,
 `Depth(dir, s, i)` counts the nested blocks still open just before index
 `i`. The node owns exactly the plain entries at depth 0, its children start
 at the BLOCK_START entries at depth 0, and it closes at the first depth-0
 BLOCK_END — provided the close test passes, which (because the source reads
 the payload at the start entry) is a property of `s` alone.
 */
module DirTreeLayout {
  import opened FiffTypes
  import opened DirTreeBuild

  /** The close test of the block at `s`, as written: the payload at `s`
      compared with the block kind. It always passes for a BLOCK_START. */
  predicate Closes(c: Codec, dir: seq<DirEntry>, s: nat)
    requires s < |dir|
  {
    c.IntAt(dir[s].pos) == BlockOf(c, dir, s)
  }

  /** Number of nested blocks open just before index `i`, relative to `s`.
      A BLOCK_END at depth 0 leaves the depth at 0. */
  function Depth(dir: seq<DirEntry>, s: nat, i: nat): nat
    requires s <= i <= |dir|
    decreases i - s
  {
    if i == s then 0
    else
      var d := Depth(dir, s, i - 1);
      var k := dir[i - 1].kind;
      if k == FIFF_BLOCK_START && i - 1 != s then d + 1
      else if k == FIFF_BLOCK_END && d > 0 then d - 1
      else d
  }

  /** Index `i` is where the block at `s` closes. */
  predicate EndsAt(c: Codec, dir: seq<DirEntry>, s: nat, i: nat)
    requires s < |dir| && s <= i <= |dir|
  {
    i < |dir| && dir[i].kind == FIFF_BLOCK_END && Depth(dir, s, i) == 0 && Closes(c, dir, s)
  }

  /** A plain entry, i.e. neither block marker. */
  predicate Plain(e: DirEntry)
  {
    e.kind != FIFF_BLOCK_START && e.kind != FIFF_BLOCK_END
  }

  /** The index the builder returns when its scan is at `i`: the closing
      index, or, when the block never closes, the directory length plus the
      number of nested blocks left open (each level steps one further). */
  function NextFrom(c: Codec, dir: seq<DirEntry>, s: nat, i: nat): (r: nat)
    requires s < |dir| && s <= i <= |dir|
    ensures r >= i
    ensures r < |dir| ==> EndsAt(c, dir, s, r)
    ensures r >= |dir| ==> r == |dir| + Depth(dir, s, |dir|)
    ensures forall j :: i <= j < r && j <= |dir| ==> !EndsAt(c, dir, s, j)
    decreases |dir| - i
  {
    if i == |dir| then |dir| + Depth(dir, s, |dir|)
    else if EndsAt(c, dir, s, i) then i
    else NextFrom(c, dir, s, i + 1)
  }

  /** The entries at depth 0 from `i` up to the close. */
  function OwnFrom(c: Codec, dir: seq<DirEntry>, s: nat, i: nat): (es: seq<DirEntry>)
    requires s < |dir| && s <= i <= |dir|
    ensures forall p :: 0 <= p < |es| ==> Plain(es[p])
    decreases |dir| - i
  {
    if i == |dir| || EndsAt(c, dir, s, i) then []
    else
      (if Plain(dir[i]) && Depth(dir, s, i) == 0 then [dir[i]] else [])
      + OwnFrom(c, dir, s, i + 1)
  }

  /** The indices of the BLOCK_START entries at depth 0 from `i` up to the
      close, other than `s` itself: where the children begin. */
  function ChildrenFrom(c: Codec, dir: seq<DirEntry>, s: nat, i: nat): (ks: seq<nat>)
    requires s < |dir| && s <= i <= |dir|
    ensures forall a :: 0 <= a < |ks| ==> i <= ks[a] < |dir| && s < ks[a]
    ensures forall a :: 0 <= a < |ks| ==> dir[ks[a]].kind == FIFF_BLOCK_START
    ensures forall a, b :: 0 <= a < b < |ks| ==> ks[a] < ks[b]
    decreases |dir| - i
  {
    if i == |dir| || EndsAt(c, dir, s, i) then []
    else
      (if dir[i].kind == FIFF_BLOCK_START && i != s && Depth(dir, s, i) == 0 then [i] else [])
      + ChildrenFrom(c, dir, s, i + 1)
  }

  /** The nodes built at the given starts, in order. */
  function ChildTrees(c: Codec, dir: seq<DirEntry>, ks: seq<nat>): (ts: seq<DirTree>)
    requires forall a :: 0 <= a < |ks| ==> ks[a] < |dir|
    ensures |ts| == |ks|
    ensures forall a :: 0 <= a < |ks| ==> ts[a] == Build(c, dir, ks[a]).0
  {
    if ks == [] then [] else [Build(c, dir, ks[0]).0] + ChildTrees(c, dir, ks[1..])
  }

  /** Inside a nested block opened at `cur`, the depth relative to the
      enclosing block `s` is one more than the depth relative to `cur`. */
  lemma {:induction false} DepthShift(c: Codec, dir: seq<DirEntry>, s: nat, cur: nat, i: nat)
    requires s < cur < i <= |dir|
    requires Depth(dir, s, cur) == 0 && dir[cur].kind == FIFF_BLOCK_START
    requires forall j :: cur <= j < i ==> !EndsAt(c, dir, cur, j)
    ensures Depth(dir, s, i) == 1 + Depth(dir, cur, i)
    decreases i
  {
    if i > cur + 1 {
      DepthShift(c, dir, s, cur, i - 1);
      assert !EndsAt(c, dir, cur, i - 1);
    }
  }

  /** A stretch at positive depth adds nothing to the node: no entry, no
      child, no close. */
  lemma {:induction false} SkipNested(c: Codec, dir: seq<DirEntry>, s: nat, a: nat, b: nat)
    requires s < |dir| && s <= a <= b <= |dir|
    requires forall j :: a <= j < b ==> Depth(dir, s, j) > 0
    ensures OwnFrom(c, dir, s, a) == OwnFrom(c, dir, s, b)
    ensures ChildrenFrom(c, dir, s, a) == ChildrenFrom(c, dir, s, b)
    ensures NextFrom(c, dir, s, a) == NextFrom(c, dir, s, b)
    decreases b - a
  {
    if a < b {
      SkipNested(c, dir, s, a + 1, b);
    }
  }

  /** A child opened at `cur` spans up to its own close `j`; the enclosing
      block resumes at depth 0 at `j + 1`, or, if the child never closes,
      the enclosing block ends one past the child's returned index. */
  lemma ChildSpan(c: Codec, dir: seq<DirEntry>, s: nat, cur: nat)
    requires s < cur < |dir|
    requires Depth(dir, s, cur) == 0 && dir[cur].kind == FIFF_BLOCK_START
    ensures var j := NextFrom(c, dir, cur, cur);
      && (j < |dir| ==>
            && Depth(dir, s, j + 1) == 0
            && OwnFrom(c, dir, s, cur) == OwnFrom(c, dir, s, j + 1)
            && ChildrenFrom(c, dir, s, cur) == [cur] + ChildrenFrom(c, dir, s, j + 1)
            && NextFrom(c, dir, s, cur) == NextFrom(c, dir, s, j + 1))
      && (j >= |dir| ==>
            && OwnFrom(c, dir, s, cur) == []
            && ChildrenFrom(c, dir, s, cur) == [cur]
            && NextFrom(c, dir, s, cur) == j + 1)
  {
    var j := NextFrom(c, dir, cur, cur);
    var last := if j < |dir| then j else |dir|;
    forall i | cur < i <= last
      ensures Depth(dir, s, i) > 0
    {
      DepthShift(c, dir, s, cur, i);
    }
    SkipNested(c, dir, s, cur + 1, if j < |dir| then j + 1 else |dir|);
    if j < |dir| {
      DepthShift(c, dir, s, cur, j);
    } else {
      DepthShift(c, dir, s, cur, |dir|);
    }
  }

  /** The scan from a depth-0 position collects exactly the depth-0 entries
      and children from there on, and returns the reference index. */
  lemma {:induction false} ScanLayout(c: Codec, dir: seq<DirEntry>, s: nat, cur: nat, t: DirTree)
    requires s < |dir| && s <= cur <= |dir|
    requires t.block == BlockOf(c, dir, s) && WellBuilt(c, t)
    requires Depth(dir, s, cur) == 0
    ensures var res := Scan(c, dir, s, cur, t);
      && res.0.dir == t.dir + OwnFrom(c, dir, s, cur)
      && res.0.children == t.children + ChildTrees(c, dir, ChildrenFrom(c, dir, s, cur))
      && res.1 == NextFrom(c, dir, s, cur)
    decreases |dir| - s, 0, |dir| - cur
  {
    if cur == |dir| {
    } else if dir[cur].kind == FIFF_BLOCK_START && cur != s {
      ScanChildLayout(c, dir, s, cur, t);
    } else if dir[cur].kind == FIFF_BLOCK_END && Closes(c, dir, s) {
      assert EndsAt(c, dir, s, cur);
    } else if Plain(dir[cur]) {
      ScanPlainLayout(c, dir, s, cur, t);
    } else {
      ScanPassLayout(c, dir, s, cur, t);
    }
  }

  /** One step of the reference definitions past a depth-0 entry that is
      neither a nested BLOCK_START nor the close. */
  lemma StepRefs(c: Codec, dir: seq<DirEntry>, s: nat, cur: nat)
    requires s <= cur < |dir| && Depth(dir, s, cur) == 0
    requires !(dir[cur].kind == FIFF_BLOCK_START && cur != s)
    requires !(dir[cur].kind == FIFF_BLOCK_END && Closes(c, dir, s))
    ensures Depth(dir, s, cur + 1) == 0
    ensures OwnFrom(c, dir, s, cur) == (if Plain(dir[cur]) then [dir[cur]] else []) + OwnFrom(c, dir, s, cur + 1)
    ensures ChildrenFrom(c, dir, s, cur) == ChildrenFrom(c, dir, s, cur + 1)
    ensures NextFrom(c, dir, s, cur) == NextFrom(c, dir, s, cur + 1)
  {
    assert !EndsAt(c, dir, s, cur);
  }

  /** The step of `ScanLayout` at a plain entry: it is owned. */
  lemma {:induction false} ScanPlainLayout(c: Codec, dir: seq<DirEntry>, s: nat, cur: nat, t: DirTree)
    requires s <= cur < |dir| && Plain(dir[cur])
    requires t.block == BlockOf(c, dir, s) && WellBuilt(c, t)
    requires Depth(dir, s, cur) == 0
    ensures var res := Scan(c, dir, s, cur, t);
      && res.0.dir == t.dir + OwnFrom(c, dir, s, cur)
      && res.0.children == t.children + ChildTrees(c, dir, ChildrenFrom(c, dir, s, cur))
      && res.1 == NextFrom(c, dir, s, cur)
    decreases |dir| - s, 0, |dir| - cur, 0
  {
    var t' := AddEntry(c, t, dir[cur]);
    AddEntryKeepsWellBuilt(c, t, dir[cur]);
    StepRefs(c, dir, s, cur);
    assert Scan(c, dir, s, cur, t) == Scan(c, dir, s, cur + 1, t');
    ScanLayout(c, dir, s, cur + 1, t');
    AppendAssoc(t.dir, [dir[cur]], OwnFrom(c, dir, s, cur + 1));
  }

  /** The step of `ScanLayout` at the block's own START or at a depth-0
      BLOCK_END whose close test fails: the scan passes over it. */
  lemma {:induction false} ScanPassLayout(c: Codec, dir: seq<DirEntry>, s: nat, cur: nat, t: DirTree)
    requires s <= cur < |dir|
    requires (dir[cur].kind == FIFF_BLOCK_START && cur == s)
          || (dir[cur].kind == FIFF_BLOCK_END && !Closes(c, dir, s))
    requires t.block == BlockOf(c, dir, s) && WellBuilt(c, t)
    requires Depth(dir, s, cur) == 0
    ensures var res := Scan(c, dir, s, cur, t);
      && res.0.dir == t.dir + OwnFrom(c, dir, s, cur)
      && res.0.children == t.children + ChildTrees(c, dir, ChildrenFrom(c, dir, s, cur))
      && res.1 == NextFrom(c, dir, s, cur)
    decreases |dir| - s, 0, |dir| - cur, 0
  {
    StepRefs(c, dir, s, cur);
    assert !Plain(dir[cur]);
    assert [] + OwnFrom(c, dir, s, cur + 1) == OwnFrom(c, dir, s, cur + 1);
    ScanPasses(c, dir, s, cur, t);
    ScanLayout(c, dir, s, cur + 1, t);
  }

  /** The scan passes over its own START and over an END whose close test
      fails, leaving the node as it is. */
  lemma ScanPasses(c: Codec, dir: seq<DirEntry>, s: nat, cur: nat, t: DirTree)
    requires s <= cur < |dir|
    requires (dir[cur].kind == FIFF_BLOCK_START && cur == s)
          || (dir[cur].kind == FIFF_BLOCK_END && !Closes(c, dir, s))
    requires t.block == BlockOf(c, dir, s) && WellBuilt(c, t)
    ensures Scan(c, dir, s, cur, t) == Scan(c, dir, s, cur + 1, t)
  {
  }

  /** The step of `ScanLayout` at a nested BLOCK_START. */
  lemma {:induction false} ScanChildLayout(c: Codec, dir: seq<DirEntry>, s: nat, cur: nat, t: DirTree)
    requires s < cur < |dir|
    requires t.block == BlockOf(c, dir, s) && WellBuilt(c, t)
    requires Depth(dir, s, cur) == 0 && dir[cur].kind == FIFF_BLOCK_START
    ensures var res := Scan(c, dir, s, cur, t);
      && res.0.dir == t.dir + OwnFrom(c, dir, s, cur)
      && res.0.children == t.children + ChildTrees(c, dir, ChildrenFrom(c, dir, s, cur))
      && res.1 == NextFrom(c, dir, s, cur)
    decreases |dir| - s, 0, |dir| - cur, 1
  {
    var sub := Build(c, dir, cur);
    var t' := t.(nchild := t.nchild + 1, children := t.children + [sub.0]);
    assert Scan(c, dir, s, cur, t) == Scan(c, dir, s, sub.1 + 1, t');
    BuildLayout(c, dir, cur);
    ChildSpan(c, dir, s, cur);
    assert sub.1 == NextFrom(c, dir, cur, cur);
    if sub.1 < |dir| {
      ScanAfterChild(c, dir, s, cur, t, sub.0, sub.1 + 1);
    } else {
      assert ChildTrees(c, dir, [cur]) == [sub.0];
    }
  }

  /** `ScanChildLayout` once the child built at `cur` ends before the end
      of the directory and the scan resumes at `next`. */
  lemma {:induction false} ScanAfterChild(c: Codec, dir: seq<DirEntry>, s: nat, cur: nat, t: DirTree,
                                          child: DirTree, next: nat)
    requires s < cur < next <= |dir|
    requires t.block == BlockOf(c, dir, s) && WellBuilt(c, t) && Indexable(child)
    requires Depth(dir, s, next) == 0 && child == Build(c, dir, cur).0
    requires OwnFrom(c, dir, s, cur) == OwnFrom(c, dir, s, next)
    requires ChildrenFrom(c, dir, s, cur) == [cur] + ChildrenFrom(c, dir, s, next)
    requires NextFrom(c, dir, s, cur) == NextFrom(c, dir, s, next)
    ensures var t' := t.(nchild := t.nchild + 1, children := t.children + [child]);
      var res := Scan(c, dir, s, next, t');
      && res.0.dir == t.dir + OwnFrom(c, dir, s, cur)
      && res.0.children == t.children + ChildTrees(c, dir, ChildrenFrom(c, dir, s, cur))
      && res.1 == NextFrom(c, dir, s, cur)
    decreases |dir| - s, 0, |dir| - cur, 0
  {
    var t' := t.(nchild := t.nchild + 1, children := t.children + [child]);
    assert forall i :: 0 <= i < |t'.children| ==> Indexable(t'.children[i]);
    ScanLayout(c, dir, s, next, t');
    var rest := ChildrenFrom(c, dir, s, next);
    assert ([cur] + rest)[1..] == rest;
    AppendAssoc(t.children, [child], ChildTrees(c, dir, rest));
  }

  /** The builder agrees with the depth-based description: the node's
      entries are exactly the plain depth-0 entries in directory order, its
      children are the blocks built at the depth-0 BLOCK_STARTs in directory
      order, and the returned index is the close index or `|dir|` plus the
      number of blocks left open. */
  lemma {:induction false} BuildLayout(c: Codec, dir: seq<DirEntry>, s: nat)
    requires s < |dir|
    ensures var res := Build(c, dir, s);
      && res.0.dir == OwnFrom(c, dir, s, s)
      && res.0.children == ChildTrees(c, dir, ChildrenFrom(c, dir, s, s))
      && res.1 == NextFrom(c, dir, s, s)
    decreases |dir| - s, 1
  {
    var t := Cleared().(block := BlockOf(c, dir, s), nent := 0, nchild := 0);
    ScanLayout(c, dir, s, s, t);
  }

  lemma AppendAssoc<T>(a: seq<T>, b: seq<T>, d: seq<T>)
    ensures (a + b) + d == a + (b + d)
  {
  }
}
