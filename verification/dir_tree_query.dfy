/**
 The read-only queries on a directory tree: `dir_tree_find` collects the
 nodes of one block kind, `find_tag` and `has_tag` look at a node's own
 entries only.
 */
module DirTreeQuery {
  import opened FiffTypes

  /** All nodes of the subtree, node before children, children in order. */
  function PreOrder(t: DirTree): (ns: seq<DirTree>)
    ensures |ns| >= 1 && ns[0] == t
    decreases t, 1
  {
    [t] + PreOrderFrom(t, 0)
  }

  /** Pre-order listing of the children of `t` from index `i` on. */
  function PreOrderFrom(t: DirTree, i: nat): seq<DirTree>
    requires i <= |t.children|
    decreases t, 0, |t.children| - i
  {
    if i == |t.children| then [] else PreOrder(t.children[i]) + PreOrderFrom(t, i + 1)
  }

  /** The nodes of `ns` whose block kind is `kind`, in order. */
  function OfKind(ns: seq<DirTree>, kind: int): (r: seq<DirTree>)
    ensures forall n :: n in r <==> n in ns && n.block == kind
    ensures |r| <= |ns|
  {
    if ns == [] then []
    else (if ns[0].block == kind then [ns[0]] else []) + OfKind(ns[1..], kind)
  }

  /** `dir_tree_find(kind)`: the node itself if it has the kind, then the
      results of its children in order. */
  function DirTreeFind(t: DirTree, kind: int): (r: seq<DirTree>)
    ensures forall n :: n in r ==> n.block == kind
    ensures |r| > 0 && r[0] == t <== t.block == kind
    decreases t, 1
  {
    (if t.block == kind then [t] else []) + FindFrom(t, kind, 0)
  }

  /** The results of `dir_tree_find(kind)` on the children from index `i`. */
  function FindFrom(t: DirTree, kind: int, i: nat): (r: seq<DirTree>)
    requires i <= |t.children|
    ensures forall n :: n in r ==> n.block == kind
    decreases t, 0, |t.children| - i
  {
    if i == |t.children| then [] else DirTreeFind(t.children[i], kind) + FindFrom(t, kind, i + 1)
  }

  lemma OfKindAppend(a: seq<DirTree>, b: seq<DirTree>, kind: int)
    ensures OfKind(a + b, kind) == OfKind(a, kind) + OfKind(b, kind)
  {
    if a != [] {
      assert (a + b)[1..] == a[1..] + b;
      OfKindAppend(a[1..], b, kind);
      var h := if a[0].block == kind then [a[0]] else [];
      assert OfKind(a + b, kind) == h + (OfKind(a[1..], kind) + OfKind(b, kind));
      assert h + (OfKind(a[1..], kind) + OfKind(b, kind)) == (h + OfKind(a[1..], kind)) + OfKind(b, kind);
    } else {
      assert a + b == b;
    }
  }

  /** `dir_tree_find` is the pre-order listing filtered by block kind: it
      returns every node of the kind, each once per occurrence, node before
      descendants, and nothing else. */
  lemma {:induction false} FindIsPreOrderOfKind(t: DirTree, kind: int)
    ensures DirTreeFind(t, kind) == OfKind(PreOrder(t), kind)
    decreases t, 1
  {
    FindFromIsPreOrderOfKind(t, kind, 0);
    OfKindAppend([t], PreOrderFrom(t, 0), kind);
  }

  lemma {:induction false} FindFromIsPreOrderOfKind(t: DirTree, kind: int, i: nat)
    requires i <= |t.children|
    ensures FindFrom(t, kind, i) == OfKind(PreOrderFrom(t, i), kind)
    decreases t, 0, |t.children| - i
  {
    if i < |t.children| {
      FindIsPreOrderOfKind(t.children[i], kind);
      FindFromIsPreOrderOfKind(t, kind, i + 1);
      OfKindAppend(PreOrder(t.children[i]), PreOrderFrom(t, i + 1), kind);
    }
  }

  /** A tree shaped 0 ( 5 ( 5 ) ) ( 7 ): searching for 5 yields the outer
      node, then the inner one. */
  lemma FindTwoNested(inner: DirTree, outer: DirTree, other: DirTree, root: DirTree)
    requires inner.block == 5 && inner.children == []
    requires outer.block == 5 && outer.children == [inner]
    requires other.block == 7 && other.children == []
    requires root.block == 0 && root.children == [outer, other]
    ensures DirTreeFind(root, 5) == [outer, inner]
  {
    assert DirTreeFind(inner, 5) == [inner];
    assert FindFrom(outer, 5, 0) == [inner];
    assert DirTreeFind(outer, 5) == [outer, inner];
    assert DirTreeFind(other, 5) == [];
    assert FindFrom(root, 5, 1) == [];
  }

  /** The query loops visit `dir[0 .. nent)`. */
  predicate HasOwnTag(t: DirTree, kind: int)
    requires t.nent <= |t.dir|
  {
    exists p :: 0 <= p < t.nent && t.dir[p].kind == kind
  }

  /** `has_tag(findkind)`: whether one of the node's own entries has the
      kind; the children are never looked at. */
  method HasTag(t: DirTree, findkind: int) returns (found: bool)
    requires t.nent <= |t.dir|
    ensures found <==> HasOwnTag(t, findkind)
  {
    var p := 0;
    while p < t.nent
      invariant 0 <= p <= |t.dir|
      invariant forall q :: 0 <= q < p ==> t.dir[q].kind != findkind
      invariant p > 0 ==> p <= t.nent
    {
      if t.dir[p].kind == findkind {
        return true;
      }
      p := p + 1;
    }
    return false;
  }

  /** `find_tag(stream, findkind, tag)`: the tag at the first own entry of
      the kind, read through the codec, or no tag (the tag handle is cleared)
      when there is none. */
  method FindTag(c: Codec, t: DirTree, findkind: int) returns (found: bool, tag: Option<Tag>)
    requires t.nent <= |t.dir|
    ensures found <==> HasOwnTag(t, findkind)
    ensures found ==> exists p ::
      && 0 <= p < t.nent && t.dir[p].kind == findkind
      && (forall q :: 0 <= q < p ==> t.dir[q].kind != findkind)
      && tag == Some(c.tagAt(t.dir[p].pos))
    ensures !found ==> tag == None
  {
    var p := 0;
    while p < t.nent
      invariant 0 <= p <= |t.dir|
      invariant forall q :: 0 <= q < p ==> t.dir[q].kind != findkind
      invariant p > 0 ==> p <= t.nent
    {
      if t.dir[p].kind == findkind {
        return true, Some(c.tagAt(t.dir[p].pos));
      }
      p := p + 1;
    }
    return false, None;
  }

  /** A cleared node holds no entry, so neither query finds anything, and
      `dir_tree_find` returns the node only for kind -1. */
  lemma ClearedFindsNothing(kind: int)
    ensures !HasOwnTag(Cleared(), kind)
    ensures DirTreeFind(Cleared(), kind) == if kind == -1 then [Cleared()] else []
  {
  }
}
