/**
 Data model of the FIFF directory tree: tag descriptors, block identifiers,
 tags as the codec returns them, the tree node itself, and the tag codec,
 which is kept abstract (its reading and byte-order conversion are outside
 this model and appear only as total functions).
 */
module FiffTypes {

  // Reserved tag kinds of the FIFF format that the directory tree reacts to.
  const FIFF_FILE_ID: int := 100
  const FIFF_BLOCK_ID: int := 103
  const FIFF_BLOCK_START: int := 104
  const FIFF_BLOCK_END: int := 105
  const FIFF_PARENT_FILE_ID: int := 109
  const FIFF_PARENT_BLOCK_ID: int := 110

  /** The "next" link written into every copied tag: the tag follows sequentially. */
  const FIFFV_NEXT_SEQ: int := 0

  newtype byte = x: int | 0 <= x < 256

  datatype Option<T> = None | Some(value: T)

  /** A block or file identifier; a version of -1 marks an absent identifier. */
  datatype FiffId = FiffId(version: int, machid0: int, machid1: int, secs: int, usecs: int)

  /** The identifier after `clear()`: absent. */
  const ClearedId: FiffId := FiffId(-1, 0, 0, 0, 0)

  /** One directory entry, as produced by the scan of the whole file. */
  datatype DirEntry = DirEntry(kind: int, typ: int, pos: int, size: int)

  /** One tag as read back from a stream, payload already in host byte order;
      its size is the length of `data`. */
  datatype Tag = Tag(kind: int, typ: int, next: int, data: seq<byte>)

  /** A node of the directory tree. `nent`, `nentTree` and `nchild` are the
      counters the source keeps beside its lists; `clear()` sets them to -1. */
  datatype DirTree = DirTree(
    block: int,
    id: FiffId,
    parentId: FiffId,
    dir: seq<DirEntry>,
    nent: int,
    nentTree: int,
    children: seq<DirTree>,
    nchild: int)

  /** The tag codec: reading the tag stored at a byte position, decoding its
      payload as an integer or an identifier, and whether the input device
      can seek to a position. */
  datatype Codec = Codec(
    tagAt: int -> Tag,
    toInt: Tag -> int,
    toFiffId: Tag -> FiffId,
    seekOk: int -> bool)
  {
    /** The integer payload of the tag at `pos`. */
    function IntAt(pos: int): int {
      toInt(tagAt(pos))
    }

    /** The identifier payload of the tag at `pos`. */
    function IdAt(pos: int): FiffId {
      toFiffId(tagAt(pos))
    }
  }

  /** The state `clear()` leaves a node in: no identity, and counters below
      zero, so the loops over entries and children visit nothing. */
  function Cleared(): (t: DirTree)
    ensures Indexable(t) && t.nent < 0 && t.nchild < 0 && t.dir == [] && t.children == []
    ensures t.id.version == -1 && t.parentId.version == -1
  {
    DirTree(-1, ClearedId, ClearedId, [], -1, -1, [], -1)
  }

  /** The entries a loop `for p < nent` visits. */
  function OwnEntries(t: DirTree): (es: seq<DirEntry>)
    requires t.nent <= |t.dir|
    ensures |es| == if t.nent <= 0 then 0 else t.nent
    ensures forall p :: 0 <= p < |es| ==> es[p] == t.dir[p]
  {
    if t.nent <= 0 then [] else t.dir[..t.nent]
  }

  /** Every counter of the subtree fits within the list it counts, so the
      index loops of the source stay in bounds. */
  predicate Indexable(t: DirTree)
    ensures Indexable(t) ==> t.nent <= |t.dir| && t.nchild <= |t.children|
  {
    && t.nent <= |t.dir|
    && t.nchild <= |t.children|
    && forall i :: 0 <= i < |t.children| ==> Indexable(t.children[i])
  }
}
