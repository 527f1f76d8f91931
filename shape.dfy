/** The fixed shape of the tree over the file slots: every node covers an
    interval [L, R] of slot numbers, and the children of a node split it at
    mid = (L + R) // 2. Shared by the server tree and the client verifier,
    which both hard-code n = 8. */
module TreeShape {

  /** Number of file slots (leaves), n in node.py and verify_update.py. */
  const N: nat := 8

  /** Depth of the leaves, log2(n); the root has depth 0. The source computes
      it with floating-point log2; the model uses the integer. */
  const TreeDepth: nat := 3

  function Pow2(k: nat): (r: nat)
    ensures r >= 1
  {
    if k == 0 then 1 else 2 * Pow2(k - 1)
  }

  /** A node at `depth` covering [L, R] has the size its depth dictates. */
  predicate Shape(depth: int, L: int, R: int) {
    0 <= depth <= TreeDepth && R - L + 1 == Pow2(TreeDepth - depth)
  }

  /** Python's floor division (L + R) // 2; Dafny's `/` by a positive
      divisor also rounds down, for negative operands too. */
  function Mid(L: int, R: int): (m: int) {
    (L + R) / 2
  }

  /** The slot the walk reaches from a node covering [L, R]: going left
      whenever file_id <= mid reaches file_id itself when it is in range,
      and the nearest end of the interval when it is not. */
  function Slot(fileId: int, L: int, R: int): (s: int)
    requires L <= R
    ensures L <= s <= R
    ensures L <= fileId <= R ==> s == fileId
    ensures fileId < L ==> s == L
    ensures fileId > R ==> s == R
  {
    if fileId < L then L else if fileId > R then R else fileId
  }

  /** The root covers all slots. */
  lemma RootShape()
    ensures Shape(0, 0, N - 1)
  {
  }

  /** A node is a leaf (depth == tree_depth) exactly when it covers one slot. */
  lemma LeafIffSingleSlot(depth: int, L: int, R: int)
    requires Shape(depth, L, R)
    ensures (depth == TreeDepth) == (L == R)
  {
  }

  /** The children of an internal node cover [L, mid] and [mid + 1, R]:
      both non-empty, disjoint, together exactly [L, R], each of the size
      its depth dictates. */
  lemma ChildShapes(depth: int, L: int, R: int)
    requires Shape(depth, L, R) && depth < TreeDepth
    ensures L <= Mid(L, R) < R
    ensures Shape(depth + 1, L, Mid(L, R))
    ensures Shape(depth + 1, Mid(L, R) + 1, R)
  {
  }

  /** Descending toward slot file_id keeps the same target slot. */
  lemma SlotInChild(fileId: int, L: int, R: int)
    requires L <= Mid(L, R) < R
    ensures fileId <= Mid(L, R) ==> Slot(fileId, L, Mid(L, R)) == Slot(fileId, L, R)
    ensures fileId > Mid(L, R) ==> Slot(fileId, Mid(L, R) + 1, R) == Slot(fileId, L, R)
  {
  }
}
