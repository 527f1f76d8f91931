/** The client's check of an update (verify_update.py): from one leaf hash
    and the sibling hashes the server sends, rebuild the root hash along
    the same interval halving the server's tree uses, and accept an update
    only when the old leaf rebuilds the old root and the new leaf rebuilds
    the expected new root.

    The path list has the server's pre-update root at index 0 and the
    siblings after it, root to leaf; the sibling a node at `depth` is
    combined with is therefore at index depth + 1. */
module VerifyUpdate {
  import opened Bytes
  import opened TreeShape
  import opened MerkleTree

  /** The three outcomes of verify_update: True, False, or the IndexError
      Python raises when the path list is too short to index. */
  datatype Verdict = Accepted | Rejected | ProofTooShort

  /** reconstruct_root_hash(L, R, file_id, depth, path_nodes, leaf_hash)
      (verify_update.py:11-22), with the depth argument the recursive calls
      at lines 18 and 21 leave out put back as depth + 1, and the sibling
      read at index depth + 1 (index 0 is the old root). `None` is the
      IndexError of a path list too short. The result is the leaf hash on
      a single slot and otherwise a digest. */
  function ReconstructRootHash(H: seq<byte> -> Digest, L: int, R: int, fileId: int, depth: nat,
                               pathNodes: seq<Hash>, leafHash: Hash): (r: Option<Hash>)
    requires L <= R
    ensures r.Some? && L == R ==> r.value == leafHash
    ensures r.Some? && L < R ==> |r.value| == DigestLen
    decreases R - L
  {
    if L == R then Some(leafHash)
    else
      var mid := Mid(L, R);
      if fileId <= mid then
        match ReconstructRootHash(H, L, mid, fileId, depth + 1, pathNodes, leafHash)
        case None => None
        case Some(sub) =>
          if depth + 1 < |pathNodes| then Some(H(sub + pathNodes[depth + 1])) else None
      else
        match ReconstructRootHash(H, mid + 1, R, fileId, depth + 1, pathNodes, leafHash)
        case None => None
        case Some(sub) =>
          if depth + 1 < |pathNodes| then Some(H(pathNodes[depth + 1] + sub)) else None
  }

  /** The rebuilt root of the whole tree, from depth 0 over [0, n - 1]. */
  function RootFrom(H: seq<byte> -> Digest, fileId: int, pathNodes: seq<Hash>, leafHash: Hash): (r: Option<Hash>) {
    ReconstructRootHash(H, 0, N - 1, fileId, 0, pathNodes, leafHash)
  }

  /** verify_update (verify_update.py:25-37). `oldHash` is the hash of the
      slot's old contents, which line 28 uses without defining; line 33
      rebuilds the new root from `newHash` rather than from the old hash a
      second time; and `expectedNewRoot` is what line 34 compares that
      root with (the module-level root_hash there). */
  function Verify(H: seq<byte> -> Digest, fileId: int, pathNodes: seq<Hash>, oldRootHash: Hash,
                  oldHash: Hash, newHash: Hash, expectedNewRoot: Hash): (v: Verdict)
    ensures v == Accepted <==>
              && |pathNodes| > TreeDepth
              && RootFrom(H, fileId, pathNodes, oldHash) == Some(pathNodes[0])
              && pathNodes[0] == oldRootHash
              && RootFrom(H, fileId, pathNodes, newHash) == Some(expectedNewRoot)
  {
    RootShape();
    ReconstructDefined(H, 0, 0, N - 1, fileId, pathNodes, oldHash);
    ReconstructDefined(H, 0, 0, N - 1, fileId, pathNodes, newHash);
    match RootFrom(H, fileId, pathNodes, oldHash)
    case None => ProofTooShort
    case Some(oldRoot) =>
      if oldRoot != pathNodes[0] || oldRoot != oldRootHash then Rejected
      else if RootFrom(H, fileId, pathNodes, newHash) != Some(expectedNewRoot) then Rejected
      else Accepted
  }

  /** Rebuilding below `depth` reads the path list at indices depth + 1 up
      to tree_depth, so it succeeds exactly when the list reaches that far. */
  lemma {:induction false} ReconstructDefined(H: seq<byte> -> Digest, depth: nat, L: int, R: int, fileId: int,
                                              pathNodes: seq<Hash>, leafHash: Hash)
    requires Shape(depth, L, R)
    ensures ReconstructRootHash(H, L, R, fileId, depth, pathNodes, leafHash).Some?
        <==> depth == TreeDepth || TreeDepth < |pathNodes|
    decreases R - L
  {
    LeafIffSingleSlot(depth, L, R);
    if L < R {
      ChildShapes(depth, L, R);
      if fileId <= Mid(L, R) {
        ReconstructDefined(H, depth + 1, L, Mid(L, R), fileId, pathNodes, leafHash);
      } else {
        ReconstructDefined(H, depth + 1, Mid(L, R) + 1, R, fileId, pathNodes, leafHash);
      }
    }
  }

  /** The verdict is ProofTooShort exactly when the path list holds fewer
      than 1 + tree_depth entries. */
  lemma ShortProofIsIndexError(H: seq<byte> -> Digest, fileId: int, pathNodes: seq<Hash>, oldRootHash: Hash,
                               oldHash: Hash, newHash: Hash, expectedNewRoot: Hash)
    ensures Verify(H, fileId, pathNodes, oldRootHash, oldHash, newHash, expectedNewRoot) == ProofTooShort
        <==> |pathNodes| <= TreeDepth
  {
    RootShape();
    ReconstructDefined(H, 0, 0, N - 1, fileId, pathNodes, oldHash);
  }

  /** Rebuilding from the siblings update_leaf records over a subtree `t`
      gives the root `t` has once that leaf holds `leafHash`, whatever the
      rest of `t` is. */
  lemma {:induction false} ReconstructFromSiblings(H: seq<byte> -> Digest, t: Tree, L: int, R: int, fileId: int,
                                                   depth: nat, pathNodes: seq<Hash>, leafHash: Hash)
    requires L <= R && depth + 1 <= |pathNodes|
    requires pathNodes[depth + 1..] == Siblings(H, t, L, R, fileId)
    ensures ReconstructRootHash(H, L, R, fileId, depth, pathNodes, leafHash)
         == Some(RootHash(H, UpdateTree(t, L, R, fileId, leafHash)))
    decreases R - L
  {
    if L < R {
      var mid := Mid(L, R);
      var rest := pathNodes[depth + 2..];
      assert pathNodes[depth + 1..] == [pathNodes[depth + 1]] + rest;
      if fileId <= mid {
        ReconstructFromSiblings(H, LeftOf(t, L, R), L, mid, fileId, depth + 1, pathNodes, leafHash);
      } else {
        ReconstructFromSiblings(H, RightOf(t, L, R), mid + 1, R, fileId, depth + 1, pathNodes, leafHash);
      }
    }
  }

  /** Two path lists that rebuild the same root from the same leaf rebuild
      the same root from every other leaf too, unless the returned pair is a
      collision of H. The leaf hash is the same on both sides and every
      level above it is a digest, so at every level the concatenation
      splits at the same place. */
  lemma {:induction false} ReconstructBinding(H: seq<byte> -> Digest, L: int, R: int, fileId: int, depth: nat,
                                              p1: seq<Hash>, p2: seq<Hash>, leafHash: Hash, other: Hash)
    returns (x: seq<byte>, y: seq<byte>)
    requires L <= R
    requires ReconstructRootHash(H, L, R, fileId, depth, p1, leafHash).Some?
    requires ReconstructRootHash(H, L, R, fileId, depth, p1, leafHash)
          == ReconstructRootHash(H, L, R, fileId, depth, p2, leafHash)
    ensures || ReconstructRootHash(H, L, R, fileId, depth, p1, other)
               == ReconstructRootHash(H, L, R, fileId, depth, p2, other)
            || (x != y && H(x) == H(y))
    decreases R - L
  {
    x, y := [], [];
    if L < R {
      var mid := Mid(L, R);
      var lo, hi := if fileId <= mid then L else mid + 1, if fileId <= mid then mid else R;
      var a1 := ReconstructRootHash(H, lo, hi, fileId, depth + 1, p1, leafHash);
      var a2 := ReconstructRootHash(H, lo, hi, fileId, depth + 1, p2, leafHash);
      var s1, s2 := p1[depth + 1], p2[depth + 1];
      var in1 := if fileId <= mid then a1.value + s1 else s1 + a1.value;
      var in2 := if fileId <= mid then a2.value + s2 else s2 + a2.value;
      if in1 != in2 {
        x, y := in1, in2;
      } else {
        assert |a1.value| == |a2.value|;
        if fileId <= mid {
          assert a1.value == in1[..|a1.value|] == in2[..|a2.value|] == a2.value;
          assert s1 == in1[|a1.value|..] == in2[|a2.value|..] == s2;
        } else {
          assert s1 == in1[..|s1|] == in2[..|s2|] == s2;
          assert a1.value == in1[|s1|..] == in2[|s2|..] == a2.value;
        }
        x, y := ReconstructBinding(H, lo, hi, fileId, depth + 1, p1, p2, leafHash, other);
      }
    }
  }

  /** The state of the server's tree that the client checks against: its
      root and the path list update_file returns for it. */
  function HonestPath(H: seq<byte> -> Digest, t: Tree, fileId: int): (p: seq<Hash>) {
    [RootHash(H, t)] + Siblings(H, t, 0, N - 1, fileId)
  }

  /** Completeness (verify_update.py:28-37 against node.py:24-43): on a
      fully built tree, the path list update_file returns, the old root, the
      old leaf and the root after the update are accepted. */
  lemma HonestUpdateAccepted(H: seq<byte> -> Digest, t: Tree, fileId: int, newHash: Hash)
    requires Complete(t, 0, N - 1)
    ensures Verify(H, fileId, HonestPath(H, t, fileId), RootHash(H, t), LeafAt(t, 0, N - 1, fileId),
                   newHash, RootHash(H, UpdateTree(t, 0, N - 1, fileId, newHash))) == Accepted
  {
    var p := HonestPath(H, t, fileId);
    RootShape();
    SiblingsLength(H, t, 0, 0, N - 1, fileId);
    assert p[1..] == Siblings(H, t, 0, N - 1, fileId);
    ReconstructFromSiblings(H, t, 0, N - 1, fileId, 0, p, LeafAt(t, 0, N - 1, fileId));
    ReconstructFromSiblings(H, t, 0, N - 1, fileId, 0, p, newHash);
    RewriteSameLeaf(t, 0, N - 1, fileId);
  }

  /** Soundness: when the client knows the true old root and the true old
      leaf, an update it accepts carries the true new root, whatever
      path list the server sent, unless the returned pair is a collision
      of H. */
  lemma AcceptedIsTrueUpdate(H: seq<byte> -> Digest, t: Tree, fileId: int, pathNodes: seq<Hash>,
                             newHash: Hash, expectedNewRoot: Hash)
    returns (x: seq<byte>, y: seq<byte>)
    requires Complete(t, 0, N - 1)
    requires Verify(H, fileId, pathNodes, RootHash(H, t), LeafAt(t, 0, N - 1, fileId),
                    newHash, expectedNewRoot) == Accepted
    ensures || expectedNewRoot == RootHash(H, UpdateTree(t, 0, N - 1, fileId, newHash))
            || (x != y && H(x) == H(y))
  {
    var honest := HonestPath(H, t, fileId);
    var oldHash := LeafAt(t, 0, N - 1, fileId);
    assert honest[1..] == Siblings(H, t, 0, N - 1, fileId);
    ReconstructFromSiblings(H, t, 0, N - 1, fileId, 0, honest, oldHash);
    ReconstructFromSiblings(H, t, 0, N - 1, fileId, 0, honest, newHash);
    RewriteSameLeaf(t, 0, N - 1, fileId);
    x, y := ReconstructBinding(H, 0, N - 1, fileId, 0, pathNodes, honest, oldHash, newHash);
  }

  /** The tree node.py starts from, with children created on demand: a
      root without children holding the empty hash. */
  function LazyStart(): (t: Tree) {
    Fresh(0, N - 1)
  }

  /** As written, the first update of a tree that create nodes on demand
      is rejected: the client starts from the empty root_hash
      (verify_update.py:5), the server's untouched root also holds the empty
      hash, the path list is exactly what update_file returns and the old
      leaf the empty hash it holds, yet rebuilding gives a digest, never the
      empty hash. */
  lemma LazyFirstUpdateRejected(H: seq<byte> -> Digest, fileId: int, newHash: Hash, expectedNewRoot: Hash)
    ensures RootHash(H, LazyStart()) == []
    ensures LeafAt(LazyStart(), 0, N - 1, fileId) == []
    ensures Verify(H, fileId, HonestPath(H, LazyStart(), fileId), [], [], newHash, expectedNewRoot) == Rejected
  {
    var p := HonestPath(H, LazyStart(), fileId);
    RootShape();
    BuiltHasEmptyLeaves(0, N - 1, fileId);
    SiblingsLength(H, LazyStart(), 0, 0, N - 1, fileId);
    ReconstructDefined(H, 0, 0, N - 1, fileId, p, []);
  }

  /** As written, the client never accepts any update: its trusted root
      starts as the empty root_hash (verify_update.py:5), line 29 compares
      it with a rebuilt root, and a rebuilt root of the whole tree is always
      a digest. This holds whatever the server's tree and path list are. */
  lemma EmptyTrustedRootNeverAccepts(H: seq<byte> -> Digest, fileId: int, pathNodes: seq<Hash>,
                                     oldHash: Hash, newHash: Hash, expectedNewRoot: Hash)
    ensures Verify(H, fileId, pathNodes, [], oldHash, newHash, expectedNewRoot) != Accepted
  {
  }

  /** As written, creating nodes on demand breaks honest verification even
      for a client that holds the true root: after slot 0 is written on the
      lazy start tree, the right half of the root is still a node without
      children holding the empty hash, and the root's hash is computed
      over it. The honest update of slot 7 then rebuilds the old root over
      a right half that now has children, which differs from the stored
      root unless the returned pair is a collision of H. */
  lemma LazySecondUpdateRejected(H: seq<byte> -> Digest, h0: Hash, h7: Hash)
    returns (x: seq<byte>, y: seq<byte>)
    ensures
      var t1 := UpdateTree(LazyStart(), 0, N - 1, 0, h0);
      || Verify(H, 7, HonestPath(H, t1, 7), RootHash(H, t1), LeafAt(t1, 0, N - 1, 7),
                h7, RootHash(H, UpdateTree(t1, 0, N - 1, 7, h7))) == Rejected
      || (x != y && H(x) == H(y))
  {
    var t1 := UpdateTree(LazyStart(), 0, N - 1, 0, h0);
    var p := HonestPath(H, t1, 7);
    RootShape();
    SiblingsLength(H, t1, 0, 0, N - 1, 7);
    assert p[1..] == Siblings(H, t1, 0, N - 1, 7);
    var leaf := LeafAt(t1, 0, N - 1, 7);
    ReconstructFromSiblings(H, t1, 0, N - 1, 7, 0, p, leaf);
    var right := UpdateTree(Pending, 4, 7, 7, leaf);
    assert t1 == Branch(t1.left, Pending);
    assert UpdateTree(t1, 0, N - 1, 7, leaf) == Branch(t1.left, right);
    x := RootHash(H, t1.left);
    y := x + RootHash(H, right);
    assert RootHash(H, t1) == H(x + []);
    assert x + [] == x;
    assert p[0] == H(x);
    assert RootFrom(H, 7, p, leaf) == Some(H(y));
  }

  /** The corrected start: when the tree is built eagerly and the client
      starts from that tree's root instead of the empty root_hash, the first
      update is accepted, for every slot. */
  lemma BuiltFirstUpdateAccepted(H: seq<byte> -> Digest, fileId: int, newHash: Hash)
    ensures LeafAt(Built(0, N - 1), 0, N - 1, fileId) == []
    ensures Verify(H, fileId, HonestPath(H, Built(0, N - 1), fileId), RootHash(H, Built(0, N - 1)), [],
                   newHash, RootHash(H, UpdateTree(Built(0, N - 1), 0, N - 1, fileId, newHash))) == Accepted
  {
    BuiltHasEmptyLeaves(0, N - 1, fileId);
    HonestUpdateAccepted(H, Built(0, N - 1), fileId, newHash);
  }

  /** The corrected tree on the input that shows lazy creation failing:
      when the tree is built eagerly, the honest update of slot 7 after
      slot 0 is accepted by a client holding the true root. */
  lemma BuiltSecondUpdateAccepted(H: seq<byte> -> Digest, h0: Hash, h7: Hash)
    ensures
      var t1 := UpdateTree(Built(0, N - 1), 0, N - 1, 0, h0);
      Verify(H, 7, HonestPath(H, t1, 7), RootHash(H, t1), LeafAt(t1, 0, N - 1, 7),
             h7, RootHash(H, UpdateTree(t1, 0, N - 1, 7, h7))) == Accepted
  {
    var t1 := UpdateTree(Built(0, N - 1), 0, N - 1, 0, h0);
    UpdateKeepsComplete(Built(0, N - 1), 0, N - 1, 0, h0);
    HonestUpdateAccepted(H, t1, 7, h7);
  }
}
