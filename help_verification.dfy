/** The server's side of an update (help_verification.py): record the
    current root, run the tree walk for the slot, and hand the client the
    list of hashes it needs to check the update. */
module HelpVerification {
  import opened Bytes
  import opened TreeShape
  import opened MerkleTree
  import VerifyUpdate

  /** update_file(file_id, new_hash) (help_verification.py:4-10). The
      source appends to a module-level list path_nodes and walks the
      module-level tree root, calling root.query, which does not exist;
      here the tree is a parameter, the list starts empty on every call,
      and the walk is Node.UpdateLeaf. The result is the root before the
      update followed by the siblings the walk recorded, root to leaf. */
  method UpdateFile(root: Node, fileId: int, newHash: Hash) returns (pathNodes: seq<Hash>)
    requires root.Valid() && root.depth == 0 && root.L == 0 && root.R == N - 1
    modifies root.Repr
    ensures root.Valid() && fresh(root.Repr - old(root.Repr))
    ensures root.Model == UpdateTree(old(root.Model), 0, N - 1, fileId, newHash)
    ensures pathNodes == VerifyUpdate.HonestPath(root.computeHash, old(root.Model), fileId)
    ensures |pathNodes| == 1 + TreeDepth
    ensures pathNodes[0] == old(root.hash)
  {
    pathNodes := [root.hash];
    ghost var before := root.Model;
    var appended := root.UpdateLeaf(fileId, newHash);
    SiblingsLength(root.computeHash, before, 0, 0, N - 1, fileId);
    pathNodes := pathNodes + appended;
  }

  /** After an update on a fully built tree the slot holds the new hash,
      every other slot keeps its hash, the tree is still fully built and its
      root is the hash closure of its leaves (help_verification.py:6,
      node.py:36-43). */
  lemma UpdateResult(H: seq<byte> -> Digest, t: Tree, fileId: int, newHash: Hash, k: int)
    requires Complete(t, 0, N - 1) && 0 <= fileId < N && 0 <= k < N
    ensures Complete(UpdateTree(t, 0, N - 1, fileId, newHash), 0, N - 1)
    ensures |Leaves(t, 0, N - 1)| == |Leaves(UpdateTree(t, 0, N - 1, fileId, newHash), 0, N - 1)| == N
    ensures Leaves(UpdateTree(t, 0, N - 1, fileId, newHash), 0, N - 1)[k]
         == if k == fileId then newHash else Leaves(t, 0, N - 1)[k]
    ensures RootHash(H, UpdateTree(t, 0, N - 1, fileId, newHash))
         == MerkleRoot(H, Leaves(UpdateTree(t, 0, N - 1, fileId, newHash), 0, N - 1))
  {
    var u := UpdateTree(t, 0, N - 1, fileId, newHash);
    LeavesLength(t, 0, N - 1);
    LeavesLength(u, 0, N - 1);
    UpdateKeepsComplete(t, 0, N - 1, fileId, newHash);
    LeafAtIndex(t, 0, N - 1, k);
    LeafAtIndex(u, 0, N - 1, k);
    UpdateChangesOneLeaf(t, 0, N - 1, fileId, newHash, k);
    RootIsClosure(H, u, 0, N - 1);
  }
}
