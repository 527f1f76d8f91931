/** The server's Merkle integrity tree over the file slots (node.py).

    A `Node` covers the slot interval [L, R]. Children are created lazily the
    first time an update walks through a node, and a freshly created node
    holds the empty hash. `UpdateLeaf` walks from a node down to one leaf,
    records the hash of the child it does not enter at every level, sets the
    leaf's hash, and on the way back recomputes every node on the path as
    H(left.hash + right.hash).

    The abstract value of a node is a `Tree`; the pure functions below say
    what an update does to it, which hashes it records and what the leaves
    are. They recurse on the interval and stop where L == R, which for a
    node of the tree's shape is exactly where depth == tree_depth
    (TreeShape.LeafIffSingleSlot). */
module MerkleTree {
  import opened Bytes
  import opened TreeShape

  /** The shape of a subtree as the server holds it. `Pending` is an internal
      node whose children have not been created yet; like every fresh node it
      holds the empty hash (node.py:16-18). A `Branch` has both children and
      its hash is the hash of their hashes (node.py:43). */
  datatype Tree = Leaf(hash: Hash) | Pending | Branch(left: Tree, right: Tree)

  /** The hash a subtree's top node stores. */
  function RootHash(H: seq<byte> -> Digest, t: Tree): (r: Hash) {
    match t
    case Leaf(h) => h
    case Pending => []
    case Branch(l, r) => H(RootHash(H, l) + RootHash(H, r))
  }

  /** What Node(depth, L, R) builds for [L, R]: a leaf when it covers one
      slot, else a node without children; either way with the empty hash
      (node.py:8-18). */
  function Fresh(L: int, R: int): (t: Tree) {
    if L >= R then Leaf([]) else Pending
  }

  /** The left child of an internal node once node.py:30-31 has run: the
      existing one, or a freshly created one covering [L, mid]. */
  function LeftOf(t: Tree, L: int, R: int): (c: Tree) {
    if t.Branch? then t.left else Fresh(L, Mid(L, R))
  }

  /** The right child once node.py:32-33 has run, covering [mid + 1, R]. */
  function RightOf(t: Tree, L: int, R: int): (c: Tree) {
    if t.Branch? then t.right else Fresh(Mid(L, R) + 1, R)
  }

  /** The hash a leaf holds; a node never created counts as the empty hash. */
  function LeafHash(t: Tree): (h: Hash) {
    if t.Leaf? then t.hash else []
  }

  /** The tree after update_leaf(file_id, new_hash) (node.py:24-43). */
  function UpdateTree(t: Tree, L: int, R: int, fileId: int, newHash: Hash): (u: Tree)
    decreases R - L
  {
    if L >= R then Leaf(newHash)
    else if fileId <= Mid(L, R) then
      Branch(UpdateTree(LeftOf(t, L, R), L, Mid(L, R), fileId, newHash), RightOf(t, L, R))
    else
      Branch(LeftOf(t, L, R), UpdateTree(RightOf(t, L, R), Mid(L, R) + 1, R, fileId, newHash))
  }

  /** The hashes update_leaf appends to path_nodes: at every internal level
      the hash of the child it does not descend into, read before the
      descent, in root-to-leaf order (node.py:36-41). */
  function Siblings(H: seq<byte> -> Digest, t: Tree, L: int, R: int, fileId: int): (s: seq<Hash>)
    decreases R - L
  {
    if L >= R then []
    else if fileId <= Mid(L, R) then
      [RootHash(H, RightOf(t, L, R))] + Siblings(H, LeftOf(t, L, R), L, Mid(L, R), fileId)
    else
      [RootHash(H, LeftOf(t, L, R))] + Siblings(H, RightOf(t, L, R), Mid(L, R) + 1, R, fileId)
  }

  /** The leaf hash at the end of the path update_leaf takes for file_id. */
  function LeafAt(t: Tree, L: int, R: int, fileId: int): (h: Hash)
    decreases R - L
  {
    if L >= R then LeafHash(t)
    else if fileId <= Mid(L, R) then LeafAt(LeftOf(t, L, R), L, Mid(L, R), fileId)
    else LeafAt(RightOf(t, L, R), Mid(L, R) + 1, R, fileId)
  }

  /** All leaf hashes of a subtree, left to right. */
  function Leaves(t: Tree, L: int, R: int): (s: seq<Hash>)
    decreases R - L
  {
    if L >= R then [LeafHash(t)]
    else Leaves(LeftOf(t, L, R), L, Mid(L, R)) + Leaves(RightOf(t, L, R), Mid(L, R) + 1, R)
  }

  /** Every node of the subtree exists: nothing is left to lazy creation. */
  predicate Complete(t: Tree, L: int, R: int)
    decreases R - L
  {
    if L >= R then t.Leaf?
    else t.Branch? && Complete(t.left, L, Mid(L, R)) && Complete(t.right, Mid(L, R) + 1, R)
  }

  /** A fully built subtree of empty leaves. */
  function Built(L: int, R: int): (t: Tree)
    ensures Complete(t, L, R)
    decreases R - L
  {
    if L >= R then Leaf([]) else Branch(Built(L, Mid(L, R)), Built(Mid(L, R) + 1, R))
  }

  /** The reference hash closure of a list of leaf hashes: the first half
      (rounded up, as [L, mid] is) and the rest are hashed separately and
      the two results hashed together. */
  function MerkleRoot(H: seq<byte> -> Digest, leaves: seq<Hash>): (r: Hash)
    decreases |leaves|
  {
    if |leaves| == 0 then []
    else if |leaves| == 1 then leaves[0]
    else
      var half := (|leaves| + 1) / 2;
      H(MerkleRoot(H, leaves[..half]) + MerkleRoot(H, leaves[half..]))
  }

  /** A subtree over [L, R] has R - L + 1 leaves, one per slot. */
  lemma {:induction false} LeavesLength(t: Tree, L: int, R: int)
    requires L <= R
    ensures |Leaves(t, L, R)| == R - L + 1
    decreases R - L
  {
    if L < R {
      LeavesLength(LeftOf(t, L, R), L, Mid(L, R));
      LeavesLength(RightOf(t, L, R), Mid(L, R) + 1, R);
    }
  }

  /** update_leaf appends exactly one hash per internal level: as many as
      the levels below the node. */
  lemma {:induction false} SiblingsLength(H: seq<byte> -> Digest, t: Tree, depth: int, L: int, R: int, fileId: int)
    requires Shape(depth, L, R)
    ensures |Siblings(H, t, L, R, fileId)| == TreeDepth - depth
    decreases R - L
  {
    LeafIffSingleSlot(depth, L, R);
    if L < R {
      ChildShapes(depth, L, R);
      if fileId <= Mid(L, R) {
        SiblingsLength(H, LeftOf(t, L, R), depth + 1, L, Mid(L, R), fileId);
      } else {
        SiblingsLength(H, RightOf(t, L, R), depth + 1, Mid(L, R) + 1, R, fileId);
      }
    }
  }

  /** The recorded hashes are those of nodes off the path, which the update
      does not touch: the updated tree has the same siblings. */
  lemma {:induction false} SiblingsUnchanged(H: seq<byte> -> Digest, t: Tree, L: int, R: int,
                                             fileId: int, newHash: Hash)
    ensures Siblings(H, UpdateTree(t, L, R, fileId, newHash), L, R, fileId) == Siblings(H, t, L, R, fileId)
    decreases R - L
  {
    if L < R {
      if fileId <= Mid(L, R) {
        SiblingsUnchanged(H, LeftOf(t, L, R), L, Mid(L, R), fileId, newHash);
      } else {
        SiblingsUnchanged(H, RightOf(t, L, R), Mid(L, R) + 1, R, fileId, newHash);
      }
    }
  }

  /** Only the path changes: after the update the leaf the walk reaches holds
      the new hash, and every leaf reached for another slot keeps its hash. */
  lemma {:induction false} UpdateChangesOneLeaf(t: Tree, L: int, R: int, fileId: int, newHash: Hash, j: int)
    requires L <= R
    ensures LeafAt(UpdateTree(t, L, R, fileId, newHash), L, R, j)
         == if Slot(j, L, R) == Slot(fileId, L, R) then newHash else LeafAt(t, L, R, j)
    decreases R - L
  {
    if L < R {
      var mid := Mid(L, R);
      SlotInChild(fileId, L, R);
      SlotInChild(j, L, R);
      if fileId <= mid && j <= mid {
        UpdateChangesOneLeaf(LeftOf(t, L, R), L, mid, fileId, newHash, j);
      } else if fileId > mid && j > mid {
        UpdateChangesOneLeaf(RightOf(t, L, R), mid + 1, R, fileId, newHash, j);
      }
    }
  }

  /** The k-th leaf of a subtree covering [L, R] is the leaf the walk for
      slot L + k reaches. */
  lemma {:induction false} LeafAtIndex(t: Tree, L: int, R: int, k: int)
    requires 0 <= k <= R - L
    ensures |Leaves(t, L, R)| == R - L + 1
    ensures LeafAt(t, L, R, L + k) == Leaves(t, L, R)[k]
    decreases R - L
  {
    LeavesLength(t, L, R);
    if L < R {
      var mid := Mid(L, R);
      LeavesLength(LeftOf(t, L, R), L, mid);
      if L + k <= mid {
        LeafAtIndex(LeftOf(t, L, R), L, mid, k);
      } else {
        LeafAtIndex(RightOf(t, L, R), mid + 1, R, k - (mid - L + 1));
      }
    }
  }

  /** Updates keep a fully built tree fully built. */
  lemma {:induction false} UpdateKeepsComplete(t: Tree, L: int, R: int, fileId: int, newHash: Hash)
    requires Complete(t, L, R)
    ensures Complete(UpdateTree(t, L, R, fileId, newHash), L, R)
    decreases R - L
  {
    if L < R {
      if fileId <= Mid(L, R) {
        UpdateKeepsComplete(t.left, L, Mid(L, R), fileId, newHash);
      } else {
        UpdateKeepsComplete(t.right, Mid(L, R) + 1, R, fileId, newHash);
      }
    }
  }

  /** In a fully built tree, writing back the leaf the path already holds
      gives the same tree. A tree with lazily created nodes on the path does
      not have this property: the update creates them. */
  lemma {:induction false} RewriteSameLeaf(t: Tree, L: int, R: int, fileId: int)
    requires Complete(t, L, R)
    ensures UpdateTree(t, L, R, fileId, LeafAt(t, L, R, fileId)) == t
    decreases R - L
  {
    if L < R {
      if fileId <= Mid(L, R) {
        RewriteSameLeaf(t.left, L, Mid(L, R), fileId);
      } else {
        RewriteSameLeaf(t.right, Mid(L, R) + 1, R, fileId);
      }
    }
  }

  /** MerkleRoot of two halves, the first of which has the rounded-up
      half of the leaves. */
  lemma MerkleRootSplit(H: seq<byte> -> Digest, a: seq<Hash>, b: seq<Hash>)
    requires 1 <= |a| && 1 <= |b| && |a| == (|a| + |b| + 1) / 2
    ensures MerkleRoot(H, a + b) == H(MerkleRoot(H, a) + MerkleRoot(H, b))
  {
  }

  /** In a fully built tree the stored root is the hash closure of the
      leaves. */
  lemma {:induction false} RootIsClosure(H: seq<byte> -> Digest, t: Tree, L: int, R: int)
    requires L <= R && Complete(t, L, R)
    ensures RootHash(H, t) == MerkleRoot(H, Leaves(t, L, R))
    decreases R - L
  {
    if L < R {
      var mid := Mid(L, R);
      RootIsClosure(H, t.left, L, mid);
      RootIsClosure(H, t.right, mid + 1, R);
      LeavesLength(t.left, L, mid);
      LeavesLength(t.right, mid + 1, R);
      MerkleRootSplit(H, Leaves(t.left, L, mid), Leaves(t.right, mid + 1, R));
    }
  }

  /** The built tree and a tree of lazily created nodes hold the same
      (empty) leaves; only their internal hashes differ. */
  lemma {:induction false} BuiltHasEmptyLeaves(L: int, R: int, j: int)
    ensures LeafAt(Built(L, R), L, R, j) == LeafAt(Fresh(L, R), L, R, j) == []
    decreases R - L
  {
    if L < R {
      if j <= Mid(L, R) {
        BuiltHasEmptyLeaves(L, Mid(L, R), j);
      } else {
        BuiltHasEmptyLeaves(Mid(L, R) + 1, R, j);
      }
    }
  }

  /** The one-level unfolding of UpdateTree and Siblings below an internal
      node, taken by UpdateLeaf before the children are created; it states
      nothing beyond the two definitions. */
  lemma DescendStep(H: seq<byte> -> Digest, t: Tree, L: int, R: int, fileId: int, newHash: Hash)
    requires L < R
    ensures UpdateTree(t, L, R, fileId, newHash)
         == if fileId <= Mid(L, R) then Branch(UpdateTree(LeftOf(t, L, R), L, Mid(L, R), fileId, newHash), RightOf(t, L, R))
            else Branch(LeftOf(t, L, R), UpdateTree(RightOf(t, L, R), Mid(L, R) + 1, R, fileId, newHash))
    ensures Siblings(H, t, L, R, fileId)
         == if fileId <= Mid(L, R) then [RootHash(H, RightOf(t, L, R))] + Siblings(H, LeftOf(t, L, R), L, Mid(L, R), fileId)
            else [RootHash(H, LeftOf(t, L, R))] + Siblings(H, RightOf(t, L, R), Mid(L, R) + 1, R, fileId)
  {
  }

  /** A node of the server's tree (node.py:3-43). `Model` is its abstract
      value and `Repr` the nodes below it, itself included. */
  class Node {
    /** SHA-256, the hash compute_hash stands for (node.py:20-22). */
    const computeHash: seq<byte> -> Digest
    const depth: int
    const L: int
    const R: int
    /** is_leaf, fixed when the node is made (node.py:10). */
    const isLeaf: bool := depth == TreeDepth
    var hash: Hash
    var left: Node?
    var right: Node?
    ghost var Model: Tree
    ghost var Repr: set<object>

    /** The links between this node and its two children: the child-link
        clause of Valid, conjunct for conjunct. Valid spells the same
        conjuncts out rather than calling this predicate, which keeps its
        proofs cheaper; the two say the same thing. */
    ghost predicate Linked()
      reads this, Repr
    {
      && left != null && right != null
      && left in Repr && left.Repr <= Repr && this !in left.Repr
      && right in Repr && right.Repr <= Repr && this !in right.Repr
      && left.Repr !! right.Repr
      && left.computeHash == computeHash && right.computeHash == computeHash
      && left.depth == depth + 1 && left.L == L && left.R == Mid(L, R)
      && right.depth == depth + 1 && right.L == Mid(L, R) + 1 && right.R == R
    }

    ghost predicate Valid()
      reads this, Repr
      decreases Repr
    {
      && this in Repr
      && Shape(depth, L, R)
      && hash == RootHash(computeHash, Model)
      && (isLeaf ==> left == null && right == null && Model.Leaf?)
      && (!isLeaf && left == null ==> right == null && Model == Pending)
      && (!isLeaf && left != null ==>
            && right != null
            && left in Repr && left.Repr <= Repr && this !in left.Repr
            && right in Repr && right.Repr <= Repr && this !in right.Repr
            && left.Repr !! right.Repr
            && left.computeHash == computeHash && right.computeHash == computeHash
            && left.depth == depth + 1 && left.L == L && left.R == Mid(L, R)
            && right.depth == depth + 1 && right.L == Mid(L, R) + 1 && right.R == R
            && left.Valid() && right.Valid() && Model == Branch(left.Model, right.Model))
    }

    /** Node(depth, L, R) as node.py:8-18 builds it: a leaf exactly when
        depth == tree_depth, no children yet, and the empty hash. */
    constructor (computeHash: seq<byte> -> Digest, depth: int, L: int, R: int)
      requires Shape(depth, L, R)
      ensures Valid() && fresh(Repr)
      ensures this.computeHash == computeHash && this.depth == depth && this.L == L && this.R == R
      ensures Model == Fresh(L, R) && hash == []
    {
      LeafIffSingleSlot(depth, L, R);
      this.computeHash := computeHash;
      this.depth := depth;
      this.L := L;
      this.R := R;
      hash := [];
      left := null;
      right := null;
      Model := Fresh(L, R);
      Repr := {this};
    }

    /** An internal node over [L, R] made from two finished subtrees, its
        hash the hash of theirs. */
    constructor Join(computeHash: seq<byte> -> Digest, depth: int, L: int, R: int, l: Node, r: Node)
      requires Shape(depth, L, R) && depth < TreeDepth
      requires l.Valid() && r.Valid() && l.Repr !! r.Repr
      requires l.computeHash == computeHash && r.computeHash == computeHash
      requires l.depth == depth + 1 && l.L == L && l.R == Mid(L, R)
      requires r.depth == depth + 1 && r.L == Mid(L, R) + 1 && r.R == R
      ensures Valid() && Repr == {this} + l.Repr + r.Repr
      ensures this.computeHash == computeHash && this.depth == depth && this.L == L && this.R == R
      ensures left == l && right == r && Model == Branch(l.Model, r.Model)
    {
      this.computeHash := computeHash;
      this.depth := depth;
      this.L := L;
      this.R := R;
      left := l;
      right := r;
      hash := computeHash(l.hash + r.hash);
      Model := Branch(l.Model, r.Model);
      Repr := {this} + l.Repr + r.Repr;
    }

    /** The lazy creation of missing children in update_leaf
        (node.py:30-33); the node's own hash and value are left alone. */
    method Expand()
      requires Valid() && !isLeaf
      modifies this
      ensures Linked() && left.Valid() && right.Valid()
      ensures left.Model == LeftOf(old(Model), L, R) && right.Model == RightOf(old(Model), L, R)
      ensures old(left) != null ==> left == old(left)
      ensures old(left) == null ==> fresh(left)
      ensures old(right) != null ==> right == old(right)
      ensures old(right) == null ==> fresh(right)
      ensures this in Repr && old(Repr) <= Repr && fresh(Repr - old(Repr))
      ensures Model == old(Model) && hash == old(hash)
    {
      LeafIffSingleSlot(depth, L, R);
      ChildShapes(depth, L, R);
      var mid := (L + R) / 2;
      if left == null {
        left := new Node(computeHash, depth + 1, L, mid);
        Repr := Repr + left.Repr;
      }
      if right == null {
        right := new Node(computeHash, depth + 1, mid + 1, R);
        Repr := Repr + right.Repr;
      }
    }

    /** The closing step of update_leaf on an internal node: its hash
        becomes the hash of its children's hashes (node.py:43), and its
        footprint takes in whatever the children grew. */
    method Rehash()
      requires this in Repr && Shape(depth, L, R) && !isLeaf
      requires left != null && right != null
      requires this !in left.Repr && this !in right.Repr && left.Repr !! right.Repr
      requires left.computeHash == computeHash && right.computeHash == computeHash
      requires left.depth == depth + 1 && left.L == L && left.R == Mid(L, R)
      requires right.depth == depth + 1 && right.L == Mid(L, R) + 1 && right.R == R
      requires left.Valid() && right.Valid()
      modifies this
      ensures left == old(left) && right == old(right) && Repr == old(Repr) + left.Repr + right.Repr
      ensures left.Model == old(left.Model) && right.Model == old(right.Model)
      ensures Valid() && Model == Branch(left.Model, right.Model)
    {
      hash, Model, Repr := computeHash(left.hash + right.hash), Branch(left.Model, right.Model), Repr + left.Repr + right.Repr;
    }

    /** update_leaf(file_id, new_hash, path_nodes) (node.py:24-43). The
        source appends the sibling hashes to the list path_nodes it is given;
        here they are returned, root to leaf, for the caller to append. */
    method UpdateLeaf(fileId: int, newHash: Hash) returns (appended: seq<Hash>)
      requires Valid()
      modifies Repr
      ensures Valid() && fresh(Repr - old(Repr))
      ensures Model == UpdateTree(old(Model), L, R, fileId, newHash)
      ensures appended == Siblings(computeHash, old(Model), L, R, fileId)
      decreases TreeDepth - depth, 1
    {
      LeafIffSingleSlot(depth, L, R);
      if isLeaf {
        hash := newHash;
        Model := Leaf(newHash);
        appended := [];
        return;
      }
      DescendStep(computeHash, Model, L, R, fileId, newHash);
      Expand();
      if fileId <= (L + R) / 2 {
        appended := DescendLeft(fileId, newHash);
      } else {
        appended := DescendRight(fileId, newHash);
      }
    }

    /** The recursive step of update_leaf toward the left child, for
        file_id <= mid: record the right child's hash, update the left
        child, then rehash (node.py:36-38, 43). */
    method DescendLeft(fileId: int, newHash: Hash) returns (appended: seq<Hash>)
      requires this in Repr && Shape(depth, L, R) && !isLeaf
      requires fileId <= Mid(L, R)
      requires Linked() && left.Valid() && right.Valid()
      modifies Repr
      ensures left == old(left) && right == old(right)
      ensures Valid() && fresh(Repr - old(Repr))
      ensures Model == Branch(left.Model, right.Model)
      ensures left.Model == UpdateTree(old(left.Model), L, Mid(L, R), fileId, newHash)
      ensures right.Model == old(right.Model)
      ensures appended == [old(right.hash)] + Siblings(computeHash, old(left.Model), L, Mid(L, R), fileId)
      decreases TreeDepth - depth, 0
    {
      var rest := left.UpdateLeaf(fileId, newHash);
      appended := [right.hash] + rest;
      Rehash();
    }

    /** The recursive step of update_leaf toward the right child, for
        file_id > mid: record the left child's hash, update the right
        child, then rehash (node.py:39-41, 43). */
    method DescendRight(fileId: int, newHash: Hash) returns (appended: seq<Hash>)
      requires this in Repr && Shape(depth, L, R) && !isLeaf
      requires Mid(L, R) < fileId
      requires Linked() && left.Valid() && right.Valid()
      modifies Repr
      ensures left == old(left) && right == old(right)
      ensures Valid() && fresh(Repr - old(Repr))
      ensures Model == Branch(left.Model, right.Model)
      ensures left.Model == old(left.Model)
      ensures right.Model == UpdateTree(old(right.Model), Mid(L, R) + 1, R, fileId, newHash)
      ensures appended == [old(left.hash)] + Siblings(computeHash, old(right.Model), Mid(L, R) + 1, R, fileId)
      decreases TreeDepth - depth, 0
    {
      var rest := right.UpdateLeaf(fileId, newHash);
      appended := [left.hash] + rest;
      Rehash();
    }
  }

  /** The whole subtree over [L, R] built at once, every internal node
      holding the hash of its children: the corrected start state (see
      Findings in README.md). */
  method BuildTree(computeHash: seq<byte> -> Digest, depth: int, L: int, R: int) returns (n: Node)
    requires Shape(depth, L, R)
    ensures n.Valid() && fresh(n.Repr)
    ensures n.computeHash == computeHash && n.depth == depth && n.L == L && n.R == R
    ensures n.Model == Built(L, R)
    decreases TreeDepth - depth
  {
    LeafIffSingleSlot(depth, L, R);
    if depth == TreeDepth {
      n := new Node(computeHash, depth, L, R);
    } else {
      ChildShapes(depth, L, R);
      var l := BuildTree(computeHash, depth + 1, L, Mid(L, R));
      var r := BuildTree(computeHash, depth + 1, Mid(L, R) + 1, R);
      n := new Node.Join(computeHash, depth, L, R, l, r);
    }
  }
}
