# Merkle-verified encrypted file store, modelled in Dafny

The system stores encrypted files in 8 numbered slots on an untrusted
server. The server keeps a Merkle tree over the slots. On every update it
returns the root it held before the update, followed by the hash of each
sibling along the path to the slot. The client rebuilds the old root from
the slot's old hash and the new root from its new hash, and accepts the
update only if both match. Before upload, the client encrypts a file with
AES-256-GCM under keys derived from a password. It then signs the slot id
and the ciphertext with HMAC-SHA-256, and frames the result as
`salt(16) || nonce(12) || ciphertext_with_tag || signature(32)`.

The model has six modules:

- `Bytes` (bytes.dfy) defines bytes, hashes, 32-byte digests and `Option`.
- `TreeShape` (shape.dfy) covers the fixed shape of the tree. There are n = 8 slots and leaves sit at depth 3. A node covers an interval [L, R], and its children split it at mid = (L + R) // 2.
- `MerkleTree` (node.dfy) is the server's tree (node.py).
  - The class `Node` keeps the source's fields: depth, L, R, is_leaf, hash, left and right child.
  - Its ghost `Model` is a `Tree` value and its ghost `Repr` is the set of nodes below it.
  - `UpdateLeaf` is proved against the pure functions `UpdateTree` (the tree after the update) and `Siblings` (the hashes the walk records). Lemmas prove what those functions promise.
- `VerifyUpdate` (verify_update.dfy) is the client's check (verify_update.py). It rebuilds the root, and its lemmas prove completeness and soundness (up to a hash collision) against the tree.
- `HelpVerification` (help_verification.dfy) is the server's `update_file`.
- `ClientHelp` (client_help.dfy) is key derivation, signing, blob framing and the encrypt/decrypt pair (client_help.py). It works over abstract primitives.

SHA-256 is a parameter `H: seq<byte> -> Digest`; it lives in the field
`computeHash` of every node. PBKDF2, HMAC and AES-GCM are the fields of a
`Primitives` value. The only thing assumed about them is `GcmInverts`:
AES-GCM decryption with the same key, nonce and associated data inverts
encryption, and the ciphertext is 16 bytes longer than the data. That
assumption is a precondition of the lemmas that need it. The random salt
and nonce are parameters.

The source does not run as written. The model follows its evident intent:

- node.py:20-24 lack `self`. compute_hash takes no argument, yet node.py:43 calls it with one; it is `computeHash`.
- node.py:10 reads `tree_depth` unqualified. The model uses `TreeDepth` = 3 instead of the floating-point `math.log2(8)` at node.py:6.
- node.py:16-18 assign locals. In the model they are the node's fields, starting as the empty hash and no children.
- In verify_update.py:18 and 21 the recursive calls drop `depth`, and it is never incremented. The model passes depth + 1.
- Index 0 of the path list is the old root (help_verification.py:5), so the sibling combined at depth d is read at index d + 1, not at d as verify_update.py:19 and 22 do.
- `old_hash` is undefined at verify_update.py:28. It is the parameter `oldHash`.
- verify_update.py:33 rebuilds the new root from `old_hash` again. The model uses `newHash`.
- verify_update.py:34 misspells the result and compares it with the module-level `root_hash`. The model compares it with the parameter `expectedNewRoot`.
- help_verification.py:6 calls `root.query`, which does not exist. The intended call is `update_leaf`.
- `root` and `path_nodes` are undefined globals. The tree is a parameter, and the list starts empty on each call.

Where the design description and the code disagree, the model follows the code:

- The code creates children on demand (node.py:30-33); the design calls for eager construction. `Node.UpdateLeaf` keeps the lazy creation, and `BuildTree` is the eager start state (see Findings).
- An empty slot holds the empty string (node.py:16), not SHA-256 of the empty string.
- verify_update.py:29 always checks the old root. The design skips that check while the client's trusted root is empty.
- The client's trusted root starts as "" (verify_update.py:5). With that root and the check at line 29, no update is ever accepted (`VerifyUpdate.EmptyTrustedRootNeverAccepts`); this holds for the eager tree too. `Verify` takes the client's old root as a parameter. The corrected first update (`VerifyUpdate.BuiltFirstUpdateAccepted`) starts the client from the eager tree's root `RootHash(H, Built(0, N - 1))` instead of "" (see Findings).
- The proof is a list of bare hashes, root first then root to leaf, with the side of each sibling implied by file_id. It is not a leaf-to-root list of (hash, side) pairs.
- The design has an update for an id outside [0, n) fail with a RangeError and change nothing. node.py:24-43 has no range check: the walk goes left whenever file_id <= mid, so an id below 0 writes slot 0 and an id above 7 writes slot 7 (`TreeShape.Slot`, `MerkleTree.UpdateChangesOneLeaf`).
- Both decryption failures raise ValueError (lines 111 and 118), not one opaque authentication error type. `Error` keeps them apart.

## Model

| member | source | states |
|---|---|---|
| TreeShape.RootShape | node.py:5-6 | the root at depth 0 covering [0, n - 1] has the shape of a tree of depth 3 over 8 slots |
| TreeShape.LeafIffSingleSlot | node.py:5-10 | a node is a leaf (depth == tree_depth) exactly when its interval holds one slot |
| TreeShape.ChildShapes | node.py:29-33 | the children split [L, R] into the non-empty, disjoint [L, mid] and [mid + 1, R], each with the shape of the next depth |
| TreeShape.Slot | node.py:36-41 | going left whenever file_id <= mid reaches file_id when it lies in [L, R], L when file_id < L and R when file_id > R |
| TreeShape.SlotInChild | node.py:36-41 | descending into the child the walk picks keeps the slot it reaches |
| MerkleTree.Built | node.py:30-33 | the eagerly built subtree has every node present |
| MerkleTree.LeavesLength | node.py:12-14 | a subtree over [L, R] has R - L + 1 leaves |
| MerkleTree.SiblingsLength | node.py:36-41 | the walk records exactly one hash per level below the node: 3 from the root |
| MerkleTree.SiblingsUnchanged | node.py:36-41 | the recorded hashes are those of subtrees the update leaves alone: they are the same after the update |
| MerkleTree.UpdateChangesOneLeaf | node.py:24-43 | after the update the slot's leaf holds the new hash and every other slot's leaf keeps its hash |
| MerkleTree.LeafAtIndex | node.py:12-14 | the k-th leaf from the left is the one the walk for slot L + k reaches |
| MerkleTree.UpdateKeepsComplete | node.py:30-33 | an update keeps a fully built tree fully built |
| MerkleTree.RewriteSameLeaf | node.py:24-43 | on a fully built tree, writing back the hash a leaf already holds changes nothing |
| MerkleTree.MerkleRootSplit | node.py:43 | the hash closure of a list is the hash of the closures of its rounded-up first half and the rest |
| MerkleTree.RootIsClosure | node.py:43 | on a fully built tree every node's hash is the hash closure H(left + right) of its leaves, left before right |
| MerkleTree.BuiltHasEmptyLeaves | node.py:16 | the eager and the lazy start trees both have the empty hash in every slot |
| MerkleTree.Node.constructor | node.py:8-18 | a new node has the given depth and interval, is a leaf iff depth == 3, has no children and holds the empty hash |
| MerkleTree.Node.Join | node.py:43 | an internal node over two finished subtrees holds the hash of their hashes and stays valid |
| MerkleTree.Node.Expand | node.py:29-33 | missing children are created over [L, mid] and [mid + 1, R] as fresh nodes, and existing ones are kept; nothing else changes |
| MerkleTree.Node.Rehash | node.py:43 | after a child update the node's hash is H(left.hash + right.hash) and the node is valid again |
| MerkleTree.Node.UpdateLeaf | node.py:24-43 | the node's tree becomes UpdateTree of the old one; it returns Siblings of the old tree; the node stays valid and allocates only new nodes |
| MerkleTree.Node.DescendLeft | node.py:36-38 | for file_id <= mid it records the right child's old hash first, updates only the left child, then rehashes |
| MerkleTree.Node.DescendRight | node.py:39-41 | for file_id > mid it records the left child's old hash first, updates only the right child, then rehashes |
| MerkleTree.BuildTree | node.py:30-33 | returns a new, valid, fully built tree of empty leaves whose internal nodes hold the hashes of their children, made of new nodes only |
| VerifyUpdate.ReconstructRootHash | verify_update.py:11-22 | on one slot it returns the leaf hash unchanged; otherwise it returns a 32-byte digest, or the index error when the list is too short |
| VerifyUpdate.ReconstructDefined | verify_update.py:19-22 | rebuilding succeeds iff the path list reaches index tree_depth |
| VerifyUpdate.ReconstructFromSiblings | verify_update.py:11-22 | rebuilding from the recorded siblings on any tree gives that tree's root once the leaf holds the given hash, with H(sub + sibling) when file_id <= mid and H(sibling + sub) otherwise |
| VerifyUpdate.ReconstructBinding | verify_update.py:16-22 | two lists that rebuild the same root from one leaf rebuild equal roots from every leaf, or yield a collision of H |
| VerifyUpdate.Verify | verify_update.py:25-37 | accepts iff the old leaf rebuilds path[0] from the full range, path[0] is the client's old root and the new leaf rebuilds the expected new root |
| VerifyUpdate.ShortProofIsIndexError | verify_update.py:28 | the result is the index error iff the list has at most 3 entries |
| VerifyUpdate.HonestUpdateAccepted | verify_update.py:28-37 | on a fully built tree, the list update_file returns, the true old root, old leaf and new root are accepted |
| VerifyUpdate.AcceptedIsTrueUpdate | verify_update.py:28-37 | given the true old root and old leaf, any accepted list carries the true new root, or yields a collision of H |
| VerifyUpdate.LazyFirstUpdateRejected | verify_update.py:29 | as written, the first update of the lazily built tree is rejected although the server is honest: the client's "" root never matches the rebuilt digest |
| VerifyUpdate.EmptyTrustedRootNeverAccepts | verify_update.py:5 | with the client's initial root_hash "", no path list, tree or leaf hash is ever accepted, because a rebuilt root is always a digest |
| VerifyUpdate.LazySecondUpdateRejected | node.py:30-33 | as written, after slot 0 is written on the lazily built tree, the honest update of slot 7 is rejected even though the client holds the true root, unless H has a collision |
| VerifyUpdate.BuiltFirstUpdateAccepted | verify_update.py:29 | on the eagerly built tree, when the client starts from that tree's root rather than "", the first update is accepted for every slot |
| VerifyUpdate.BuiltSecondUpdateAccepted | node.py:30-33 | on the eagerly built tree, the honest update of slot 7 after slot 0 is accepted by a client holding the true root |
| HelpVerification.UpdateFile | help_verification.py:4-10 | returns the root before the update followed by the recorded siblings, 1 + 3 = 4 entries; the tree becomes UpdateTree of the old one |
| HelpVerification.UpdateResult | help_verification.py:6 | after an update of a fully built tree, the slot holds the new hash, other slots are unchanged, and the root is the hash closure of the leaves |
| ClientHelp.FileIdBytes | client_help.py:58 | an id its three bytes can hold is encoded as 3 big-endian bytes that decode back to it; any other id raises OverflowError |
| ClientHelp.FileIdBytesInjective | client_help.py:89 | different slots have different encodings |
| ClientHelp.GenerateKeyFromPassword | client_help.py:33-51 | a salt under 8 bytes fails with ValueError; otherwise it returns two 32-byte keys that together are the 64 derived bytes, AES key first |
| ClientHelp.SignData | client_help.py:53-62 | it gives a 32-byte HMAC exactly for ids in range |
| ClientHelp.VerifySignature | client_help.py:64-76 | it gives a verdict exactly for ids in range; an id out of range raises |
| ClientHelp.VerifyAcceptsExactlySigned | client_help.py:53-76 | verify_signature accepts a signature iff sign_data produces it for the same key, id and ciphertext |
| ClientHelp.Frame | client_help.py:92 | the blob's length is the sum of the parts' lengths |
| ClientHelp.ParseBlob | client_help.py:102-107 | blobs under 61 bytes are refused; otherwise the parts have lengths 16, 12, at least 1 and 32 |
| ClientHelp.ParseFrame | client_help.py:92-107 | slicing at the fixed offsets recovers salt, nonce, ciphertext and signature from their framing |
| ClientHelp.FrameParse | client_help.py:104-107 | the parsed parts make up the whole blob |
| ClientHelp.EncryptData | client_help.py:78-93 | it gives a blob exactly for ids in range: the given salt, the nonce, the AES-GCM ciphertext under the id's bytes, then sign_data's signature, 60 bytes longer than the ciphertext |
| ClientHelp.DecryptData | client_help.py:95-119 | short blobs fail; data is returned only when the HMAC over the id and ciphertext matches and AES-GCM decrypts to exactly that data |
| ClientHelp.BadSignatureRefused | client_help.py:110-111 | a blob whose signature is not sign_data's fails with the signature error, before decryption |
| ClientHelp.RoundTrip | client_help.py:127-131 | decrypting with the same password and id what encrypt_data produced gives the data back, for every salt and nonce |
| ClientHelp.WrongSlotNeedsMacCollision | client_help.py:89-91 | a blob made for one slot and decrypted for another fails, unless two different messages have equal HMACs |

## Left out

- server.py and client.py are not part of this model: sockets, the accept loop, threads and the 4-byte request header are I/O.
- The internals of SHA-256, PBKDF2-HMAC-SHA-256, HMAC-SHA-256 and AES-256-GCM are abstract parameters. Tamper resistance beyond the decrypted-for-another-slot case rests on their security, which cannot be proved here.
- `os.urandom` calls (client_help.py:85, 87) are replaced by the `salt` and `nonce` parameters.
- `math.log2` (node.py:6) is left out; the model uses the integer depth 3.
- The `__main__` demonstrations and prints (client_help.py:121-140) are left out.
- Python's `isinstance` check on the salt (client_help.py:38) is left out: a salt is always a byte sequence here.
- The password's UTF-8 encoding (client_help.py:40) is left out; the password is taken as bytes.
- MerkleTree.Node.UpdateLeaf: returns the hashes the walk records rather than appending them to a list the caller shares. HelpVerification.UpdateFile does the appending, so aliasing of that list is not modelled.
- VerifyUpdate.Verify: compares the new root with a parameter instead of reading the module-level `root_hash`. Setting the client's trusted root after a successful check is not modelled, since the source never does it.
- HelpVerification.UpdateFile: starts from an empty list on every call. The source never clears its undefined global `path_nodes`.
- The hash `H` is total and pure. Exceptions raised by the hash library are not modelled.

## Findings

| source | as written | input that shows it | evidently intended | confidence | as-written member | corrected member |
|---|---|---|---|---|---|---|
| node.py:30-33 | internal nodes are created only when an update reaches them, each holding the empty hash; the root's hash was computed over such a node, and the next update through that node rebuilds the old root over its new children | slot 0 is updated on a fresh tree, then slot 7 is updated with an honest path list. The client holds the true root H(x), where x is the hash of the root's left half. The old root rebuilt from that list is H(x + y), where y is a 32-byte digest for the right half, which now has children. So the update is rejected unless H(x) == H(x + y) | the tree is built once, in full, with every internal node holding the hash of its children; then every honest update is accepted (`VerifyUpdate.HonestUpdateAccepted` on every complete tree, `MerkleTree.UpdateKeepsComplete`, and `VerifyUpdate.BuiltSecondUpdateAccepted` on this input) | not executed | VerifyUpdate.LazySecondUpdateRejected | MerkleTree.BuildTree |
| verify_update.py:5 | the client's trusted root starts as "", and verify_update.py:29 always compares it with the rebuilt old root | any update at all, on either tree: the rebuilt root of the whole tree is a 32-byte digest, never "" | the client starts from the root of the eagerly built empty tree, so an honest first update is accepted (the design instead skips the check while the trusted root is empty) | not executed | VerifyUpdate.EmptyTrustedRootNeverAccepts | VerifyUpdate.BuiltFirstUpdateAccepted |
