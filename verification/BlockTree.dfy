/**
 The blocks a client stores, as the tree they form: every stored block is known
 by the path of blocks that leads to it from the one genesis block.
 */
module BlockTree {
  import opened Arithmetic
  import opened Bytes
  import opened Primitives
  import opened Tables

  type Tree = map<Digest, seq<Block>>

  const DIFFICULTY_LIMIT: nat := 256
  const HEIGHT_LIMIT: nat := 0x80_0000_0000_0000

  function Last(path: seq<Block>): Block
    requires path != []
  {
    path[|path| - 1]
  }

  /** A header whose hash, read as an integer, is as small as its difficulty asks. */
  predicate Worked(c: Suite, h: Header) {
    h.difficulty < DIFFICULTY_LIMIT && Int(c.HeaderHash(h)) < Pow2(DIFFICULTY_LIMIT - h.difficulty)
  }

  /** The path to a stored block extends the path to its parent by that block. */
  ghost predicate PathTo(c: Suite, genesis: Block, tree: Tree, k: Digest)
    requires k in tree
  {
    var p := tree[k];
    && p != [] && p[0] == genesis && c.BlockHash(Last(p)) == k && k != ZERO_DIGEST
    && Worked(c, Last(p).header)
    && (|p| == 1 ==> Last(p).header.prevHash == ZERO_DIGEST)
    && (|p| > 1 ==> Last(p).header.prevHash in tree && tree[Last(p).header.prevHash] == p[..|p| - 1])
  }

  ghost predicate WellLinked(c: Suite, genesis: Block, tree: Tree) {
    forall k {:trigger PathTo(c, genesis, tree, k)} :: k in tree ==> PathTo(c, genesis, tree, k)
  }

  // --- Difficulty totals ---

  /** The difficulty of the first n blocks of a path. */
  function WeightTo(path: seq<Block>, n: nat): nat
    requires n <= |path|
  {
    if n == 0 then 0 else WeightTo(path, n - 1) + path[n - 1].header.difficulty
  }

  function Weight(path: seq<Block>): nat {
    WeightTo(path, |path|)
  }

  lemma {:induction false} WeightOfPrefix(path: seq<Block>, more: seq<Block>, n: nat)
    requires n <= |path|
    ensures WeightTo(path + more, n) == WeightTo(path, n)
  {
    if n > 0 {
      WeightOfPrefix(path, more, n - 1);
    }
  }

  lemma WeightExtends(path: seq<Block>, b: Block)
    ensures Weight(path + [b]) == Weight(path) + b.header.difficulty
  {
    WeightOfPrefix(path, [b], |path|);
  }

  lemma {:induction false} WeightMonotone(path: seq<Block>, n: nat)
    requires n <= |path|
    ensures WeightTo(path, n) <= Weight(path)
    decreases |path| - n
  {
    if n < |path| {
      WeightMonotone(path, n + 1);
    }
  }

  lemma {:induction false} WeightBound(path: seq<Block>, n: nat)
    requires n <= |path|
    requires forall i :: 0 <= i < n ==> path[i].header.difficulty < DIFFICULTY_LIMIT
    ensures WeightTo(path, n) <= n * DIFFICULTY_LIMIT
  {
    if n > 0 {
      WeightBound(path, n - 1);
    }
  }

  // --- Paths ---

  /** Every block on a stored path is itself stored, by the part of the path that ends in it. */
  lemma {:induction false} PathPrefix(c: Suite, genesis: Block, tree: Tree, k: Digest, i: nat)
    requires WellLinked(c, genesis, tree) && k in tree && i < |tree[k]|
    ensures
      var b := tree[k][i];
      && c.BlockHash(b) in tree && tree[c.BlockHash(b)] == tree[k][..i + 1]
      && Worked(c, b.header)
      && b.header.prevHash == if i == 0 then ZERO_DIGEST else c.BlockHash(tree[k][i - 1])
    decreases |tree[k]|
  {
    var p := tree[k];
    assert PathTo(c, genesis, tree, k);
    var n := |p| - 1;
    if i == n {
      assert p[..n + 1] == p;
      if n > 0 {
        assert PathTo(c, genesis, tree, Last(p).header.prevHash);
      }
    } else {
      PathPrefix(c, genesis, tree, Last(p).header.prevHash, i);
      assert p[..n][..i + 1] == p[..i + 1];
    }
  }

  /** A stored path fits the difficulty totals into a word, as long as it is not astronomically long. */
  lemma PathWeightFits(c: Suite, genesis: Block, tree: Tree, k: Digest)
    requires WellLinked(c, genesis, tree) && k in tree && |tree[k]| <= HEIGHT_LIMIT
    ensures Weight(tree[k]) < UINT64
  {
    forall i | 0 <= i < |tree[k]| ensures tree[k][i].header.difficulty < DIFFICULTY_LIMIT {
      PathPrefix(c, genesis, tree, k, i);
    }
    WeightBound(tree[k], |tree[k]|);
  }

  ghost predicate ShortPaths(tree: Tree) {
    forall k :: k in tree ==> |tree[k]| < HEIGHT_LIMIT
  }

  // --- Entries of the tables ---

  function HeaderEntries(c: Suite): Block -> map<Digest, Header> {
    (b: Block) => map[c.BlockHash(b) := b.header]
  }

  function BlockEntries(c: Suite): Block -> map<Digest, Block> {
    (b: Block) => map[c.BlockHash(b) := b]
  }

  /** The images spent by the first n transactions of a block; the coinbase spends none. */
  function ImageKeys(c: Suite, b: Block, n: nat): set<Digest>
    requires n <= |b.txns|
  {
    if n == 0 then {} else ImageKeys(c, b, n - 1) + if n == 1 then {} else {c.ImageHash(b.txns[n - 1])}
  }

  function OutputKeys(c: Suite, outputs: seq<Output>, n: nat): set<Digest>
    requires n <= |outputs|
  {
    if n == 0 then {} else OutputKeys(c, outputs, n - 1) + {c.OutputHash(outputs[n - 1])}
  }

  /** The images and outputs of the first n transactions. */
  function IndexKeys(c: Suite, b: Block, n: nat): set<Digest>
    requires n <= |b.txns|
  {
    if n == 0 then {} else
      IndexKeys(c, b, n - 1)
      + (if n == 1 then {} else {c.ImageHash(b.txns[n - 1])})
      + OutputKeys(c, b.txns[n - 1].body.outputs, |b.txns[n - 1].body.outputs|)
  }

  function Tagged(keys: set<Digest>, value: Digest): map<Digest, Digest> {
    map k | k in keys :: value
  }

  function Selves(keys: set<Digest>): map<Digest, Digest> {
    map k | k in keys :: k
  }

  function ImageEntries(c: Suite): Block -> map<Digest, Digest> {
    (b: Block) => Selves(ImageKeys(c, b, |b.txns|))
  }

  function IndexEntries(c: Suite): Block -> map<Digest, Digest> {
    (b: Block) => Tagged(IndexKeys(c, b, |b.txns|), c.BlockHash(b))
  }

  /** No image or output is repeated within one stored path. */
  ghost predicate NoRepeats(c: Suite, tree: Tree) {
    forall k :: k in tree ==> Disjoint(IndexEntries(c), tree[k])
  }

  /** No image is spent in two blocks of one stored path. */
  ghost predicate NoImageTwice(c: Suite, tree: Tree) {
    forall k :: k in tree ==> Disjoint(ImageEntries(c), tree[k])
  }

  lemma {:induction false} ImagesAreIndexed(c: Suite, b: Block, n: nat)
    requires n <= |b.txns|
    ensures ImageKeys(c, b, n) <= IndexKeys(c, b, n)
  {
    if n > 0 {
      ImagesAreIndexed(c, b, n - 1);
    }
  }

  lemma EntryKeys(c: Suite, b: Block)
    ensures ImageEntries(c)(b).Keys == ImageKeys(c, b, |b.txns|)
    ensures IndexEntries(c)(b).Keys == IndexKeys(c, b, |b.txns|)
    ensures ImageKeys(c, b, |b.txns|) <= IndexKeys(c, b, |b.txns|)
  {
    ImagesAreIndexed(c, b, |b.txns|);
  }

  lemma ImagesDisjoint(c: Suite, path: seq<Block>)
    requires Disjoint(IndexEntries(c), path)
    ensures Disjoint(ImageEntries(c), path)
  {
    forall i, j | 0 <= i < j < |path| ensures ImageEntries(c)(path[i]).Keys !! ImageEntries(c)(path[j]).Keys {
      assert IndexEntries(c)(path[i]).Keys !! IndexEntries(c)(path[j]).Keys;
      EntryKeys(c, path[i]);
      EntryKeys(c, path[j]);
    }
  }

  lemma NoRepeatsMeansNoImageTwice(c: Suite, tree: Tree)
    requires NoRepeats(c, tree)
    ensures NoImageTwice(c, tree)
  {
    hide Disjoint;
    forall k | k in tree ensures Disjoint(ImageEntries(c), tree[k]) {
      ImagesDisjoint(c, tree[k]);
    }
  }

  /** The blocks of one stored path have different hashes. */
  lemma HashesDistinct(c: Suite, genesis: Block, tree: Tree, k: Digest, i: nat, j: nat)
    requires WellLinked(c, genesis, tree) && k in tree && i < j < |tree[k]|
    ensures c.BlockHash(tree[k][i]) != c.BlockHash(tree[k][j])
  {
    PathPrefix(c, genesis, tree, k, i);
    PathPrefix(c, genesis, tree, k, j);
    assert |tree[k][..i + 1]| != |tree[k][..j + 1]|;
  }

  lemma PathDisjoint(c: Suite, genesis: Block, tree: Tree, k: Digest)
    requires WellLinked(c, genesis, tree) && k in tree
    ensures Disjoint(HeaderEntries(c), tree[k]) && Disjoint(BlockEntries(c), tree[k])
  {
    var p := tree[k];
    forall i, j | 0 <= i < j < |p| ensures c.BlockHash(p[i]) != c.BlockHash(p[j]) {
      HashesDistinct(c, genesis, tree, k, i, j);
    }
  }

  /** A stored block is on a path exactly when the path to it is a prefix of that path. */
  ghost predicate OnPath(c: Suite, path: seq<Block>, k: Digest) {
    exists i :: 0 <= i < |path| && c.BlockHash(path[i]) == k
  }

  lemma OnPathContributes(c: Suite, path: seq<Block>, k: Digest)
    ensures Contributes(HeaderEntries(c), path, k) <==> OnPath(c, path, k)
    ensures Contributes(BlockEntries(c), path, k) <==> OnPath(c, path, k)
  {
    if i :| 0 <= i < |path| && c.BlockHash(path[i]) == k {
      assert k in HeaderEntries(c)(path[i]) && k in BlockEntries(c)(path[i]);
    }
    if i :| 0 <= i < |path| && k in HeaderEntries(c)(path[i]) {
      assert c.BlockHash(path[i]) == k;
    }
    if i :| 0 <= i < |path| && k in BlockEntries(c)(path[i]) {
      assert c.BlockHash(path[i]) == k;
    }
  }

  /** What the tables rebuilt over a stored path hold. */
  lemma RebuiltHolds(c: Suite, genesis: Block, tree: Tree, tip: Digest, k: Digest)
    requires WellLinked(c, genesis, tree) && tip in tree
    ensures k in Rebuilt(HeaderEntries(c), tree[tip]) <==> OnPath(c, tree[tip], k)
    ensures k in Rebuilt(BlockEntries(c), tree[tip]) <==> OnPath(c, tree[tip], k)
    ensures OnPath(c, tree[tip], k) ==>
      && k in tree && |tree[k]| <= |tree[tip]| && tree[k] == tree[tip][..|tree[k]|] && tree[k] != []
      && Rebuilt(HeaderEntries(c), tree[tip])[k] == Last(tree[k]).header
      && Rebuilt(BlockEntries(c), tree[tip])[k] == Last(tree[k])
  {
    hide WellLinked, Worked, Suite.BlockHash, PutAll;
    var path := tree[tip];
    PutAllAt(HeaderEntries(c), map[], path, k);
    PutAllAt(BlockEntries(c), map[], path, k);
    OnPathContributes(c, path, k);
    if i :| 0 <= i < |path| && c.BlockHash(path[i]) == k {
      PathPrefix(c, genesis, tree, tip, i);
      PathDisjoint(c, genesis, tree, tip);
      PutAllEntry(HeaderEntries(c), map[], path, i, k);
      PutAllEntry(BlockEntries(c), map[], path, i, k);
    }
  }

  // --- The tables of side blocks ---

  function AllHeaders(tree: Tree): map<Digest, Header> {
    map k | k in tree && tree[k] != [] :: Last(tree[k]).header
  }

  function AllBlocks(tree: Tree): map<Digest, Block> {
    map k | k in tree && tree[k] != [] :: Last(tree[k])
  }

  /** Storing a block whose parent is stored. */
  function Grown(c: Suite, tree: Tree, b: Block): Tree
    requires b.header.prevHash in tree
  {
    tree[c.BlockHash(b) := tree[b.header.prevHash] + [b]]
  }

  ghost predicate CanGrow(c: Suite, tree: Tree, b: Block) {
    && b.header.prevHash in tree && c.BlockHash(b) !in tree && c.BlockHash(b) != ZERO_DIGEST
    && Worked(c, b.header)
  }

  lemma GrownWellLinked(c: Suite, genesis: Block, tree: Tree, b: Block)
    requires WellLinked(c, genesis, tree) && CanGrow(c, tree, b)
    ensures WellLinked(c, genesis, Grown(c, tree, b))
  {
    var grown := Grown(c, tree, b);
    forall k | k in grown ensures PathTo(c, genesis, grown, k) {
      assert PathTo(c, genesis, tree, b.header.prevHash);
      if k in tree {
        assert PathTo(c, genesis, tree, k);
      } else {
        assert grown[k][..|grown[k]| - 1] == tree[b.header.prevHash];
      }
    }
  }
}
