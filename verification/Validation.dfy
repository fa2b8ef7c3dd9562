/**
 What it takes for a block's transactions to be accepted, read from the tables:
 finding the outputs a ring names, unspent images, signatures, range proofs and
 the coinbase amount.
 */
module Validation {
  import opened Arithmetic
  import opened Bytes
  import opened Curve
  import opened Primitives
  import opened Subsidy
  import opened RangeProofs
  import opened RingSignature
  import opened Transactions
  import opened Tables
  import opened BlockTree
  import opened Forks

  /**
   What comes from outside a client: what its peers answer, the clock, the target that a
   block's time and its ancestor suggest, and the checks on size and missing fields.
   */
  datatype Env = Env(
    fetchBlock: Digest -> Result<Block>,
    fetchOutput: Digest -> Result<Output>,
    now: int,
    suggested: (int, Header) -> nat,
    admissible: Block -> bool)

  /** The tables a transaction is checked against. */
  datatype Records = Records(index: map<Digest, Digest>, images: map<Digest, Digest>, blocks: map<Digest, Block>,
                             sideBlocks: map<Digest, Block>, orphanBlocks: map<Digest, Block>)

  // --- Finding outputs ---

  function LoadedBlock(t: Records, hash: Digest): Result<Block> {
    if hash in t.blocks then Ok(t.blocks[hash])
    else if hash in t.sideBlocks then Ok(t.sideBlocks[hash])
    else if hash in t.orphanBlocks then Ok(t.orphanBlocks[hash])
    else Err
  }

  /** The first of n outputs with the given hash. */
  function FirstOutput(c: Suite, outputs: seq<Output>, n: nat, hash: Digest): Result<Output>
    requires n <= |outputs|
  {
    if n == 0 then Err
    else if FirstOutput(c, outputs, n - 1, hash).Ok? then FirstOutput(c, outputs, n - 1, hash)
    else if c.OutputHash(outputs[n - 1]) == hash then Ok(outputs[n - 1])
    else Err
  }

  function FirstIn(c: Suite, txns: seq<Txn>, n: nat, hash: Digest): Result<Output>
    requires n <= |txns|
  {
    if n == 0 then Err
    else if FirstIn(c, txns, n - 1, hash).Ok? then FirstIn(c, txns, n - 1, hash)
    else FirstOutput(c, txns[n - 1].body.outputs, |txns[n - 1].body.outputs|, hash)
  }

  function LoadedOutput(c: Suite, t: Records, hash: Digest): Result<Output> {
    if hash !in t.index then Err
    else
      match LoadedBlock(t, t.index[hash])
      case Err => Err
      case Ok(b) => FirstIn(c, b.txns, |b.txns|, hash)
  }

  /** A peer's answer counts only if it has the hash that was asked for. */
  function FetchedOutput(c: Suite, env: Env, hash: Digest): Result<Output> {
    var r := env.fetchOutput(hash);
    if r.Ok? && c.OutputHash(r.value) == hash then r else Err
  }

  function FoundOutput(c: Suite, t: Records, env: Env, hash: Digest): Result<Output> {
    if LoadedOutput(c, t, hash).Ok? then LoadedOutput(c, t, hash) else FetchedOutput(c, env, hash)
  }

  ghost predicate OutputOf(b: Block, o: Output) {
    exists j, l :: 0 <= j < |b.txns| && 0 <= l < |b.txns[j].body.outputs| && b.txns[j].body.outputs[l] == o
  }

  ghost predicate OnChain(path: seq<Block>, o: Output) {
    exists i :: 0 <= i < |path| && OutputOf(path[i], o)
  }

  /** The outputs of the first n transactions of a block. */
  function TxnOutputs(c: Suite, b: Block, n: nat): set<Digest>
    requires n <= |b.txns|
  {
    if n == 0 then {} else
      TxnOutputs(c, b, n - 1) + OutputKeys(c, b.txns[n - 1].body.outputs, |b.txns[n - 1].body.outputs|)
  }

  lemma {:induction false} FirstOutputFinds(c: Suite, outputs: seq<Output>, n: nat, hash: Digest)
    requires n <= |outputs|
    ensures
      var r := FirstOutput(c, outputs, n, hash);
      && (r.Ok? <==> hash in OutputKeys(c, outputs, n))
      && (r.Ok? ==> r.value in outputs && c.OutputHash(r.value) == hash)
      && (r.Err? ==> forall l :: 0 <= l < n ==> c.OutputHash(outputs[l]) != hash)
  {
    if n > 0 {
      FirstOutputFinds(c, outputs, n - 1, hash);
    }
  }

  lemma {:induction false} FirstInFinds(c: Suite, b: Block, n: nat, hash: Digest)
    requires n <= |b.txns|
    ensures
      var r := FirstIn(c, b.txns, n, hash);
      && (r.Ok? <==> hash in TxnOutputs(c, b, n))
      && (r.Ok? ==> OutputOf(b, r.value) && c.OutputHash(r.value) == hash)
      && (r.Err? ==> forall j, l :: 0 <= j < n && 0 <= l < |b.txns[j].body.outputs| ==>
                       c.OutputHash(b.txns[j].body.outputs[l]) != hash)
  {
    if n > 0 {
      FirstInFinds(c, b, n - 1, hash);
      FirstOutputFinds(c, b.txns[n - 1].body.outputs, |b.txns[n - 1].body.outputs|, hash);
    }
  }

  lemma {:induction false} IndexedKeys(c: Suite, b: Block, n: nat)
    requires n <= |b.txns|
    ensures IndexKeys(c, b, n) == ImageKeys(c, b, n) + TxnOutputs(c, b, n)
  {
    if n > 0 {
      IndexedKeys(c, b, n - 1);
    }
  }

  /** Every entry of the map to blocks names the last block of the chain that holds the key. */
  lemma {:induction false} IndexNames(c: Suite, path: seq<Block>, k: Digest) returns (i: nat)
    requires k in Rebuilt(IndexEntries(c), path)
    ensures RecordedLast(c, path, k, i) && Rebuilt(IndexEntries(c), path)[k] == c.BlockHash(path[i])
  {
    var n := |path| - 1;
    if k in IndexEntries(c)(path[n]) {
      i := n;
    } else {
      i := IndexNames(c, path[..n], k);
    }
  }

  ghost predicate TablesOf(v: View, t: Records)
    requires v.tip in v.tree
  {
    t.blocks == v.blocks && t.sideBlocks == v.sideBlocks && t.index == Rebuilt(IndexEntries(v.c), v.tree[v.tip])
  }

  lemma MainBlockLoads(v: View, t: Records, i: nat)
    requires Partitioned(v) && v.tip in v.tree && t.blocks == v.blocks && i < |v.tree[v.tip]|
    ensures v.c.BlockHash(v.tree[v.tip][i]) in t.blocks
    ensures t.blocks[v.c.BlockHash(v.tree[v.tip][i])] == v.tree[v.tip][i]
  {
    hide Partitioned, WellLinked, Suite.BlockHash;
    Lookup(v, v.tip, i + 1);
  }

  /** Every block of a stored path loads, whichever of the tables it is in. */
  lemma PathLoads(v: View, t: Records, k: Digest, f: nat)
    requires Partitioned(v) && t.blocks == v.blocks && t.sideBlocks == v.sideBlocks && k in v.tree && f <= |v.tree[k]|
    ensures
      var tail := Reverse(v.tree[k][f..]);
      forall i :: 0 <= i < |tail| ==> LoadedBlock(t, v.c.BlockHash(tail[i])) == Ok(tail[i])
  {
    hide Partitioned, Suite.BlockHash;
    var path := v.tree[k];
    var tail := Reverse(path[f..]);
    forall i | 0 <= i < |tail| ensures LoadedBlock(t, v.c.BlockHash(tail[i])) == Ok(tail[i]) {
      Lookup(v, k, |path| - i);
      assert tail[i] == path[|path| - 1 - i];
    }
  }

  /** The last block that records a hash is the one the map names. */
  ghost predicate RecordedLast(c: Suite, path: seq<Block>, k: Digest, i: nat) {
    && i < |path| && k in IndexEntries(c)(path[i])
    && forall j :: i < j < |path| ==> k !in IndexEntries(c)(path[j])
  }

  /** The last block that records a hash holds an output with it. */
  ghost predicate NamesOutput(c: Suite, path: seq<Block>, k: Digest, i: nat) {
    RecordedLast(c, path, k, i) && k in TxnOutputs(c, path[i], |path[i].txns|)
  }

  lemma OneLast(c: Suite, path: seq<Block>, k: Digest, i: nat, j: nat)
    requires RecordedLast(c, path, k, i) && RecordedLast(c, path, k, j)
    ensures i == j
  {
    hide IndexEntries;
  }

  lemma OutputIndexed(c: Suite, path: seq<Block>, o: Output)
    requires OnChain(path, o)
    ensures c.OutputHash(o) in Rebuilt(IndexEntries(c), path)
  {
    hide Suite.BlockHash, Suite.OutputHash, TxnOutputs, ImageKeys, IndexKeys, PutAll;
    var i :| 0 <= i < |path| && OutputOf(path[i], o);
    FirstInFinds(c, path[i], |path[i].txns|, c.OutputHash(o));
    IndexedKeys(c, path[i], |path[i].txns|);
    EntryKeys(c, path[i]);
    assert c.OutputHash(o) in IndexEntries(c)(path[i]);
    PutAllAt(IndexEntries(c), map[], path, c.OutputHash(o));
  }

  /** No output of the chain has the hash of an image spent on it. */
  ghost predicate Separate(c: Suite, path: seq<Block>) {
    forall o :: OnChain(path, o) ==> !Contributes(ImageEntries(c), path, c.OutputHash(o))
  }

  /**
   Looking any hash up, with nothing assumed of it: it succeeds exactly when the last
   block of the main chain that records the hash, for an output or a spent image, holds
   an output with it, and then returns such an output.
   */
  lemma LoadOutputAt(v: View, t: Records, hash: Digest)
    requires Partitioned(v) && v.tip in v.tree && TablesOf(v, t)
    ensures
      var main, r := v.tree[v.tip], LoadedOutput(v.c, t, hash);
      && (r.Ok? <==> exists i: nat :: NamesOutput(v.c, main, hash, i))
      && (r.Ok? ==> OnChain(main, r.value) && v.c.OutputHash(r.value) == hash)
  {
    hide Partitioned, Rebuilt, Suite.BlockHash, Suite.OutputHash, FirstIn, Contributes, OutputOf, TxnOutputs,
         IndexEntries;
    var main := v.tree[v.tip];
    if hash in t.index {
      var i := IndexNames(v.c, main, hash);
      MainBlockLoads(v, t, i);
      FirstInFinds(v.c, main[i], |main[i].txns|, hash);
      if LoadedOutput(v.c, t, hash).Ok? {
        assert OnChain(main, LoadedOutput(v.c, t, hash).value);
        assert NamesOutput(v.c, main, hash, i);
      }
      forall j: nat | NamesOutput(v.c, main, hash, j) ensures j == i {
        OneLast(v.c, main, hash, i, j);
      }
    } else {
      forall i: nat ensures !NamesOutput(v.c, main, hash, i) {
        NotRecorded(v.c, main, hash, i);
      }
    }
  }

  lemma NotRecorded(c: Suite, path: seq<Block>, k: Digest, i: nat)
    requires k !in Rebuilt(IndexEntries(c), path)
    ensures !RecordedLast(c, path, k, i)
  {
    hide IndexEntries, PutAll;
    PutAllAt(IndexEntries(c), map[], path, k);
  }

  /**
   When no output on the main chain has the hash of an image spent there, looking any
   hash up succeeds exactly for the outputs of its blocks, and fails for every image.
   */
  lemma LoadOutputExact(v: View, t: Records, hash: Digest)
    requires Partitioned(v) && v.tip in v.tree && TablesOf(v, t) && Separate(v.c, v.tree[v.tip])
    ensures
      var r := LoadedOutput(v.c, t, hash);
      && (r.Ok? <==> exists o :: OnChain(v.tree[v.tip], o) && v.c.OutputHash(o) == hash)
      && (r.Ok? ==> OnChain(v.tree[v.tip], r.value) && v.c.OutputHash(r.value) == hash)
      && (Contributes(ImageEntries(v.c), v.tree[v.tip], hash) ==> r.Err?)
  {
    hide Partitioned, Rebuilt, Suite.BlockHash, Suite.OutputHash, LoadedOutput, Contributes, OnChain, RecordedLast,
         TxnOutputs;
    var main := v.tree[v.tip];
    LoadOutputAt(v, t, hash);
    forall o | OnChain(main, o) && v.c.OutputHash(o) == hash
      ensures exists i: nat :: NamesOutput(v.c, main, hash, i)
    {
      OutputIndexed(v.c, main, o);
      var i := IndexNames(v.c, main, hash);
      RecordedOutput(v.c, main, hash, i);
      assert NamesOutput(v.c, main, hash, i);
    }
  }

  /** A recorded hash that is no spent image is an output of the block that records it. */
  lemma RecordedOutput(c: Suite, path: seq<Block>, hash: Digest, i: nat)
    requires RecordedLast(c, path, hash, i) && !Contributes(ImageEntries(c), path, hash)
    ensures i < |path| && hash in TxnOutputs(c, path[i], |path[i].txns|)
  {
    hide Suite.BlockHash;
    EntryKeys(c, path[i]);
    IndexedKeys(c, path[i], |path[i].txns|);
  }

  // --- Transactions ---

  function Spent(t: Records, image: Digest): bool {
    image in t.images && t.images[image] == image
  }

  predicate ValidTxn(c: Suite, txn: Txn) {
    && |txn.body.inputs| == c.ring && |txn.body.outputs| == 2
    && |txn.sig.rs| == |txn.sig.ss| == c.ring
    && forall i :: 0 <= i < |txn.body.outputs| ==>
         |txn.body.outputs[i].commit.proof.ss| == |txn.body.outputs[i].commit.proof.pks| == c.bits
  }

  predicate ValidCoinbaseTxn(txn: Txn) {
    txn.body.inputs == [ZERO_DIGEST] && |txn.body.outputs| == 1
  }

  /** The form of a block: the root of its own transactions, one coinbase, and payments above it. */
  predicate Formed(c: Suite, b: Block) {
    && b.txns != [] && b.header.merkleRoot == c.merkle(b.txns) && ValidCoinbaseTxn(b.txns[0])
    && (forall i :: 1 <= i < |b.txns| ==> ValidTxn(c, b.txns[i]))
  }

  predicate Prevalid(c: Suite, env: Env, b: Block) {
    Formed(c, b) && env.admissible(b)
  }

  /** An input a transaction may draw on: it is found, recorded on the main chain and not above the fork. */
  ghost predicate Usable(c: Suite, t: Records, env: Env, inp: Digest, mainTxns: set<Digest>) {
    FoundOutput(c, t, env, inp).Ok? && inp in t.index && inp !in mainTxns
  }

  /** The outputs a transaction names as its ring. */
  ghost function RingOutputs(c: Suite, t: Records, env: Env, inputs: seq<Digest>): (r: seq<Output>)
    requires forall i :: 0 <= i < |inputs| ==> FoundOutput(c, t, env, inputs[i]).Ok?
    ensures |r| == |inputs|
    ensures forall i :: 0 <= i < |inputs| ==> r[i] == FoundOutput(c, t, env, inputs[i]).value
  {
    seq(|inputs|, i requires 0 <= i < |inputs| => FoundOutput(c, t, env, inputs[i]).value)
  }

  ghost predicate AcceptableTxn(c: Suite, t: Records, env: Env, txn: Txn, mainTxns: set<Digest>, mainPimgs: set<Digest>)
    requires ValidTxn(c, txn)
  {
    && !Spent(t, c.ImageHash(txn)) && c.ImageHash(txn) !in mainPimgs
    && (forall i :: 0 <= i < |txn.body.inputs| ==> Usable(c, t, env, txn.body.inputs[i], mainTxns))
    && (var ring := RingOutputs(c, t, env, txn.body.inputs);
        Accepts(c, txn, DestKeys(ring), InputCommits(ring)))
    && (forall i :: 0 <= i < |txn.body.outputs| ==> Verifies(c, txn.body.outputs[i].commit.proof))
  }

  /** What the coinbase may claim, added up as 64-bit words over the first n transactions. */
  function CoinbaseDue(b: Block, n: nat): nat
    requires n <= |b.txns|
  {
    if n <= 1 then CoinbaseValue(b.header.seqNum) else (CoinbaseDue(b, n - 1) + b.txns[n - 1].body.fee) % UINT64
  }

  ghost predicate AcceptableTxns(c: Suite, t: Records, env: Env, b: Block, mainTxns: set<Digest>,
                                 mainPimgs: set<Digest>)
    requires Prevalid(c, env, b)
  {
    && (forall i :: 1 <= i < |b.txns| ==> AcceptableTxn(c, t, env, b.txns[i], mainTxns, mainPimgs))
    && VerifyCoinbaseTxn(b.txns[0], CoinbaseDue(b, |b.txns|))
  }

  /** The coinbase a miner builds is the one every verifier asks for, whatever the fees add up to. */
  lemma {:induction false} NewBlockCoinbase(c: Suite, b: Block, pool: seq<Txn>, to: PublicKey, r: nat, n: nat)
    requires 1 <= n <= |b.txns| && b.txns[1..] == pool
    requires b.txns[0] == NewCoinbaseTxn(c, to, b.header.seqNum, WrappedFees(pool, |pool|), r)
    ensures CoinbaseDue(b, n) == (CoinbaseValue(b.header.seqNum) + WrappedFees(pool, n - 1)) % UINT64
    ensures n == |b.txns| ==> VerifyCoinbaseTxn(b.txns[0], CoinbaseDue(b, n))
  {
    hide CoinbaseValue, NewCoinbaseTxn, VerifyCoinbaseTxn;
    CoinbaseFits(b.header.seqNum);
    if n > 1 {
      NewBlockCoinbase(c, b, pool, to, r, n - 1);
      assert b.txns[1..][n - 2] == b.txns[n - 1];
      WordSum(CoinbaseValue(b.header.seqNum), WrappedFees(pool, n - 2), pool[n - 2].body.fee);
    }
    if n == |b.txns| {
      CoinbaseVerifies(c, to, b.header.seqNum, WrappedFees(pool, |pool|), r, CoinbaseDue(b, n));
    }
  }

  lemma {:induction false} ShiftShrinks(v: nat, k: nat)
    ensures ShiftRight(v, k) <= v
  {
    if k > 0 {
      ShiftShrinks(v / 2, k - 1);
    }
  }

  lemma CoinbaseFits(s: nat)
    ensures CoinbaseValue(s) < UINT64
  {
    ShiftShrinks(INITIAL_SUBSIDY, s / ERA);
  }

  lemma WordSum(a: nat, b: nat, x: nat)
    ensures ((a + b) % UINT64 + x) % UINT64 == (a + (b + x) % UINT64) % UINT64
  {
  }

  // --- What a fork excludes ---

  /** The images of the first n transactions of a block, the coinbase's included. */
  function TxnImages(c: Suite, b: Block, n: nat): set<Digest>
    requires n <= |b.txns|
  {
    if n == 0 then {} else TxnImages(c, b, n - 1) + {c.ImageHash(b.txns[n - 1])}
  }

  function StoredBlock(t: Records, hash: Digest): Result<Block> {
    if hash in t.blocks then Ok(t.blocks[hash])
    else if hash in t.sideBlocks then Ok(t.sideBlocks[hash])
    else Err
  }

  ghost predicate PathStored(t: Records, path: seq<Digest>) {
    forall i :: 0 <= i < |path| ==> StoredBlock(t, path[i]).Ok?
  }

  ghost function ForkOutputs(c: Suite, t: Records, path: seq<Digest>, n: nat): set<Digest>
    requires PathStored(t, path) && n <= |path|
  {
    if n == 0 then {} else
      var b := StoredBlock(t, path[n - 1]).value;
      ForkOutputs(c, t, path, n - 1) + TxnOutputs(c, b, |b.txns|)
  }

  ghost function ForkImages(c: Suite, t: Records, path: seq<Digest>, n: nat): set<Digest>
    requires PathStored(t, path) && n <= |path|
  {
    if n == 0 then {} else
      var b := StoredBlock(t, path[n - 1]).value;
      ForkImages(c, t, path, n - 1) + TxnImages(c, b, |b.txns|)
  }

  lemma {:induction false} ForkOutputsHold(c: Suite, t: Records, path: seq<Digest>, n: nat, i: nat)
    requires PathStored(t, path) && i < n <= |path|
    ensures var b := StoredBlock(t, path[i]).value; TxnOutputs(c, b, |b.txns|) <= ForkOutputs(c, t, path, n)
  {
    if i < n - 1 {
      ForkOutputsHold(c, t, path, n - 1, i);
    }
  }

  lemma NotAboveFork(v: View, t: Records, mainPath: seq<Digest>, f: nat, i: nat)
    requires Partitioned(v) && v.tip in v.tree && t.blocks == v.blocks && f <= i < |v.tree[v.tip]|
    requires HashesOf(v.c, mainPath, Reverse(v.tree[v.tip][f..])) && PathStored(t, mainPath)
    ensures TxnOutputs(v.c, v.tree[v.tip][i], |v.tree[v.tip][i].txns|) <= ForkOutputs(v.c, t, mainPath, |mainPath|)
  {
    hide Partitioned, Rebuilt, Suite.BlockHash, TxnOutputs, ForkOutputs;
    var main := v.tree[v.tip];
    var j := |main| - 1 - i;
    assert Reverse(main[f..])[j] == main[i];
    MainBlockLoads(v, t, i);
    ForkOutputsHold(v.c, t, mainPath, |mainPath|, j);
  }

  /**
   Every input of a transaction accepted for a side block is found with the hash that
   names it, and is an output below the fork, or else its hash is that of an image spent
   on the main chain.
   */
  lemma SideInputsBelowFork(v: View, t: Records, env: Env, mainPath: seq<Digest>, f: nat, inp: Digest)
    requires Partitioned(v) && v.tip in v.tree && TablesOf(v, t)
    requires f <= |v.tree[v.tip]| && HashesOf(v.c, mainPath, Reverse(v.tree[v.tip][f..])) && PathStored(t, mainPath)
    requires Usable(v.c, t, env, inp, ForkOutputs(v.c, t, mainPath, |mainPath|))
    ensures
      var r := FoundOutput(v.c, t, env, inp);
      && v.c.OutputHash(r.value) == inp
      && (OnChain(v.tree[v.tip][..f], r.value) || Contributes(ImageEntries(v.c), v.tree[v.tip], inp))
  {
    hide Partitioned, Rebuilt, Suite.BlockHash, Suite.OutputHash, LoadedOutput, RecordedLast, Contributes, OutputOf,
         HashesOf, PathStored, ForkOutputs, TxnOutputs;
    var main := v.tree[v.tip];
    LoadOutputAt(v, t, inp);
    if !Contributes(ImageEntries(v.c), main, inp) {
      var i := IndexNames(v.c, main, inp);
      RecordedOutput(v.c, main, inp, i);
      LoadedFrom(v, t, inp, i);
      if i >= f {
        NotAboveFork(v, t, mainPath, f, i);
      }
      assert main[..f][i] == main[i];
    }
  }

  lemma LoadedFrom(v: View, t: Records, hash: Digest, i: nat)
    requires Partitioned(v) && v.tip in v.tree && TablesOf(v, t) && hash in t.index && i < |v.tree[v.tip]|
    requires t.index[hash] == v.c.BlockHash(v.tree[v.tip][i])
    requires hash in TxnOutputs(v.c, v.tree[v.tip][i], |v.tree[v.tip][i].txns|)
    ensures LoadedOutput(v.c, t, hash).Ok? && OutputOf(v.tree[v.tip][i], LoadedOutput(v.c, t, hash).value)
  {
    hide Partitioned, Rebuilt, Suite.BlockHash, Suite.OutputHash, FirstIn, TxnOutputs;
    MainBlockLoads(v, t, i);
    FirstInFinds(v.c, v.tree[v.tip][i], |v.tree[v.tip][i].txns|, hash);
  }

  // --- Spent images along the chain ---

  lemma {:induction false} RebuiltSelves(c: Suite, path: seq<Block>, k: Digest)
    ensures k in Rebuilt(ImageEntries(c), path) ==> Rebuilt(ImageEntries(c), path)[k] == k
  {
    if path != [] {
      RebuiltSelves(c, path[..|path| - 1], k);
    }
  }

  /** An image counts as spent exactly when a block of the chain spends it. */
  lemma SpentOnChain(c: Suite, t: Records, path: seq<Block>, k: Digest)
    requires t.images == Rebuilt(ImageEntries(c), path)
    ensures Spent(t, k) <==> Contributes(ImageEntries(c), path, k)
  {
    RebuiltSelves(c, path, k);
    PutAllAt(ImageEntries(c), map[], path, k);
  }

  lemma {:induction false} ImageOfTxn(c: Suite, b: Block, n: nat, k: Digest)
    requires n <= |b.txns| && k in ImageKeys(c, b, n)
    ensures exists i :: 1 <= i < n && c.ImageHash(b.txns[i]) == k
  {
    if k in ImageKeys(c, b, n - 1) {
      ImageOfTxn(c, b, n - 1, k);
    }
  }

  // --- What the tables record, transaction by transaction ---

  /** Some transaction of the block other than the coinbase spends the image. */
  ghost predicate SpendsImage(c: Suite, b: Block, k: Digest) {
    exists a :: 1 <= a < |b.txns| && c.ImageHash(b.txns[a]) == k
  }

  ghost predicate HasOutput(c: Suite, b: Block, k: Digest) {
    exists o :: OutputOf(b, o) && c.OutputHash(o) == k
  }

  /** Some transaction of the chain other than a coinbase spends the image. */
  ghost predicate SpentIn(c: Suite, path: seq<Block>, k: Digest) {
    exists i :: 0 <= i < |path| && SpendsImage(c, path[i], k)
  }

  lemma {:induction false} ImageKeysHold(c: Suite, b: Block, n: nat, a: nat)
    requires 1 <= a < n <= |b.txns|
    ensures c.ImageHash(b.txns[a]) in ImageKeys(c, b, n)
  {
    if a < n - 1 {
      ImageKeysHold(c, b, n - 1, a);
    }
  }

  /** The entries of a block are its images and its outputs, each one of them, and name the block. */
  lemma EntriesAre(c: Suite, b: Block, k: Digest)
    ensures k in ImageEntries(c)(b) <==> SpendsImage(c, b, k)
    ensures k in IndexEntries(c)(b) <==> SpendsImage(c, b, k) || HasOutput(c, b, k)
    ensures k in ImageEntries(c)(b) ==> ImageEntries(c)(b)[k] == k
    ensures k in IndexEntries(c)(b) ==> IndexEntries(c)(b)[k] == c.BlockHash(b)
  {
    hide Suite.BlockHash, Suite.OutputHash, Suite.ImageHash;
    EntryKeys(c, b);
    IndexedKeys(c, b, |b.txns|);
    FirstInFinds(c, b, |b.txns|, k);
    if k in ImageKeys(c, b, |b.txns|) {
      ImageOfTxn(c, b, |b.txns|, k);
    }
    if a :| 1 <= a < |b.txns| && c.ImageHash(b.txns[a]) == k {
      ImageKeysHold(c, b, |b.txns|, a);
    }
  }

  lemma SpentInContributes(c: Suite, path: seq<Block>, k: Digest)
    ensures SpentIn(c, path, k) <==> Contributes(ImageEntries(c), path, k)
  {
    hide ImageEntries, SpendsImage;
    forall i | 0 <= i < |path| ensures k in ImageEntries(c)(path[i]) <==> SpendsImage(c, path[i], k) {
      EntriesAre(c, path[i], k);
    }
  }

  /** Chains none of whose blocks share a key spend every image in one block only. */
  lemma DisjointMeansOnce(c: Suite, path: seq<Block>, i: nat, j: nat, a: nat, b: nat)
    requires Disjoint(ImageEntries(c), path) && i < j < |path|
    requires 1 <= a < |path[i].txns| && 1 <= b < |path[j].txns|
    ensures c.ImageHash(path[i].txns[a]) != c.ImageHash(path[j].txns[b])
  {
    hide ImageEntries, Suite.ImageHash;
    EntriesAre(c, path[i], c.ImageHash(path[i].txns[a]));
    EntriesAre(c, path[j], c.ImageHash(path[j].txns[b]));
    assert ImageEntries(c)(path[i]).Keys !! ImageEntries(c)(path[j]).Keys;
  }

  /** The outputs collected along a path are those of its blocks, each one of them. */
  lemma {:induction false} ForkOutputsAre(c: Suite, t: Records, path: seq<Digest>, n: nat, k: Digest)
    requires PathStored(t, path) && n <= |path|
    ensures k in ForkOutputs(c, t, path, n)
       <==> exists i :: 0 <= i < n && HasOutput(c, StoredBlock(t, path[i]).value, k)
  {
    hide HasOutput;
    if n > 0 {
      ForkOutputsAre(c, t, path, n - 1, k);
      OutputsAre(c, StoredBlock(t, path[n - 1]).value, k);
    }
  }

  lemma OutputsAre(c: Suite, b: Block, k: Digest)
    ensures k in TxnOutputs(c, b, |b.txns|) <==> HasOutput(c, b, k)
  {
    FirstInFinds(c, b, |b.txns|, k);
  }

  /** And so are the images, the coinbase's among them. */
  lemma {:induction false} ForkImagesAre(c: Suite, t: Records, path: seq<Digest>, n: nat, k: Digest)
    requires PathStored(t, path) && n <= |path|
    ensures k in ForkImages(c, t, path, n)
       <==> exists i :: 0 <= i < n && HasImage(c, StoredBlock(t, path[i]).value, k)
  {
    hide HasImageIn;
    if n > 0 {
      ForkImagesAre(c, t, path, n - 1, k);
      TxnImagesAre(c, StoredBlock(t, path[n - 1]).value, |StoredBlock(t, path[n - 1]).value.txns|, k);
    }
  }

  ghost predicate HasImage(c: Suite, b: Block, k: Digest) {
    HasImageIn(c, b, |b.txns|, k)
  }

  ghost predicate HasImageIn(c: Suite, b: Block, n: nat, k: Digest)
    requires n <= |b.txns|
  {
    exists a :: 0 <= a < n && c.ImageHash(b.txns[a]) == k
  }

  lemma {:induction false} TxnImagesAre(c: Suite, b: Block, n: nat, k: Digest)
    requires n <= |b.txns|
    ensures k in TxnImages(c, b, n) <==> HasImageIn(c, b, n, k)
  {
    hide Suite.ImageHash;
    if n > 0 {
      TxnImagesAre(c, b, n - 1, k);
    }
  }

  // --- What acceptance means ---

  /** The coinbase check passes exactly for a commitment that opens to the amount with blinding factor 0. */
  lemma CoinbaseOpens(txn: Txn, amount: nat)
    ensures VerifyCoinbaseTxn(txn, amount)
       <==> |txn.body.outputs| > 0 && txn.body.outputs[0].commit.point == PedersenSum(0, amount)
  {
    hide ScalarMult;
    BaseAt(amount);
    BaseAt(0);
    PedersenSumAt(0, amount);
  }

  /** The fees of the transactions above the coinbase. */
  function FeesOf(b: Block): (fees: seq<int>)
    ensures |fees| == if |b.txns| > 0 then |b.txns| - 1 else 0
    ensures forall i :: 0 <= i < |fees| ==> fees[i] == b.txns[i + 1].body.fee
  {
    seq(if |b.txns| > 0 then |b.txns| - 1 else 0, i requires 0 <= i < |b.txns| - 1 => b.txns[i + 1].body.fee)
  }

  /** What a coinbase is due is its subsidy and the sum of all fees, as a 64-bit word. */
  lemma {:induction false} DueIsSubsidyAndFees(b: Block, n: nat)
    requires 1 <= n <= |b.txns|
    ensures CoinbaseDue(b, n) == (CoinbaseValue(b.header.seqNum) + SumTo(FeesOf(b), n - 1)) % UINT64
  {
    hide CoinbaseValue;
    CoinbaseFits(b.header.seqNum);
    if n == 1 {
      assert SumTo(FeesOf(b), 0) == 0;
    } else {
      DueIsSubsidyAndFees(b, n - 1);
      assert SumTo(FeesOf(b), n - 1) == SumTo(FeesOf(b), n - 2) + b.txns[n - 1].body.fee;
      AddToWord(CoinbaseValue(b.header.seqNum) + SumTo(FeesOf(b), n - 2), b.txns[n - 1].body.fee);
    }
  }

  lemma AddToWord(a: int, x: nat)
    ensures (a % UINT64 + x) % UINT64 == (a + x) % UINT64
  {
  }

  /** Outputs with the hashes that a transaction names, for whose keys and commitments its signature is accepted. */
  ghost predicate Backs(c: Suite, txn: Txn, ring: seq<Output>)
    requires ValidTxn(c, txn)
  {
    && |ring| == |txn.body.inputs| && (forall i :: 0 <= i < |ring| ==> c.OutputHash(ring[i]) == txn.body.inputs[i])
    && Accepts(c, txn, DestKeys(ring), InputCommits(ring))
  }

  /** What stays true of an accepted payment wherever its block ends up: a ring that backs it, and its range proofs. */
  ghost predicate Backed(c: Suite, txn: Txn) {
    && ValidTxn(c, txn) && (exists ring :: Backs(c, txn, ring))
    && (forall i :: 0 <= i < |txn.body.outputs| ==> Verifies(c, txn.body.outputs[i].commit.proof))
  }

  /** What stays true of an accepted block: its payments are backed, and its coinbase opens to what it is due. */
  ghost predicate BlockBacked(c: Suite, b: Block) {
    && (forall i :: 1 <= i < |b.txns| ==> Backed(c, b.txns[i]))
    && |b.txns| > 0 && |b.txns[0].body.outputs| > 0
    && b.txns[0].body.outputs[0].commit.point
       == PedersenSum(0, (CoinbaseValue(b.header.seqNum) + SumTo(FeesOf(b), |b.txns| - 1)) % UINT64)
  }

  lemma FoundHash(c: Suite, t: Records, env: Env, hash: Digest)
    requires FoundOutput(c, t, env, hash).Ok?
    ensures c.OutputHash(FoundOutput(c, t, env, hash).value) == hash
  {
    hide Suite.OutputHash, FirstIn;
    if LoadedOutput(c, t, hash).Ok? {
      var b := LoadedBlock(t, t.index[hash]).value;
      FirstInFinds(c, b, |b.txns|, hash);
    }
  }

  lemma AcceptedIsBacked(c: Suite, t: Records, env: Env, b: Block, mainTxns: set<Digest>, mainPimgs: set<Digest>)
    requires Prevalid(c, env, b) && AcceptableTxns(c, t, env, b, mainTxns, mainPimgs)
    ensures BlockBacked(c, b)
  {
    hide Accepts, Verifies, Suite.OutputHash, Suite.ImageHash, FoundOutput, VerifyCoinbaseTxn, CoinbaseDue,
         CoinbaseValue, ScalarMult;
    forall i | 1 <= i < |b.txns| ensures Backed(c, b.txns[i]) {
      var inputs := b.txns[i].body.inputs;
      var ring := RingOutputs(c, t, env, inputs);
      forall k | 0 <= k < |ring| ensures c.OutputHash(ring[k]) == inputs[k] {
        FoundHash(c, t, env, inputs[k]);
      }
      assert Backs(c, b.txns[i], ring);
    }
    DueIsSubsidyAndFees(b, |b.txns|);
    CoinbaseOpens(b.txns[0], CoinbaseDue(b, |b.txns|));
  }

  /**
   What an accepted transaction has passed, whatever the state of the tables: a ring of
   outputs with the hashes it names, each on the main chain below the fork unless its
   hash is a spent image's, its signature accepted for their keys and commitments, its
   range proofs accepted, and an image that no block above the fork spends.
   */
  lemma AcceptedTxnMeans(v: View, t: Records, env: Env, txn: Txn, mainPath: seq<Digest>, f: nat)
    returns (ring: seq<Output>)
    requires Partitioned(v) && v.tip in v.tree && TablesOf(v, t) && ValidTxn(v.c, txn)
    requires f <= |v.tree[v.tip]| && HashesOf(v.c, mainPath, Reverse(v.tree[v.tip][f..])) && PathStored(t, mainPath)
    requires AcceptableTxn(v.c, t, env, txn, ForkOutputs(v.c, t, mainPath, |mainPath|),
                           ForkImages(v.c, t, mainPath, |mainPath|))
    ensures |ring| == |txn.body.inputs| == v.c.ring
    ensures forall i :: 0 <= i < |ring| ==> v.c.OutputHash(ring[i]) == txn.body.inputs[i]
    ensures forall i :: 0 <= i < |ring| ==>
      OnChain(v.tree[v.tip][..f], ring[i]) || SpentIn(v.c, v.tree[v.tip], txn.body.inputs[i])
    ensures Accepts(v.c, txn, DestKeys(ring), InputCommits(ring))
    ensures forall i :: 0 <= i < |txn.body.outputs| ==> Verifies(v.c, txn.body.outputs[i].commit.proof)
    ensures !(v.c.ImageHash(txn) in t.images && t.images[v.c.ImageHash(txn)] == v.c.ImageHash(txn))
    ensures forall i, a :: f <= i < |v.tree[v.tip]| && 0 <= a < |v.tree[v.tip][i].txns| ==>
      v.c.ImageHash(v.tree[v.tip][i].txns[a]) != v.c.ImageHash(txn)
  {
    hide Partitioned, Rebuilt, Accepts, Verifies, Suite.ImageHash, Suite.OutputHash, OnChain, SpentIn, ForkOutputs,
         ForkImages, FoundOutput, HashesOf, PathStored;
    var main := v.tree[v.tip];
    ring := RingOutputs(v.c, t, env, txn.body.inputs);
    forall i | 0 <= i < |ring|
      ensures v.c.OutputHash(ring[i]) == txn.body.inputs[i]
      ensures OnChain(main[..f], ring[i]) || SpentIn(v.c, main, txn.body.inputs[i])
    {
      SideInputsBelowFork(v, t, env, mainPath, f, txn.body.inputs[i]);
      SpentInContributes(v.c, main, txn.body.inputs[i]);
    }
    forall i, a | f <= i < |main| && 0 <= a < |main[i].txns|
      ensures v.c.ImageHash(main[i].txns[a]) != v.c.ImageHash(txn)
    {
      AboveForkCollected(v, t, mainPath, f, i, a);
    }
  }

  lemma AboveForkCollected(v: View, t: Records, mainPath: seq<Digest>, f: nat, i: nat, a: nat)
    requires Partitioned(v) && v.tip in v.tree && t.blocks == v.blocks && t.sideBlocks == v.sideBlocks
    requires f <= i < |v.tree[v.tip]| && a < |v.tree[v.tip][i].txns|
    requires HashesOf(v.c, mainPath, Reverse(v.tree[v.tip][f..])) && PathStored(t, mainPath)
    ensures v.c.ImageHash(v.tree[v.tip][i].txns[a]) in ForkImages(v.c, t, mainPath, |mainPath|)
  {
    hide Partitioned, ForkImages, Suite.ImageHash, HashesOf, PathStored;
    var b := v.tree[v.tip][i];
    ForkImagesHoldBlock(v, t, v.tip, f, mainPath, i);
    TxnImagesAre(v.c, b, |b.txns|, v.c.ImageHash(b.txns[a]));
  }

  lemma DisjointExtends<V>(entries: Block -> map<Digest, V>, path: seq<Block>, b: Block)
    requires Disjoint(entries, path)
    requires forall k :: k in entries(b) ==> !Contributes(entries, path, k)
    ensures Disjoint(entries, path + [b])
  {
    forall i, j | 0 <= i < j < |path| + 1
      ensures entries((path + [b])[i]).Keys !! entries((path + [b])[j]).Keys
    {
      if j < |path| {
        assert entries(path[i]).Keys !! entries(path[j]).Keys;
      }
    }
  }

  /** A block whose transactions are accepted spends no image that an earlier block has spent. */
  lemma AcceptedSpendsNew(c: Suite, t: Records, env: Env, b: Block, path: seq<Block>, mainTxns: set<Digest>,
                          mainPimgs: set<Digest>)
    requires Prevalid(c, env, b) && AcceptableTxns(c, t, env, b, mainTxns, mainPimgs)
    requires t.images == Rebuilt(ImageEntries(c), path) && Disjoint(ImageEntries(c), path)
    ensures Disjoint(ImageEntries(c), path + [b])
  {
    hide Rebuilt, Contributes, Spent, Suite.ImageHash, Disjoint, VerifyCoinbaseTxn, CoinbaseDue;
    forall k | k in ImageEntries(c)(b) ensures !Contributes(ImageEntries(c), path, k) {
      EntryKeys(c, b);
      ImageOfTxn(c, b, |b.txns|, k);
      SpentOnChain(c, t, path, k);
    }
    DisjointExtends(ImageEntries(c), path, b);
  }

  lemma NoRepeatsBefore(c: Suite, tree: Tree, b: Block)
    requires CanGrow(c, tree, b) && NoRepeats(c, Grown(c, tree, b))
    ensures NoRepeats(c, tree)
  {
    hide Suite.BlockHash, Disjoint;
    forall k | k in tree ensures Disjoint(IndexEntries(c), tree[k]) {
      assert Grown(c, tree, b)[k] == tree[k];
    }
  }

  lemma NoImageTwiceBefore(c: Suite, tree: Tree, b: Block)
    requires CanGrow(c, tree, b) && NoImageTwice(c, Grown(c, tree, b))
    ensures NoImageTwice(c, tree)
  {
    hide Suite.BlockHash, Disjoint;
    forall k | k in tree ensures Disjoint(ImageEntries(c), tree[k]) {
      assert Grown(c, tree, b)[k] == tree[k];
    }
  }

  lemma NoImageTwiceGrown(c: Suite, tree: Tree, b: Block)
    requires CanGrow(c, tree, b) && NoImageTwice(c, tree)
    requires Disjoint(ImageEntries(c), tree[b.header.prevHash] + [b])
    ensures NoImageTwice(c, Grown(c, tree, b))
  {
    hide Suite.BlockHash, Disjoint;
  }

  /** What the transactions of an accepted block spend has not been spent on the main chain. */
  lemma AcceptedUnspent(c: Suite, t: Records, env: Env, b: Block, main: seq<Block>, mainTxns: set<Digest>,
                        mainPimgs: set<Digest>, k: Digest)
    requires Prevalid(c, env, b) && AcceptableTxns(c, t, env, b, mainTxns, mainPimgs)
    requires t.images == Rebuilt(ImageEntries(c), main) && k in ImageEntries(c)(b)
    ensures !Contributes(ImageEntries(c), main, k)
  {
    hide Rebuilt, Contributes, Spent, Suite.ImageHash, VerifyCoinbaseTxn, CoinbaseDue;
    EntryKeys(c, b);
    ImageOfTxn(c, b, |b.txns|, k);
    SpentOnChain(c, t, main, k);
  }

  lemma DisjointExtendsIff<V>(entries: Block -> map<Digest, V>, path: seq<Block>, b: Block)
    requires Disjoint(entries, path)
    ensures Disjoint(entries, path + [b]) <==> forall k :: k in entries(b) ==> !Contributes(entries, path, k)
  {
    if Disjoint(entries, path + [b]) {
      forall k | k in entries(b) ensures !Contributes(entries, path, k) {
        OneContributes(entries, b, k);
        ContributedOnce(entries, path, [b], k);
      }
    } else {
      if forall k :: k in entries(b) ==> !Contributes(entries, path, k) {
        DisjointExtends(entries, path, b);
      }
    }
  }

  lemma OneContributes<V>(entries: Block -> map<Digest, V>, b: Block, k: Digest)
    requires k in entries(b)
    ensures Contributes(entries, [b], k)
  {
    assert k in entries([b][0]);
  }

  /**
   A block accepted for a path that leaves the main chain at height f repeats no image of
   that path if and only if it repeats none of the blocks above the fork: the check whose
   ingredients are computed for it, and which is not made.
   */
  lemma SideBlockSpendsNewIff(c: Suite, t: Records, env: Env, b: Block, main: seq<Block>, path: seq<Block>, f: nat,
                              mainTxns: set<Digest>, mainPimgs: set<Digest>)
    requires Prevalid(c, env, b) && AcceptableTxns(c, t, env, b, mainTxns, mainPimgs)
    requires t.images == Rebuilt(ImageEntries(c), main)
    requires f <= |main| && f <= |path| && path[..f] == main[..f] && Disjoint(ImageEntries(c), path)
    ensures Disjoint(ImageEntries(c), path + [b])
       <==> forall k :: k in ImageEntries(c)(b) ==> !Contributes(ImageEntries(c), path[f..], k)
  {
    hide Rebuilt, Contributes, Disjoint, ImageEntries, AcceptableTxns, Prevalid;
    var E := ImageEntries(c);
    DisjointExtendsIff(E, path, b);
    assert main == main[..f] + main[f..] && path == path[..f] + path[f..];
    forall k | k in E(b) ensures Contributes(E, path, k) <==> Contributes(E, path[f..], k) {
      AcceptedUnspent(c, t, env, b, main, mainTxns, mainPimgs, k);
      ContributesConcat(E, main[..f], main[f..], k);
      ContributesConcat(E, path[..f], path[f..], k);
    }
  }

  lemma {:induction false} ForkImagesHold(c: Suite, t: Records, path: seq<Digest>, n: nat, i: nat)
    requires PathStored(t, path) && i < n <= |path|
    ensures var b := StoredBlock(t, path[i]).value; TxnImages(c, b, |b.txns|) <= ForkImages(c, t, path, n)
  {
    if i < n - 1 {
      ForkImagesHold(c, t, path, n - 1, i);
    }
  }

  lemma {:induction false} ImagesOfTxns(c: Suite, b: Block, n: nat)
    requires n <= |b.txns|
    ensures ImageKeys(c, b, n) <= TxnImages(c, b, n)
  {
    if n > 0 {
      ImagesOfTxns(c, b, n - 1);
    }
  }

  /** Whatever image the blocks of a stored path spend above a height is among those collected along their hashes. */
  lemma ForkImagesCover(v: View, t: Records, tip: Digest, f: nat, hashes: seq<Digest>, k: Digest)
    requires Partitioned(v) && t.blocks == v.blocks && t.sideBlocks == v.sideBlocks && tip in v.tree
    requires f <= |v.tree[tip]| && HashesOf(v.c, hashes, Reverse(v.tree[tip][f..])) && PathStored(t, hashes)
    requires Contributes(ImageEntries(v.c), v.tree[tip][f..], k)
    ensures k in ForkImages(v.c, t, hashes, |hashes|)
  {
    hide Partitioned, Rebuilt, Suite.BlockHash, TxnImages, ForkImages, ImageEntries, HashesOf, PathStored;
    var path := v.tree[tip];
    var i :| 0 <= i < |path[f..]| && k in ImageEntries(v.c)(path[f..][i]);
    ForkImagesHoldBlock(v, t, tip, f, hashes, f + i);
    EntryKeys(v.c, path[f + i]);
    ImagesOfTxns(v.c, path[f + i], |path[f + i].txns|);
  }

  lemma ForkImagesHoldBlock(v: View, t: Records, tip: Digest, f: nat, hashes: seq<Digest>, n: nat)
    requires Partitioned(v) && t.blocks == v.blocks && t.sideBlocks == v.sideBlocks && tip in v.tree
    requires f <= n < |v.tree[tip]| && HashesOf(v.c, hashes, Reverse(v.tree[tip][f..])) && PathStored(t, hashes)
    ensures TxnImages(v.c, v.tree[tip][n], |v.tree[tip][n].txns|) <= ForkImages(v.c, t, hashes, |hashes|)
  {
    hide Partitioned, Suite.BlockHash, TxnImages, ForkImages, StoredBlock;
    var path := v.tree[tip];
    assert Reverse(path[f..])[|path| - 1 - n] == path[n];
    PathBlockStored(v, t, tip, n);
    ForkImagesHold(v.c, t, hashes, |hashes|, |path| - 1 - n);
  }

  lemma PathBlockStored(v: View, t: Records, tip: Digest, n: nat)
    requires Partitioned(v) && t.blocks == v.blocks && t.sideBlocks == v.sideBlocks && tip in v.tree
    requires n < |v.tree[tip]|
    ensures StoredBlock(t, v.c.BlockHash(v.tree[tip][n])) == Ok(v.tree[tip][n])
  {
    hide Partitioned, Suite.BlockHash;
    Lookup(v, tip, n + 1);
  }

  lemma {:induction false} TxnImageIn(c: Suite, b: Block, n: nat)
    requires 2 <= n <= |b.txns|
    ensures c.ImageHash(b.txns[1]) in ImageKeys(c, b, n)
  {
    if n > 2 {
      TxnImageIn(c, b, n - 1);
    }
  }

  lemma SharedImage(c: Suite, b: Block, d: Block)
    requires b.txns == d.txns && |b.txns| > 1
    ensures c.ImageHash(b.txns[1]) in ImageEntries(c)(b) && c.ImageHash(b.txns[1]) in ImageEntries(c)(d)
  {
    TxnImageIn(c, b, |b.txns|);
    TxnImageIn(c, d, |d.txns|);
    EntryKeys(c, b);
    EntryKeys(c, d);
  }

  lemma RepeatedImage(c: Suite, path: seq<Block>, b: Block, i: nat, k: Digest)
    requires i < |path| && k in ImageEntries(c)(path[i]) && k in ImageEntries(c)(b)
    ensures !Disjoint(ImageEntries(c), path + [b])
  {
    hide ImageEntries;
    var E := ImageEntries(c);
    assert (path + [b])[i] == path[i] && (path + [b])[|path|] == b;
    assert !(E((path + [b])[i]).Keys !! E((path + [b])[|path|]).Keys);
  }

  // --- Storing a block aside changes no check ---

  /** The same tables but for the side blocks. */
  ghost predicate SameButSide(t: Records, u: Records) {
    u == t.(sideBlocks := u.sideBlocks)
  }

  lemma LoadsStay(v: View, t: Records, u: Records, k: Digest)
    requires Partitioned(v) && v.tip in v.tree && TablesOf(v, t) && SameButSide(t, u)
    ensures LoadedOutput(v.c, u, k) == LoadedOutput(v.c, t, k)
  {
    hide Partitioned, Rebuilt, Suite.BlockHash, FirstIn, RecordedLast;
    if k in t.index {
      var i := IndexNames(v.c, v.tree[v.tip], k);
      RecordedInRange(v.c, v.tree[v.tip], k, i);
      MainBlockLoads(v, t, i);
    }
  }

  lemma RecordedInRange(c: Suite, path: seq<Block>, k: Digest, i: nat)
    requires RecordedLast(c, path, k, i)
    ensures i < |path|
  {
  }

  lemma AcceptableStays(v: View, t: Records, u: Records, env: Env, txn: Txn, mainTxns: set<Digest>,
                        mainPimgs: set<Digest>)
    requires Partitioned(v) && v.tip in v.tree && TablesOf(v, t) && SameButSide(t, u) && ValidTxn(v.c, txn)
    requires AcceptableTxn(v.c, t, env, txn, mainTxns, mainPimgs)
    ensures AcceptableTxn(v.c, u, env, txn, mainTxns, mainPimgs)
  {
    hide Partitioned, TablesOf, LoadedOutput, Accepts, Verifies, Suite.ImageHash;
    forall i | 0 <= i < |txn.body.inputs|
      ensures FoundOutput(v.c, u, env, txn.body.inputs[i]) == FoundOutput(v.c, t, env, txn.body.inputs[i])
    {
      LoadsStay(v, t, u, txn.body.inputs[i]);
    }
    assert RingOutputs(v.c, u, env, txn.body.inputs) == RingOutputs(v.c, t, env, txn.body.inputs);
  }

  lemma {:induction false} ForkStays(c: Suite, t: Records, u: Records, path: seq<Digest>, n: nat)
    requires PathStored(t, path) && n <= |path|
    requires forall i :: 0 <= i < |path| ==> StoredBlock(u, path[i]) == StoredBlock(t, path[i])
    ensures PathStored(u, path)
    ensures ForkOutputs(c, u, path, n) == ForkOutputs(c, t, path, n)
    ensures ForkImages(c, u, path, n) == ForkImages(c, t, path, n)
  {
    if n > 0 {
      ForkStays(c, t, u, path, n - 1);
    }
  }

  /** What is collected along the main chain above a height does not depend on the side blocks. */
  lemma MainForkStays(v: View, t: Records, u: Records, f: nat, hashes: seq<Digest>)
    requires Partitioned(v) && v.tip in v.tree && t.blocks == v.blocks && SameButSide(t, u)
    requires f <= |v.tree[v.tip]| && HashesOf(v.c, hashes, Reverse(v.tree[v.tip][f..])) && PathStored(t, hashes)
    ensures PathStored(u, hashes)
    ensures ForkOutputs(v.c, u, hashes, |hashes|) == ForkOutputs(v.c, t, hashes, |hashes|)
    ensures ForkImages(v.c, u, hashes, |hashes|) == ForkImages(v.c, t, hashes, |hashes|)
  {
    hide Partitioned, Suite.BlockHash, ForkOutputs, ForkImages;
    var main := v.tree[v.tip];
    forall i | 0 <= i < |hashes| ensures StoredBlock(u, hashes[i]) == StoredBlock(t, hashes[i]) {
      assert Reverse(main[f..])[i] == main[|main| - 1 - i];
      MainBlockLoads(v, t, |main| - 1 - i);
    }
    ForkStays(v.c, t, u, hashes, |hashes|);
  }

  lemma {:induction false} SameDue(b: Block, d: Block, n: nat)
    requires b.txns == d.txns && b.header.seqNum == d.header.seqNum && n <= |b.txns|
    ensures CoinbaseDue(d, n) == CoinbaseDue(b, n)
  {
    hide CoinbaseValue;
    if n > 1 {
      SameDue(b, d, n - 1);
    }
  }

  /** So the transactions of a block accepted for the side are accepted again after it has been stored there. */
  lemma RepeatAccepted(v: View, t: Records, u: Records, env: Env, b: Block, d: Block, mainTxns: set<Digest>,
                       mainPimgs: set<Digest>)
    requires Partitioned(v) && v.tip in v.tree && TablesOf(v, t) && SameButSide(t, u)
    requires Prevalid(v.c, env, b) && Prevalid(v.c, env, d) && AcceptableTxns(v.c, t, env, b, mainTxns, mainPimgs)
    requires d.txns == b.txns && d.header.seqNum == b.header.seqNum
    ensures AcceptableTxns(v.c, u, env, d, mainTxns, mainPimgs)
  {
    hide Partitioned, TablesOf, AcceptableTxn, CoinbaseDue, VerifyCoinbaseTxn;
    forall i | 1 <= i < |b.txns| ensures AcceptableTxn(v.c, u, env, d.txns[i], mainTxns, mainPimgs) {
      AcceptableStays(v, t, u, env, b.txns[i], mainTxns, mainPimgs);
    }
    SameDue(b, d, |b.txns|);
  }

  // --- Reorganising the two tables ---

  /** The spent images are order-free: a reorganisation rebuilds them if and only if none of the rest is lost. */
  lemma SwapImagesExact(c: Suite, prefix: seq<Block>, out: seq<Block>, into: seq<Block>)
    ensures SwappedTable(ImageEntries(c), prefix, out, into) == Rebuilt(ImageEntries(c), prefix + into)
       <==> Replaces(ImageEntries(c), prefix, out, into)
  {
    hide Rebuilt, SwappedTable, Replaces, PutAll, Contributes;
    var E := ImageEntries(c);
    var down, up := PutAll(E, map[], Reverse(into)), PutAll(E, map[], into);
    forall k: Digest
      ensures k in down <==> k in up
      ensures k in down ==> down[k] == up[k]
    {
      SelvesEitherWay(c, into, k);
    }
    SwapExact(E, prefix, out, into);
  }

  lemma SelvesEitherWay(c: Suite, into: seq<Block>, k: Digest)
    ensures
      var down, up := PutAll(ImageEntries(c), map[], Reverse(into)), PutAll(ImageEntries(c), map[], into);
      (k in down <==> k in up) && (k in down ==> down[k] == up[k])
  {
    PutAllAt(ImageEntries(c), map[], Reverse(into), k);
    PutAllAt(ImageEntries(c), map[], into, k);
    ContributesReverse(ImageEntries(c), into, k);
    RebuiltSelves(c, Reverse(into), k);
    RebuiltSelves(c, into, k);
  }

  ghost predicate HashesApart(c: Suite, blocks: seq<Block>) {
    forall i, j :: 0 <= i < j < |blocks| ==> c.BlockHash(blocks[i]) != c.BlockHash(blocks[j])
  }

  /**
   A reorganisation rebuilds the map to blocks if and only if nothing of the rest is lost
   and no two blocks of the incoming tail record one key.
   */
  lemma SwapIndexExact(c: Suite, prefix: seq<Block>, out: seq<Block>, into: seq<Block>)
    requires HashesApart(c, into)
    ensures SwappedTable(IndexEntries(c), prefix, out, into) == Rebuilt(IndexEntries(c), prefix + into)
       <==> Replaces(IndexEntries(c), prefix, out, into) && Disjoint(IndexEntries(c), into)
  {
    hide Rebuilt, SwappedTable, Replaces, PutAll, Disjoint, EitherWay;
    SwapExact(IndexEntries(c), prefix, out, into);
    IndexEitherWay(c, into);
  }

  lemma IndexEitherWay(c: Suite, into: seq<Block>)
    requires HashesApart(c, into)
    ensures EitherWay(IndexEntries(c), into) <==> Disjoint(IndexEntries(c), into)
  {
    hide PutAll, IndexEntries, Suite.BlockHash;
    var E := IndexEntries(c);
    if Disjoint(E, into) {
      PutAllReverse(E, map[], into);
    } else {
      var i, j :| 0 <= i < j < |into| && !(E(into[i]).Keys !! E(into[j]).Keys);
      var k :| k in E(into[i]).Keys && k in E(into[j]).Keys;
      FirstAndLastDiffer(c, into, i, j, k);
    }
  }

  lemma FirstAndLastDiffer(c: Suite, into: seq<Block>, i: nat, j: nat, k: Digest)
    requires HashesApart(c, into) && i < j < |into| && k in IndexEntries(c)(into[i]) && k in IndexEntries(c)(into[j])
    ensures !EitherWay(IndexEntries(c), into)
  {
    hide IndexEntries, PutAll, Suite.BlockHash;
    var E, back, n := IndexEntries(c), Reverse(into), |into|;
    assert back[n - 1 - i] == into[i];
    PutAllAt(E, map[], into, k);
    PutAllAt(E, map[], back, k);
    var last := IndexNames(c, into, k);
    var first := IndexNames(c, back, k);
    assert back[first] == into[n - 1 - first];
    assert j <= last && n - 1 - i <= first;
    assert c.BlockHash(into[n - 1 - first]) != c.BlockHash(into[last]);
  }

  /** Both tables that depend on transactions are rebuilt exactly when one tail replaces another. */
  lemma SwapRecords(c: Suite, prefix: seq<Block>, out: seq<Block>, into: seq<Block>, t: Records)
    requires Disjoint(IndexEntries(c), prefix + out) && Disjoint(IndexEntries(c), prefix + into)
    requires t.index == Rebuilt(IndexEntries(c), prefix + out) && t.images == Rebuilt(ImageEntries(c), prefix + out)
    ensures PutAll(IndexEntries(c), RemoveAll(IndexEntries(c), t.index, Reverse(out)), Reverse(into))
         == Rebuilt(IndexEntries(c), prefix + into)
    ensures PutAll(ImageEntries(c), RemoveAll(ImageEntries(c), t.images, Reverse(out)), Reverse(into))
         == Rebuilt(ImageEntries(c), prefix + into)
  {
    hide Rebuilt, Disjoint;
    ImagesDisjoint(c, prefix + out);
    ImagesDisjoint(c, prefix + into);
    SwapTail(IndexEntries(c), prefix, out, into);
    SwapTail(ImageEntries(c), prefix, out, into);
  }
}
