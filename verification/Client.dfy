/**
 The client as a state machine over its tables: validating blocks, extending the
 main chain, storing side blocks, choosing between forks and reorganising.
 */
module Client {
  import opened Arithmetic
  import opened Bytes
  import opened Curve
  import opened Primitives
  import opened ProofOfWork
  import opened RangeProofs
  import opened RingSignature
  import opened Transactions
  import opened Subsidy
  import opened Difficulty
  import opened Tables
  import opened BlockTree
  import opened Forks
  import opened Validation

  // --- Entries written one at a time ---

  lemma TagOne(t: map<Digest, Digest>, keys: set<Digest>, k: Digest, x: Digest)
    ensures (t + Tagged(keys, x))[k := x] == t + Tagged(keys + {k}, x)
  {
  }

  lemma SelfOne(t: map<Digest, Digest>, keys: set<Digest>, k: Digest)
    ensures (t + Selves(keys))[k := k] == t + Selves(keys + {k})
  {
  }

  lemma RemoveOne<V>(t: map<Digest, V>, keys: set<Digest>, k: Digest)
    ensures t - keys - {k} == t - (keys + {k})
  {
  }

  lemma AddLast<V>(entries: Block -> map<Digest, V>, t: map<Digest, V>, blocks: seq<Block>, n: nat)
    requires n < |blocks|
    ensures PutAll(entries, t, blocks[..n + 1]) == PutAll(entries, t, blocks[..n]) + entries(blocks[n])
    ensures RemoveAll(entries, t, blocks[..n + 1]) == RemoveAll(entries, t, blocks[..n]) - entries(blocks[n]).Keys
  {
    assert blocks[..n + 1][..n] == blocks[..n];
  }

  /** The difficulty of a path from the top down to height n, as a 64-bit word. */
  function Walked(path: seq<Block>, n: nat): nat
    requires n <= |path|
  {
    (Weight(path) - WeightTo(path, n)) % UINT64
  }

  lemma WalkedEnds(path: seq<Block>)
    ensures Walked(path, |path|) == 0 && Walked(path, 0) == Weight(path) % UINT64
  {
  }

  lemma WalkedStep(path: seq<Block>, n: nat)
    ensures 0 < n <= |path| ==> Walked(path, n - 1) == (Walked(path, n) + path[n - 1].header.difficulty) % UINT64
  {
    if 0 < n <= |path| {
      var rest, d := Weight(path) - WeightTo(path, n), path[n - 1].header.difficulty;
      assert Weight(path) - WeightTo(path, n - 1) == rest + d;
      WordStep(rest, d);
    }
  }

  lemma WordStep(sum: int, d: nat)
    ensures (sum % UINT64 + d) % UINT64 == (sum + d) % UINT64
  {
  }

  lemma DeleteStep<V>(entries: Block -> map<Digest, V>, t: map<Digest, V>, batch: seq<Op<V>>, start: map<Digest, V>,
                      blocks: seq<Block>, n: nat, k: Digest)
    requires n < |blocks| && entries(blocks[n]).Keys == {k}
    requires Write(t, batch) == RemoveAll(entries, start, blocks[..n])
    ensures Write(t, batch + [Delete(k)]) == RemoveAll(entries, start, blocks[..n + 1])
  {
    WriteOne(t, batch, Delete(k));
    AddLast(entries, start, blocks, n);
  }

  lemma PutStep<V>(entries: Block -> map<Digest, V>, t: map<Digest, V>, batch: seq<Op<V>>, start: map<Digest, V>,
                   blocks: seq<Block>, n: nat, k: Digest, x: V)
    requires n < |blocks| && entries(blocks[n]) == map[k := x]
    requires Write(t, batch) == PutAll(entries, start, blocks[..n])
    ensures Write(t, batch + [Put(k, x)]) == PutAll(entries, start, blocks[..n + 1])
  {
    WriteOne(t, batch, Put(k, x));
    AddLast(entries, start, blocks, n);
    OneEntry(PutAll(entries, start, blocks[..n]), k, x);
  }

  lemma NothingYet<V>(entries: Block -> map<Digest, V>, t: map<Digest, V>, blocks: seq<Block>)
    ensures RemoveAll(entries, t, blocks[..0]) == t == PutAll(entries, t, blocks[..0])
    ensures Write(t, []) == t
  {
  }

  /** The hashes of a path's blocks above height f, from the top down. */
  function HashesAbove(c: Suite, path: seq<Block>, f: nat): (hashes: seq<Digest>)
    requires f <= |path|
    ensures HashesOf(c, hashes, Reverse(path[f..]))
  {
    seq(|path| - f, i requires 0 <= i < |path| - f => c.BlockHash(path[|path| - 1 - i]))
  }

  ghost predicate HeadersIn(c: Suite, blocks: seq<Block>, t: map<Digest, Header>) {
    forall i :: 0 <= i < |blocks| ==> c.BlockHash(blocks[i]) in t && t[c.BlockHash(blocks[i])] == blocks[i].header
  }

  ghost predicate BlocksIn(c: Suite, blocks: seq<Block>, t: map<Digest, Block>) {
    forall i :: 0 <= i < |blocks| ==> c.BlockHash(blocks[i]) in t && t[c.BlockHash(blocks[i])] == blocks[i]
  }

  /** The headers of a path. */
  function HeadersOf(path: seq<Block>): (hs: seq<Header>)
    ensures |hs| == |path| && forall i :: 0 <= i < |path| ==> hs[i] == path[i].header
  {
    seq(|path|, i requires 0 <= i < |path| => path[i].header)
  }

  const EMPTY_HEADER := Header(0, ZERO_DIGEST, ZERO_DIGEST, 0, 0, 0)

  /** What is to become of a hash that is announced to the client. */
  datatype Fate = Failing | Refused | Tipped(b: Block) | Sided(b: Block) | Waiting(b: Block)

  /** Where a decoded value is to be stored; the JSON library refuses to decode into nil. */
  datatype Target = Nil | Allocated

  method Unmarshal<V>(stored: V, target: Target) returns (r: Result<V>)
    ensures r == if target.Nil? then Err else Ok(stored)
  {
    if target.Nil? {
      return Err;
    }
    r := Ok(stored);
  }

  /** Two hours, in the seconds that times are counted in. */
  const TWO_HOURS: int := 7200

  /** A header not over two hours old, with number 0 only for a block without a parent. */
  predicate Timely(header: Header, env: Env) {
    header.time + TWO_HOURS >= env.now && (header.seqNum == 0 ==> header.prevHash == ZERO_DIGEST)
  }

  /** The block that extends prev by the pooled transactions, with a given difficulty and nonce. */
  function Drafted(c: Suite, prev: Header, to: PublicKey, pool: seq<Txn>, r: nat, time: int, difficulty: nat,
                   nonce: nat): Block
  {
    var seqNum := (prev.seqNum + 1) % UINT64;
    var txns := [NewCoinbaseTxn(c, to, seqNum, WrappedFees(pool, |pool|), r)] + pool;
    Block(Header(seqNum, c.HeaderHash(prev), c.merkle(txns), time, difficulty, nonce), txns)
  }

  /** The target the times of a block and its ancestor suggest. */
  function Suggestion(env: Env, path: seq<Block>, b: Block): nat {
    if |path| >= DIFFICULTY_SPACING then
      env.suggested(b.header.time, path[|path| - DIFFICULTY_SPACING].header)
    else 0
  }

  /**
   The tables that depend on what transactions the main chain holds are those rebuilt
   from scratch over it: before the first reorganisation in any case, and from then on
   as long as no stored path repeats a key of the table. Before the first reorganisation
   no image is spent in two blocks.
   */
  ghost predicate Recorded(c: Suite, tree: Tree, tip: Digest, reorganised: bool, index: map<Digest, Digest>,
                           images: map<Digest, Digest>) {
    && tip in tree
    && ((reorganised ==> NoRepeats(c, tree)) ==> index == Rebuilt(IndexEntries(c), tree[tip]))
    && ((reorganised ==> NoImageTwice(c, tree)) ==> images == Rebuilt(ImageEntries(c), tree[tip]))
    && (!reorganised ==> Disjoint(ImageEntries(c), tree[tip]))
  }

  lemma RebuiltExtends<V>(entries: Block -> map<Digest, V>, path: seq<Block>, b: Block)
    ensures Rebuilt(entries, path + [b]) == Rebuilt(entries, path) + entries(b)
  {
    assert (path + [b])[..|path|] == path;
  }

  /** The last block of a path has the difficulty its place there demands. */
  ghost predicate DueAt(path: seq<Block>, suggestion: nat) {
    path != [] && Last(path).header.difficulty == Expected(HeadersOf(path), |path| - 1, suggestion)
  }

  /** Every stored block above the genesis block, but for the unchecked ones, has the difficulty asked of it. */
  ghost predicate Retargeted(tree: Tree, unchecked: set<Digest>, suggested: map<Digest, nat>) {
    forall k :: k in tree && |tree[k]| > 1 && k !in unchecked ==> k in suggested && DueAt(tree[k], suggested[k])
  }

  lemma RetargetedGrows(c: Suite, tree: Tree, unchecked: set<Digest>, suggested: map<Digest, nat>, b: Block, s: nat)
    requires Retargeted(tree, unchecked, suggested) && CanGrow(c, tree, b)
    ensures Retargeted(Grown(c, tree, b), unchecked + {c.BlockHash(b)}, suggested)
    ensures DueAt(tree[b.header.prevHash] + [b], s) ==>
      Retargeted(Grown(c, tree, b), unchecked, suggested[c.BlockHash(b) := s])
  {
    hide Suite.BlockHash, DueAt;
  }

  /**
   A client that makes the two checks the code leaves out never spends an image twice
   on a stored path; and until the first reorganisation nothing is stored unchecked.
   */
  ghost predicate Watched(c: Suite, tree: Tree, guarded: bool, reorganised: bool, unchecked: set<Digest>) {
    (guarded ==> NoImageTwice(c, tree)) && (guarded || !reorganised ==> unchecked == {})
  }

  /** Every block of a path above the genesis block had the difficulty due when it was stored. */
  ghost predicate Checked(c: Suite, path: seq<Block>, unchecked: set<Digest>) {
    forall i :: 1 <= i < |path| ==> c.BlockHash(path[i]) !in unchecked
  }

  function SuggestionFor(suggested: map<Digest, nat>, k: Digest): nat {
    if k in suggested then suggested[k] else 0
  }

  function SuggestionsOf(c: Suite, path: seq<Block>, suggested: map<Digest, nat>): (ss: seq<nat>)
    ensures |ss| == |path|
    ensures forall i :: 0 <= i < |path| ==> ss[i] == SuggestionFor(suggested, c.BlockHash(path[i]))
  {
    seq(|path|, i requires 0 <= i < |path| => SuggestionFor(suggested, c.BlockHash(path[i])))
  }

  lemma PathFits(v: View, unchecked: set<Digest>, suggested: map<Digest, nat>, h: nat)
    requires Partitioned(v) && v.tip in v.tree && Retargeted(v.tree, unchecked, suggested)
    requires 1 <= h < |v.tree[v.tip]|
    requires Checked(v.c, v.tree[v.tip], unchecked)
    ensures FitsAt(HeadersOf(v.tree[v.tip]), SuggestionsOf(v.c, v.tree[v.tip], suggested), h)
  {
    hide Partitioned, Suite.BlockHash, Expected;
    var main, k := v.tree[v.tip], v.c.BlockHash(v.tree[v.tip][h]);
    Lookup(v, v.tip, h + 1);
    assert HeadersOf(main[..h + 1]) == HeadersOf(main)[..h + 1];
    ExpectedOfPrefix(HeadersOf(main), h, SuggestionFor(suggested, k));
  }

  lemma PathDrift(v: View, unchecked: set<Digest>, suggested: map<Digest, nat>, h: nat)
    requires Partitioned(v) && v.tip in v.tree && Retargeted(v.tree, unchecked, suggested) && h < |v.tree[v.tip]|
    requires Checked(v.c, v.tree[v.tip], unchecked)
    ensures
      var d := v.tree[v.tip][h].header.difficulty;
      && (v.genesis.header.difficulty == INITIAL_DIFFICULTY ==>
            -(h / DIFFICULTY_SPACING) <= d - INITIAL_DIFFICULTY <= h / DIFFICULTY_SPACING)
      && (NumberedByDepth(HeadersOf(v.tree[v.tip])) && h >= 1 ==>
            && -((h - 1) / DIFFICULTY_SPACING) <= d - INITIAL_DIFFICULTY <= (h - 1) / DIFFICULTY_SPACING
            && (h <= 483840 ==> d <= 255))
  {
    hide Partitioned, Retargeted, Checked, FitsAt, NumberedByDepth, Suite.BlockHash;
    var main := v.tree[v.tip];
    var chain, ss := HeadersOf(main), SuggestionsOf(v.c, main, suggested);
    PathEnds(v, v.tip);
    forall i | 1 <= i < |chain| ensures FitsAt(chain, ss, i) {
      PathFits(v, unchecked, suggested, i);
    }
    forall i | 0 <= i < |chain| ensures chain[i].difficulty < NO_ANCESTOR {
      Lookup(v, v.tip, i + 1);
    }
    if v.genesis.header.difficulty == INITIAL_DIFFICULTY {
      DriftWhateverNumbers(chain, ss, h);
    }
    if NumberedByDepth(chain) && h >= 1 {
      DifficultyDrift(chain, ss, h);
    }
  }

  /** Everything stored stays stored, by the same path. */
  ghost predicate Keeps(before: Tree, after: Tree) {
    forall k :: k in before ==> k in after && after[k] == before[k]
  }

  /** Whatever has been stored since is on paths no longer than the one to the given block. */
  ghost predicate NewUpTo(before: Tree, after: Tree, hash: Digest) {
    hash in after && forall k :: k in after && k !in before ==> |after[k]| <= |after[hash]|
  }

  lemma GrownKeeps(c: Suite, before: Tree, tree: Tree, b: Block)
    requires Keeps(before, tree) && CanGrow(c, tree, b)
    requires before == tree || NewUpTo(before, tree, b.header.prevHash)
    ensures Keeps(before, Grown(c, tree, b)) && NewUpTo(before, Grown(c, tree, b), c.BlockHash(b))
  {
    hide Suite.BlockHash;
  }

  lemma StillThere(before: Tree, after: Tree)
    requires Keeps(before, after)
    ensures forall k :: k in before ==> k in after
  {
  }

  lemma KeepsItself(tree: Tree)
    ensures Keeps(tree, tree)
  {
  }

  ghost predicate EndsIn(tree: Tree, tip: Digest, header: Header) {
    tip in tree && tree[tip] != [] && Last(tree[tip]).header == header
  }

  class Client {
    const c: Suite
    /** Whether two checks are made that the code leaves out: see SideGuard and ExtendSideChain. */
    const guarded: bool
    ghost const genesis: Block
    ghost const headerOf: Digest -> Header

    var lastHeader: Header
    var headers: map<Digest, Header>
    var sideHeaders: map<Digest, Header>
    var orphanHeaders: map<Digest, Header>
    var blocks: map<Digest, Block>
    var sideBlocks: map<Digest, Block>
    var orphanBlocks: map<Digest, Block>
    var index: map<Digest, Digest>
    var images: map<Digest, Digest>

    ghost var tree: Tree
    ghost var reorganised: bool
    ghost var suggested: map<Digest, nat>
    ghost var unchecked: set<Digest>

    function Tip(): Digest
      reads this
    {
      c.HeaderHash(lastHeader)
    }

    ghost function Now(): View
      reads this
    {
      View(c, genesis, tree, Tip(), headers, sideHeaders, blocks, sideBlocks)
    }

    function Kept(): Records
      reads this
    {
      Records(index, images, blocks, sideBlocks, orphanBlocks)
    }

    /** A block with the given hash: no other header has it, and there is one genesis. */
    ghost predicate Genuine(b: Block, hash: Digest) {
      && c.BlockHash(b) == hash && b.header == headerOf(hash) && hash != ZERO_DIGEST
      && (b.header.prevHash == ZERO_DIGEST ==> hash == c.BlockHash(genesis))
    }

    /** Stored blocks are genuine, and above the genesis block formed and, but for the unchecked ones, backed. */
    ghost predicate GenuineTree(tree: Tree, unchecked: set<Digest>) {
      forall k :: k in tree && tree[k] != [] ==>
        && Last(tree[k]).header == headerOf(k)
        && (|tree[k]| > 1 ==> Formed(c, Last(tree[k])) && (k !in unchecked ==> BlockBacked(c, Last(tree[k]))))
    }

    ghost predicate GenuineBlocks(bs: map<Digest, Block>) {
      forall k :: k in bs ==> Genuine(bs[k], k)
    }

    /** Of the blocks that peers answer with, those with the hash asked for are genuine. */
    ghost predicate Answers(env: Env) {
      forall k :: env.fetchBlock(k).Ok? && c.BlockHash(env.fetchBlock(k).value) == k ==>
        Genuine(env.fetchBlock(k).value, k)
    }

    ghost predicate Valid()
      reads this
    {
      && Partitioned(Now())
      && EndsIn(tree, Tip(), lastHeader)
      && Childless(tree, Tip())
      && GenuineTree(tree, unchecked) && GenuineBlocks(orphanBlocks)
      && Recorded(c, tree, Tip(), reorganised, index, images)
      && (ShortPaths(tree) ==> Heaviest(tree, Tip()))
      && Retargeted(tree, unchecked, suggested)
      && Watched(c, tree, guarded, reorganised, unchecked)
    }

    ghost function Main(): seq<Block>
      requires Tip() in tree
      reads this
    {
      tree[Tip()]
    }

    /** A client that has stored the genesis block. */
    constructor (c: Suite, guarded: bool, genesis: Block, ghost headerOf: Digest -> Header)
      requires c.BlockHash(genesis) != ZERO_DIGEST && genesis.header == headerOf(c.BlockHash(genesis))
      requires genesis.header.prevHash == ZERO_DIGEST && Worked(c, genesis.header)
      ensures Valid() && Main() == [genesis] && !reorganised && this.c == c && this.genesis == genesis
      ensures this.guarded == guarded && unchecked == {}
      ensures tree == map[c.BlockHash(genesis) := [genesis]]
    {
      var h := c.BlockHash(genesis);
      this.c, this.guarded, this.genesis, this.headerOf := c, guarded, genesis, headerOf;
      lastHeader := genesis.header;
      headers, sideHeaders, orphanHeaders := map[h := genesis.header], map[], map[];
      blocks, sideBlocks, orphanBlocks := map[h := genesis], map[], map[];
      index, images := IndexEntries(c)(genesis), ImageEntries(c)(genesis);
      tree, reorganised, suggested, unchecked := map[h := [genesis]], false, map[], {};
      new;
      hide Partitioned, EndsIn, Childless, GenuineTree, GenuineBlocks, Recorded, ShortPaths, Heaviest, Retargeted,
           Watched, Worked, IndexEntries, ImageEntries, Suite.HeaderHash;
      FirstValid();
    }

    lemma FirstValid()
      requires tree == map[c.BlockHash(genesis) := [genesis]] && lastHeader == genesis.header
      requires headers == map[c.BlockHash(genesis) := genesis.header] && sideHeaders == map[]
      requires blocks == map[c.BlockHash(genesis) := genesis] && sideBlocks == map[] && orphanBlocks == map[]
      requires c.BlockHash(genesis) != ZERO_DIGEST && genesis.header.prevHash == ZERO_DIGEST
      requires Worked(c, genesis.header) && genesis.header == headerOf(c.BlockHash(genesis))
      requires index == IndexEntries(c)(genesis) && images == ImageEntries(c)(genesis)
      requires !reorganised && unchecked == {}
      ensures Valid()
    {
      hide IndexKeys, ImageKeys, Suite.HeaderHash, Rebuilt, Worked, Weight;
      var h := c.BlockHash(genesis);
      OneBlock(HeaderEntries(c), genesis);
      OneBlock(BlockEntries(c), genesis);
      OneBlock(IndexEntries(c), genesis);
      OneBlock(ImageEntries(c), genesis);
      assert PathTo(c, genesis, tree, h);
      assert AllHeaders(tree) - headers.Keys == map[];
      assert AllBlocks(tree) - blocks.Keys == map[];
    }

    static lemma OneBlock<V>(entries: Block -> map<Digest, V>, b: Block)
      ensures Rebuilt(entries, [b]) == entries(b)
    {
      assert PutAll(entries, map[], [b]) == PutAll(entries, map[], []) + entries(b) by {
        assert [b][..0] == [];
      }
    }

    // --- Difficulty totals ---

    method MainChainTotalDifficulty() returns (total: nat)
      requires Valid()
      ensures total == Weight(Main()) % UINT64
    {
      hide Partitioned, Childless, GenuineTree, GenuineBlocks, Recorded, Retargeted, Watched, ShortPaths, Heaviest,
           OnPath, Suite.HeaderHash, Weight, Walked;
      ghost var v, main := Now(), Main();
      ghost var n: nat := |main|;
      var prevHash := Tip();
      total := 0;
      PathEnds(v, v.tip);
      WalkedEnds(main);
      while prevHash in headers
        invariant n <= |main| && prevHash == HashAt(c, main, n) && total == Walked(main, n)
        decreases n
      {
        Lookup(v, v.tip, n);
        WalkedStep(main, n);
        var header := headers[prevHash];
        total := (total + header.difficulty) % UINT64;
        prevHash := header.prevHash;
        n := n - 1;
      }
      Lookup(v, v.tip, n);
    }

    /** The total down a side chain; as written the walk ends after one side header. */
    method SideChainTotalDifficulty(hash: Digest, asWritten: bool) returns (total: nat)
      requires Valid()
      ensures hash !in tree ==> total == 0
      ensures hash in tree && (!asWritten || hash in headers) ==> total == Weight(tree[hash]) % UINT64
      ensures hash in tree && asWritten && hash !in headers ==>
        tree[hash] != [] && total == Last(tree[hash]).header.difficulty % UINT64
    {
      hide Partitioned, Childless, GenuineTree, GenuineBlocks, Recorded, Retargeted, Watched, ShortPaths, Heaviest,
           OnPath, Suite.HeaderHash, Weight, Walked;
      ghost var v, path := Now(), if hash in tree then tree[hash] else [];
      ghost var n: nat := |path|;
      var prevHash := hash;
      total := 0;
      Holds(v, hash);
      WalkedEnds(path);
      if hash in tree {
        PathEnds(v, hash);
      }
      while true
        invariant n <= |path| && total == Walked(path, n)
        invariant if hash in tree then prevHash == HashAt(c, path, n) else prevHash == hash
        invariant asWritten && n < |path| ==> hash in headers
        decreases n
      {
        if hash in tree {
          Lookup(v, hash, n);
        }
        if prevHash in headers {
          WalkedStep(path, n);
          var header := headers[prevHash];
          total := (total + header.difficulty) % UINT64;
          prevHash := header.prevHash;
          n := n - 1;
          continue;
        }
        if prevHash !in sideHeaders {
          return;
        }
        if hash in headers {
          BelowMain(v, hash, |path|, n);
        }
        WalkedStep(path, n);
        var header := sideHeaders[prevHash];
        total := (total + header.difficulty) % UINT64;
        if asWritten {
          return;
        }
        prevHash := header.prevHash;
        n := n - 1;
      }
    }

    // --- Retargeting ---

    /** Reads a side header; as written the stored bytes are unmarshalled into nil. */
    method GetSideHeader(hash: Digest, asWritten: bool) returns (r: Result<Header>)
      ensures r == if hash in sideHeaders && !asWritten then Ok(sideHeaders[hash]) else Err
    {
      if hash !in sideHeaders {
        return Err;
      }
      r := Unmarshal(sideHeaders[hash], if asWritten then Nil else Allocated);
    }

    /**
     The n-th ancestor of a block whose parent is given, if that is stored and the path is
     long enough; as written, only if it is on the main chain.
     */
    method NthAncestorHeader(hash: Digest, n: nat, asWritten: bool) returns (r: Result<Header>)
      requires Valid()
      ensures n == 0 ==> r == Ok(EMPTY_HEADER)
      ensures n > 0 ==>
        r == if hash in tree && n <= |tree[hash]| && (asWritten ==> hash in headers)
             then Ok(tree[hash][|tree[hash]| - n].header) else Err
    {
      hide Partitioned, Childless, GenuineTree, GenuineBlocks, Recorded, Retargeted, Watched, ShortPaths, Heaviest,
           OnPath, Suite.HeaderHash;
      ghost var v, path := Now(), if hash in tree then tree[hash] else [];
      var prevHash, prevHeader := hash, EMPTY_HEADER;
      Holds(v, hash);
      if hash in tree {
        PathEnds(v, hash);
      }
      for depth := 0 to n
        invariant depth <= |path| && (hash in tree ==> prevHash == HashAt(c, path, |path| - depth))
        invariant depth == 0 ==> prevHash == hash && prevHeader == EMPTY_HEADER
        invariant depth > 0 ==> hash in tree && prevHeader == path[|path| - depth].header
        invariant depth > 0 && asWritten ==> hash in headers
      {
        if hash in tree {
          Lookup(v, hash, |path| - depth);
        }
        if prevHash in headers {
          prevHeader := headers[prevHash];
        } else {
          if hash in headers && depth < |path| {
            BelowMain(v, hash, |path|, |path| - depth);
          }
          var side := GetSideHeader(prevHash, asWritten);
          if side.Err? {
            return Err;
          }
          prevHeader := side.value;
        }
        prevHash := prevHeader.prevHash;
      }
      r := Ok(prevHeader);
    }

    /** The difficulty the block's place in its chain demands; with an unknown parent, by its number alone. */
    ghost function Due(b: Block, env: Env): nat
      reads this
    {
      if b.header.prevHash in tree then
        var path := tree[b.header.prevHash];
        Expected(HeadersOf(path + [b]), |path|, Suggestion(env, path, b))
      else if b.header.seqNum <= DIFFICULTY_SPACING then INITIAL_DIFFICULTY
      else NO_ANCESTOR
    }

    /**
     A block numbered 2016 or less is due 16. Any other, on a parent with 2015 ancestors or
     more, is due what is nearest to the suggestion of its time and that ancestor's, of all
     that differ by at most one from the difficulty of that ancestor.
     */
    lemma DueIsNearest(b: Block, env: Env)
      requires b.header.prevHash in tree
      ensures b.header.seqNum <= 2016 ==> Due(b, env) == 16
      ensures b.header.seqNum > 2016 && |tree[b.header.prevHash]| >= 2016 ==>
        var path := tree[b.header.prevHash];
        var ancestor := path[|path| - 2016].header;
        var due, wanted := Due(b, env), env.suggested(b.header.time, ancestor);
        && Distance(due, ancestor.difficulty) <= 1
        && forall d: nat :: Distance(d, ancestor.difficulty) <= 1 ==> Distance(due, wanted) <= Distance(d, wanted)
      ensures b.header.seqNum > 2016 && |tree[b.header.prevHash]| < 2016 ==> Due(b, env) == 0x8000_0000_0000_0000
    {
      hide Suite.BlockHash;
    }

    /** The difficulty a block must have is the one its place in its chain demands. */
    method ComputeDifficulty(b: Block, env: Env) returns (d: nat)
      requires Valid()
      ensures d == Due(b, env)
    {
      hide Partitioned, Childless, GenuineTree, GenuineBlocks, Recorded, Retargeted, Watched, ShortPaths, Heaviest,
           OnPath, Suite.HeaderHash;
      if b.header.seqNum <= DIFFICULTY_SPACING {
        return INITIAL_DIFFICULTY;
      }
      var last := NthAncestorHeader(b.header.prevHash, DIFFICULTY_SPACING, false);
      if last.Err? {
        return NO_ANCESTOR;
      }
      Lookup(Now(), b.header.prevHash, |tree[b.header.prevHash]| - DIFFICULTY_SPACING + 1);
      d := Retarget(last.value.difficulty, env.suggested(b.header.time, last.value));
    }

    // --- Validation ---

    method LoadBlock(hash: Digest) returns (r: Result<Block>)
      ensures r == LoadedBlock(Kept(), hash)
    {
      if hash in blocks {
        r := Ok(blocks[hash]);
      } else if hash in sideBlocks {
        r := Ok(sideBlocks[hash]);
      } else if hash in orphanBlocks {
        r := Ok(orphanBlocks[hash]);
      } else {
        r := Err;
      }
    }

    method LoadOutput(hash: Digest) returns (r: Result<Output>)
      ensures r == LoadedOutput(c, Kept(), hash)
    {
      hide Suite.OutputHash;
      if hash !in index {
        return Err;
      }
      var block := LoadBlock(index[hash]);
      if block.Err? {
        return Err;
      }
      var txns := block.value.txns;
      for i := 0 to |txns|
        invariant FirstIn(c, txns, i, hash).Err?
      {
        var outputs := txns[i].body.outputs;
        for l := 0 to |outputs|
          invariant FirstOutput(c, outputs, l, hash).Err?
        {
          if c.OutputHash(outputs[l]) == hash {
            FirstStays(outputs, l + 1, hash);
            FirstInStays(c, txns, i + 1, hash);
            return Ok(outputs[l]);
          }
        }
      }
      r := Err;
    }

    lemma {:induction false} FirstStays(outputs: seq<Output>, n: nat, hash: Digest)
      requires n <= |outputs| && FirstOutput(c, outputs, n, hash).Ok?
      ensures FirstOutput(c, outputs, |outputs|, hash) == FirstOutput(c, outputs, n, hash)
      decreases |outputs| - n
    {
      if n < |outputs| {
        FirstStays(outputs, n + 1, hash);
      }
    }

    static lemma {:induction false} FirstInStays(c: Suite, txns: seq<Txn>, n: nat, hash: Digest)
      requires n <= |txns| && FirstIn(c, txns, n, hash).Ok?
      ensures FirstIn(c, txns, |txns|, hash) == FirstIn(c, txns, n, hash)
      decreases |txns| - n
    {
      if n < |txns| {
        FirstInStays(c, txns, n + 1, hash);
      }
    }

    method FindOutput(hash: Digest, env: Env) returns (r: Result<Output>)
      ensures r == FoundOutput(c, Kept(), env, hash)
    {
      r := LoadOutput(hash);
      if r.Err? {
        r := FetchOutput(hash, env);
      }
    }

    method FetchOutput(hash: Digest, env: Env) returns (r: Result<Output>)
      ensures r == FetchedOutput(c, env, hash)
    {
      r := env.fetchOutput(hash);
      if r.Ok? && c.OutputHash(r.value) != hash {
        r := Err;
      }
    }

    /** The images and outputs of the blocks on a path; an error if one of them is not stored. */
    method ForkTxnsAndPreimages(path: seq<Digest>) returns (r: Result<(set<Digest>, set<Digest>)>)
      ensures r.Ok? <==> PathStored(Kept(), path)
      ensures r.Ok? ==> r.value == (ForkOutputs(c, Kept(), path, |path|), ForkImages(c, Kept(), path, |path|))
    {
      hide Suite.OutputHash, Suite.ImageHash, ForkOutputs, ForkImages, PathStored;
      ForkNone();
      var txns: set<Digest>, pimgs: set<Digest> := {}, {};
      for i := 0 to |path|
        invariant PathStored(Kept(), path[..i])
        invariant txns == ForkOutputs(c, Kept(), path[..i], i) && pimgs == ForkImages(c, Kept(), path[..i], i)
      {
        if path[i] !in blocks && path[i] !in sideBlocks {
          NotStored(path, i);
          return Err;
        }
        var b := if path[i] in blocks then blocks[path[i]] else sideBlocks[path[i]];
        ForkPrefix(path[..i], path[i]);
        assert path[..i] + [path[i]] == path[..i + 1];
        var outs: set<Digest>, imgs: set<Digest> := {}, {};
        for j := 0 to |b.txns|
          invariant outs == TxnOutputs(c, b, j) && imgs == TxnImages(c, b, j)
        {
          imgs := imgs + {c.ImageHash(b.txns[j])};
          var outputs := b.txns[j].body.outputs;
          ghost var before := outs;
          for l := 0 to |outputs|
            invariant outs == before + OutputKeys(c, outputs, l)
          {
            outs := outs + {c.OutputHash(outputs[l])};
          }
        }
        txns, pimgs := txns + outs, pimgs + imgs;
      }
      assert path[..|path|] == path;
      r := Ok((txns, pimgs));
    }

    lemma ForkNone()
      ensures PathStored(Kept(), []) && ForkOutputs(c, Kept(), [], 0) == {} == ForkImages(c, Kept(), [], 0)
    {
    }

    lemma NotStored(path: seq<Digest>, i: nat)
      requires i < |path| && StoredBlock(Kept(), path[i]).Err?
      ensures !PathStored(Kept(), path)
    {
    }

    lemma ForkPrefix(path: seq<Digest>, hash: Digest)
      requires PathStored(Kept(), path) && StoredBlock(Kept(), hash).Ok?
      ensures PathStored(Kept(), path + [hash])
      ensures
        var b, n := StoredBlock(Kept(), hash).value, |path|;
        && ForkOutputs(c, Kept(), path + [hash], n + 1) == ForkOutputs(c, Kept(), path, n) + TxnOutputs(c, b, |b.txns|)
        && ForkImages(c, Kept(), path + [hash], n + 1) == ForkImages(c, Kept(), path, n) + TxnImages(c, b, |b.txns|)
    {
      ForkPrefixAt(path, hash, |path|);
    }

    lemma {:induction false} ForkPrefixAt(path: seq<Digest>, hash: Digest, n: nat)
      requires PathStored(Kept(), path) && PathStored(Kept(), path + [hash]) && n <= |path|
      ensures ForkOutputs(c, Kept(), path + [hash], n) == ForkOutputs(c, Kept(), path, n)
      ensures ForkImages(c, Kept(), path + [hash], n) == ForkImages(c, Kept(), path, n)
    {
      if n > 0 {
        ForkPrefixAt(path, hash, n - 1);
      }
    }

    method VerifyTxn(txn: Txn, mainTxns: set<Digest>, mainPimgs: set<Digest>, env: Env) returns (ok: bool)
      requires ValidTxn(c, txn)
      ensures ok <==> AcceptableTxn(c, Kept(), env, txn, mainTxns, mainPimgs)
    {
      hide Accepts, Verifies, LoadedOutput, Suite.ImageHash;
      var pimg := c.ImageHash(txn);
      var found := pimg in images && images[pimg] == pimg;
      if found || pimg in mainPimgs {
        return false;
      }
      var inputs: seq<Output> := [];
      for i := 0 to |txn.body.inputs|
        invariant forall k :: 0 <= k < i ==> Usable(c, Kept(), env, txn.body.inputs[k], mainTxns)
        invariant |inputs| == i
        invariant forall k :: 0 <= k < i ==> inputs[k] == FoundOutput(c, Kept(), env, txn.body.inputs[k]).value
      {
        var inp := txn.body.inputs[i];
        var output := FindOutput(inp, env);
        if output.Err? || inp !in index || inp in mainTxns {
          assert !Usable(c, Kept(), env, txn.body.inputs[i], mainTxns);
          return false;
        }
        inputs := inputs + [output.value];
      }
      assert inputs == RingOutputs(c, Kept(), env, txn.body.inputs);
      ok := VerifyOZRS(c, txn, DestKeys(inputs), InputCommits(inputs));
      if !ok {
        return false;
      }
      for i := 0 to |txn.body.outputs|
        invariant forall k :: 0 <= k < i ==> Verifies(c, txn.body.outputs[k].commit.proof)
      {
        var verified := Verify(c, txn.body.outputs[i].commit.proof);
        if !verified {
          return false;
        }
      }
      ok := true;
    }

    ghost predicate BlockAcceptable(b: Block, mainPath: seq<Digest>, sidePath: seq<Digest>, env: Env)
      requires Prevalid(c, env, b)
      reads this
    {
      && PathStored(Kept(), mainPath) && PathStored(Kept(), sidePath)
      && AcceptableTxns(c, Kept(), env, b, ForkOutputs(c, Kept(), mainPath, |mainPath|),
                        ForkImages(c, Kept(), mainPath, |mainPath|))
      && (guarded ==> SideGuard(b, sidePath, |b.txns|))
    }

    /** No image of the first n transactions is among those collected along the side path. */
    ghost predicate SideGuard(b: Block, sidePath: seq<Digest>, n: nat)
      requires PathStored(Kept(), sidePath) && n <= |b.txns|
      reads this
    {
      forall i :: 1 <= i < n ==> c.ImageHash(b.txns[i]) !in ForkImages(c, Kept(), sidePath, |sidePath|)
    }

    method VerifyTxns(b: Block, mainPath: seq<Digest>, sidePath: seq<Digest>, env: Env) returns (ok: bool)
      requires Prevalid(c, env, b)
      ensures ok <==> BlockAcceptable(b, mainPath, sidePath, env)
    {
      hide AcceptableTxn, ForkOutputs, ForkImages, PathStored, VerifyCoinbaseTxn, CoinbaseValue, Suite.ImageHash;
      var main := ForkTxnsAndPreimages(mainPath);
      if main.Err? {
        return false;
      }
      var side := ForkTxnsAndPreimages(sidePath);
      if side.Err? {
        return false;
      }
      var coinbase := CoinbaseValue(b.header.seqNum);
      for i := 0 to |b.txns|
        invariant coinbase == CoinbaseDue(b, i)
        invariant forall k :: 1 <= k < i ==> AcceptableTxn(c, Kept(), env, b.txns[k], main.value.0, main.value.1)
        invariant guarded ==> SideGuard(b, sidePath, i)
      {
        if i != 0 {
          if guarded && c.ImageHash(b.txns[i]) in side.value.1 {
            return false;
          }
          ok := VerifyTxn(b.txns[i], main.value.0, main.value.1, env);
          if !ok {
            return false;
          }
          coinbase := (coinbase + b.txns[i].body.fee) % UINT64;
        }
      }
      ok := VerifyCoinbaseTxn(b.txns[0], coinbase);
    }

    ghost predicate DifficultyFits(b: Block, env: Env)
      reads this
    {
      b.header.difficulty == Due(b, env)
    }

    method PostValidBlock(b: Block, mainPath: seq<Digest>, sidePath: seq<Digest>, env: Env) returns (ok: bool)
      requires Valid() && Prevalid(c, env, b)
      ensures ok <==> DifficultyFits(b, env) && BlockAcceptable(b, mainPath, sidePath, env)
    {
      hide Valid, Expected, Suggestion, BlockAcceptable;
      var d := ComputeDifficulty(b, env);
      if b.header.difficulty != d {
        return false;
      }
      ok := VerifyTxns(b, mainPath, sidePath, env);
    }

    // --- Building blocks ---

    /** A new block on top of prev: one coinbase that takes the fees, the pooled transactions, the difficulty due. */
    method NewBlock(prev: Header, to: PublicKey, pool: seq<Txn>, r: nat, time: int, env: Env) returns (block: Block)
      requires Valid()
      ensures block == Drafted(c, prev, to, pool, r, time, block.header.difficulty, 0)
      ensures DifficultyFits(block, env)
    {
      hide Valid, NewCoinbaseTxn, Expected, Suggestion, Suite.HeaderHash;
      var seqNum := (prev.seqNum + 1) % UINT64;
      var fees := 0;
      for i := 0 to |pool|
        invariant fees == WrappedFees(pool, i)
      {
        fees := (fees + pool[i].body.fee) % UINT64;
      }
      var coinbaseTxn := NewCoinbaseTxn(c, to, seqNum, fees, r);
      block := Block(Header(seqNum, c.HeaderHash(prev), ZERO_DIGEST, time, INITIAL_DIFFICULTY, 0), [coinbaseTxn]);
      block := block.(txns := block.txns + pool);
      block := block.(header := block.header.(merkleRoot := c.merkle(block.txns)));
      var difficulty := ComputeDifficulty(block, env);
      DueStays(block, block.(header := block.header.(difficulty := difficulty)), env);
      block := block.(header := block.header.(difficulty := difficulty));
    }

    /** What difficulty is due does not depend on a block's difficulty, nonce or transactions. */
    lemma DueStays(b: Block, d: Block, env: Env)
      requires b.header.seqNum == d.header.seqNum && b.header.prevHash == d.header.prevHash
      requires b.header.time == d.header.time
      ensures Due(b, env) == Due(d, env)
    {
      if b.header.prevHash in tree {
        var path := tree[b.header.prevHash];
        var n := |path|;
        assert HeadersOf(path + [b])[n] == b.header && HeadersOf(path + [d])[n] == d.header;
        assert n >= DIFFICULTY_SPACING ==>
          HeadersOf(path + [b])[n - DIFFICULTY_SPACING] == HeadersOf(path + [d])[n - DIFFICULTY_SPACING];
      }
    }

    // --- Writing blocks ---

    method PutMapToBlock(b: Block)
      modifies this`index
      ensures index == old(index) + IndexEntries(c)(b)
    {
      hide Suite.OutputHash, Suite.ImageHash, Suite.BlockHash, Tagged, Write;
      var blockHash := c.BlockHash(b);
      var batch: seq<Op<Digest>> := [];
      TagNone(index, blockHash);
      for i := 0 to |b.txns|
        invariant index == old(index) && Write(index, batch) == index + Tagged(IndexKeys(c, b, i), blockHash)
      {
        ghost var keys := IndexKeys(c, b, i);
        if i != 0 {
          var pimgHash := c.ImageHash(b.txns[i]);
          WriteOne(index, batch, Put(pimgHash, blockHash));
          TagOne(index, keys, pimgHash, blockHash);
          batch := batch + [Put(pimgHash, blockHash)];
          keys := keys + {pimgHash};
        }
        var outputs := b.txns[i].body.outputs;
        assert keys == keys + OutputKeys(c, outputs, 0);
        for l := 0 to |outputs|
          invariant index == old(index)
          invariant Write(index, batch) == index + Tagged(keys + OutputKeys(c, outputs, l), blockHash)
        {
          var hash := c.OutputHash(outputs[l]);
          WriteOne(index, batch, Put(hash, blockHash));
          TagOne(index, keys + OutputKeys(c, outputs, l), hash, blockHash);
          assert keys + OutputKeys(c, outputs, l) + {hash} == keys + OutputKeys(c, outputs, l + 1);
          batch := batch + [Put(hash, blockHash)];
        }
        assert keys + OutputKeys(c, outputs, |outputs|) == IndexKeys(c, b, i + 1);
      }
      index := Write(index, batch);
    }

    static lemma TagNone(t: map<Digest, Digest>, x: Digest)
      ensures t + Tagged({}, x) == t == t + Selves({})
      ensures Write(t, []) == t
    {
    }

    method DeleteMapToBlock(b: Block)
      modifies this`index
      ensures index == old(index) - IndexEntries(c)(b).Keys
    {
      hide Suite.OutputHash, Suite.ImageHash, Suite.BlockHash, Write;
      var batch: seq<Op<Digest>> := [];
      TagNone(index, ZERO_DIGEST);
      assert index - {} == index;
      for i := 0 to |b.txns|
        invariant index == old(index) && Write(index, batch) == index - IndexKeys(c, b, i)
      {
        ghost var keys := IndexKeys(c, b, i);
        if i != 0 {
          var pimgHash := c.ImageHash(b.txns[i]);
          WriteOne(index, batch, Delete(pimgHash));
          RemoveOne(index, keys, pimgHash);
          batch := batch + [Delete(pimgHash)];
          keys := keys + {pimgHash};
        }
        var outputs := b.txns[i].body.outputs;
        assert keys == keys + OutputKeys(c, outputs, 0);
        for l := 0 to |outputs|
          invariant index == old(index) && Write(index, batch) == index - (keys + OutputKeys(c, outputs, l))
        {
          var hash := c.OutputHash(outputs[l]);
          WriteOne(index, batch, Delete(hash));
          RemoveOne(index, keys + OutputKeys(c, outputs, l), hash);
          assert keys + OutputKeys(c, outputs, l) + {hash} == keys + OutputKeys(c, outputs, l + 1);
          batch := batch + [Delete(hash)];
        }
        assert keys + OutputKeys(c, outputs, |outputs|) == IndexKeys(c, b, i + 1);
      }
      index := Write(index, batch);
      EntryKeys(c, b);
    }

    method WriteBlock(b: Block)
      modifies this`blocks, this`images, this`index
      ensures blocks == old(blocks)[c.BlockHash(b) := b]
      ensures images == old(images) + ImageEntries(c)(b) && index == old(index) + IndexEntries(c)(b)
    {
      blocks := blocks[c.BlockHash(b) := b];
      var batch := PutImages(b, [], images);
      images := Write(images, batch);
      PutMapToBlock(b);
    }

    // --- Extending the main chain ---

    /** A new block that may be put on a stored parent. */
    ghost predicate Fits(b: Block, env: Env)
      reads this
    {
      Prevalid(c, env, b) && CanGrow(c, tree, b) && Genuine(b, c.BlockHash(b))
    }

    /** Puts a block on the tip, if its difficulty and transactions are what they must be. */
    method ExtendMainChain(b: Block, env: Env) returns (ok: bool)
      requires Valid() && Fits(b, env) && b.header.prevHash == Tip()
      modifies this
      ensures Valid()
      ensures ok <==> old(DifficultyFits(b, env) && BlockAcceptable(b, [], [], env))
      ensures !ok ==> unchanged(this)
      ensures ok ==> Now() == Extended(old(Now()), b) && lastHeader == b.header
      ensures ok ==> images == old(images) + ImageEntries(c)(b) && index == old(index) + IndexEntries(c)(b)
      ensures unchanged(this`reorganised, this`unchecked, this`orphanHeaders, this`orphanBlocks)
    {
      hide Partitioned, Childless, Heaviest, ShortPaths, GenuineTree, Formed, BlockBacked, GenuineBlocks, Recorded,
           Retargeted, Watched, DifficultyFits, BlockAcceptable, Prevalid, ImageEntries, IndexEntries, Suite.HeaderHash,
           Genuine, CanGrow, Suggestion, HeadersOf;
      ok := PostValidBlock(b, [], [], env);
      if !ok {
        return;
      }
      ghost var v := Now();
      ExtendedPartitioned(v, b);
      GrownChildless(v, b);
      PrevalidIsFormed(b, env);
      AcceptedBacked(b, [], [], env);
      GrownGenuine(b);
      ExtendedRecorded(b, env);
      ExtendedHeaviest(b);
      DueWhenFits(b, env);
      RetargetedGrows(c, tree, unchecked, suggested, b, Suggestion(env, Main(), b));
      Advance(b, Suggestion(env, Main(), b));
    }

    method Advance(b: Block, ghost suggestion: nat)
      requires b.header.prevHash in tree
      modifies this`headers, this`blocks, this`images, this`index, this`lastHeader, this`tree, this`suggested
      ensures Now() == Extended(old(Now()), b) && lastHeader == b.header
      ensures suggested == old(suggested)[c.BlockHash(b) := suggestion]
      ensures images == old(images) + ImageEntries(c)(b) && index == old(index) + IndexEntries(c)(b)
    {
      hide ImageEntries, IndexEntries, Suite.HeaderHash;
      headers := headers[c.BlockHash(b) := b.header];
      WriteBlock(b);
      lastHeader := b.header;
      suggested := suggested[c.BlockHash(b) := suggestion];
      tree := Grown(c, tree, b);
    }

    lemma DueWhenFits(b: Block, env: Env)
      requires b.header.prevHash in tree && DifficultyFits(b, env)
      ensures DueAt(tree[b.header.prevHash] + [b], Suggestion(env, tree[b.header.prevHash], b))
    {
      hide Expected, Suggestion;
    }

    lemma GrownGenuine(b: Block)
      requires CanGrow(c, tree, b) && GenuineTree(tree, unchecked) && Genuine(b, c.BlockHash(b)) && Formed(c, b)
      ensures GenuineTree(Grown(c, tree, b), unchecked + {c.BlockHash(b)})
      ensures BlockBacked(c, b) ==> GenuineTree(Grown(c, tree, b), unchecked)
      ensures EndsIn(Grown(c, tree, b), c.BlockHash(b), b.header)
    {
      hide Formed, BlockBacked, Suite.BlockHash;
    }

    lemma PrevalidIsFormed(b: Block, env: Env)
      requires Prevalid(c, env, b)
      ensures Formed(c, b)
    {
    }

    lemma AcceptedBacked(b: Block, mainPath: seq<Digest>, sidePath: seq<Digest>, env: Env)
      requires Prevalid(c, env, b) && BlockAcceptable(b, mainPath, sidePath, env)
      ensures BlockBacked(c, b)
    {
      hide AcceptableTxns, BlockBacked, ForkOutputs, ForkImages, Prevalid;
      AcceptedIsBacked(c, Kept(), env, b, ForkOutputs(c, Kept(), mainPath, |mainPath|),
                       ForkImages(c, Kept(), mainPath, |mainPath|));
    }

    lemma ExtendedRecorded(b: Block, env: Env)
      requires Recorded(c, tree, Tip(), reorganised, index, images)
      requires Watched(c, tree, guarded, reorganised, unchecked)
      requires Fits(b, env) && b.header.prevHash == Tip() && BlockAcceptable(b, [], [], env)
      ensures Recorded(c, Grown(c, tree, b), c.BlockHash(b), reorganised,
                       index + IndexEntries(c)(b), images + ImageEntries(c)(b))
      ensures Watched(c, Grown(c, tree, b), guarded, reorganised, unchecked)
    {
      hide NoRepeats, NoImageTwice, Disjoint, Suite.HeaderHash, AcceptableTxns, Prevalid, Rebuilt, ImageEntries,
           IndexEntries, SideGuard;
      var path := tree[Tip()];
      RebuiltExtends(IndexEntries(c), path, b);
      RebuiltExtends(ImageEntries(c), path, b);
      if NoRepeats(c, Grown(c, tree, b)) {
        NoRepeatsBefore(c, tree, b);
      }
      if NoImageTwice(c, Grown(c, tree, b)) {
        NoImageTwiceBefore(c, tree, b);
      }
      if guarded {
        TipDisjoint(c, tree, Tip());
      }
      if guarded || !reorganised {
        AcceptedSpendsNew(c, Kept(), env, b, path, ForkOutputs(c, Kept(), [], 0), ForkImages(c, Kept(), [], 0));
      }
      if guarded {
        NoImageTwiceGrown(c, tree, b);
      }
    }

    static lemma TipDisjoint(c: Suite, tree: Tree, k: Digest)
      requires NoImageTwice(c, tree) && k in tree
      ensures Disjoint(ImageEntries(c), tree[k])
    {
    }

    lemma ExtendedHeaviest(b: Block)
      requires Valid() && CanGrow(c, tree, b) && b.header.prevHash == Tip()
      ensures ShortPaths(Grown(c, tree, b)) ==> Heaviest(Grown(c, tree, b), c.BlockHash(b))
    {
      if ShortPaths(Grown(c, tree, b)) {
        ShortBefore(b);
        WeightExtends(Main(), b);
        GrownHeaviest(c, genesis, tree, Tip(), b);
      }
    }

    lemma ShortBefore(b: Block)
      requires CanGrow(c, tree, b) && ShortPaths(Grown(c, tree, b))
      ensures ShortPaths(tree) && |tree[b.header.prevHash]| < HEIGHT_LIMIT - 1
    {
      assert |Grown(c, tree, b)[c.BlockHash(b)]| < HEIGHT_LIMIT;
      forall k | k in tree ensures |tree[k]| < HEIGHT_LIMIT {
        assert Grown(c, tree, b)[k] == tree[k];
      }
    }

    // --- Reorganising ---

    /** How a path that leaves the main chain at height f looks from the tables. */
    ghost predicate ForksAt(path: seq<Block>, f: nat)
      requires Tip() in tree
      reads this
    {
      && 0 < f <= |Main()| && f <= |path| && path[..f] == Main()[..f]
      && NoneIn(c, path[f..], headers)
    }

    /**
     The hashes from the tip, and from a new block on a stored parent, down to where
     the two paths meet; both lists run from the top and leave the meeting block out.
     As written the walk starts by reading the new block's own side header, and fails.
     */
    method FindForkPaths(b: Block, asWritten: bool)
      returns (r: Result<(seq<Digest>, seq<Digest>)>, ghost f: nat)
      requires Valid() && b.header.prevHash in tree
      ensures r.Err? <==> asWritten
      ensures r.Ok? ==>
        var path, mainPath, sidePath := tree[b.header.prevHash], r.value.0, r.value.1;
        && ForksAt(path, f) && |sidePath| > 0 && sidePath[0] == c.BlockHash(b)
        && HashesOf(c, mainPath, Reverse(Main()[f..])) && HashesOf(c, sidePath[1..], Reverse(path[f..]))
    {
      hide Partitioned, Childless, GenuineTree, GenuineBlocks, Recorded, Retargeted, Watched, ShortPaths, Heaviest,
           OnPath, Suite.HeaderHash, Suite.BlockHash, HashesOf;
      ghost var v, main, path := Now(), Main(), tree[b.header.prevHash];
      f := |path|;
      var prevHash := b.header.prevHash;
      if asWritten {
        var own := GetSideHeader(c.BlockHash(b), asWritten);
        match own {
          case Err => return Err, f;
          case Ok(header) => prevHash := header.prevHash;
        }
      }
      var sidePath := [c.BlockHash(b)];
      assert sidePath[1..] == [];
      NoHashes(c, path, f);
      PathEnds(v, prevHash);
      while prevHash !in headers
        invariant 0 < f <= |path| && prevHash == HashAt(c, path, f) && |sidePath| > 0 && sidePath[0] == c.BlockHash(b)
        invariant HashesOf(c, sidePath[1..], Reverse(path[f..])) && NoneIn(c, path[f..], headers)
        decreases f
      {
        GenesisOnMain(v, b.header.prevHash, f);
        Lookup(v, b.header.prevHash, f);
        ReverseSlice(c, sidePath[1..], path, f);
        assert (sidePath + [prevHash])[1..] == sidePath[1..] + [prevHash];
        assert path[f - 1..] == [path[f - 1]] + path[f..];
        sidePath := sidePath + [prevHash];
        var side := GetSideHeader(prevHash, asWritten);
        if side.Err? {
          return Err, f;
        }
        prevHash := side.value.prevHash;
        f := f - 1;
      }
      Lookup(v, b.header.prevHash, f);
      var forkHash := prevHash;
      prevHash := Tip();
      var mainPath := [];
      ghost var n: nat := |main|;
      NoHashes(c, main, n);
      PathEnds(v, v.tip);
      HashesDiffer(v, f);
      while prevHash != forkHash
        invariant f <= n <= |main| && prevHash == HashAt(c, main, n)
        invariant HashesOf(c, mainPath, Reverse(main[n..]))
        decreases n
      {
        Lookup(v, v.tip, n);
        ReverseSlice(c, mainPath, main, n);
        mainPath := mainPath + [prevHash];
        prevHash := headers[prevHash].prevHash;
        n := n - 1;
      }
      r := Ok((mainPath, sidePath));
    }

    static lemma NoHashes(c: Suite, path: seq<Block>, n: nat)
      requires n == |path|
      ensures Reverse(path[n..]) == []
      ensures HashesOf(c, [], Reverse(path[n..]))
    {
    }

    /** The two header tables change places along the paths: removals before additions, one batch a table. */
    method SwapHeaders(mainPath: seq<Digest>, sidePath: seq<Digest>, ghost out: seq<Block>, ghost into: seq<Block>)
      requires HashesOf(c, mainPath, out) && HeadersIn(c, out, headers)
      requires HashesOf(c, sidePath, into) && HeadersIn(c, into, sideHeaders)
      modifies this`headers, this`sideHeaders
      ensures
        var E := HeaderEntries(c);
        && headers == PutAll(E, RemoveAll(E, old(headers), out), into)
        && sideHeaders == RemoveAll(E, PutAll(E, old(sideHeaders), out), into)
    {
      hide Suite.BlockHash, PutAll, RemoveAll, Write;
      ghost var E := HeaderEntries(c);
      ghost var kept, moved := RemoveAll(E, headers, out), PutAll(E, sideHeaders, out);
      var headerBatch: seq<Op<Header>>, sideHeaderBatch: seq<Op<Header>> := [], [];
      NothingYet(E, headers, out);
      NothingYet(E, sideHeaders, out);
      for i := 0 to |mainPath|
        invariant unchanged(this)
        invariant Write(headers, headerBatch) == RemoveAll(E, headers, out[..i])
        invariant Write(sideHeaders, sideHeaderBatch) == PutAll(E, sideHeaders, out[..i])
      {
        var h := headers[mainPath[i]];
        DeleteStep(E, headers, headerBatch, headers, out, i, mainPath[i]);
        PutStep(E, sideHeaders, sideHeaderBatch, sideHeaders, out, i, mainPath[i], h);
        headerBatch, sideHeaderBatch := headerBatch + [Delete(mainPath[i])], sideHeaderBatch + [Put(mainPath[i], h)];
      }
      assert out[..|mainPath|] == out;
      NothingYet(E, kept, into);
      NothingYet(E, moved, into);
      for i := 0 to |sidePath|
        invariant unchanged(this)
        invariant Write(headers, headerBatch) == PutAll(E, kept, into[..i])
        invariant Write(sideHeaders, sideHeaderBatch) == RemoveAll(E, moved, into[..i])
      {
        var h := sideHeaders[sidePath[i]];
        PutStep(E, headers, headerBatch, kept, into, i, sidePath[i], h);
        DeleteStep(E, sideHeaders, sideHeaderBatch, moved, into, i, sidePath[i]);
        headerBatch, sideHeaderBatch := headerBatch + [Put(sidePath[i], h)], sideHeaderBatch + [Delete(sidePath[i])];
      }
      assert into[..|sidePath|] == into;
      headers := Write(headers, headerBatch);
      sideHeaders := Write(sideHeaders, sideHeaderBatch);
    }

    method PutImages(b: Block, batch: seq<Op<Digest>>, ghost t: map<Digest, Digest>) returns (more: seq<Op<Digest>>)
      ensures Write(t, more) == Write(t, batch) + ImageEntries(c)(b)
    {
      hide Suite.ImageHash, Selves, Write;
      ghost var start := Write(t, batch);
      more := batch;
      TagNone(start, ZERO_DIGEST);
      for i := 0 to |b.txns|
        invariant Write(t, more) == start + Selves(ImageKeys(c, b, i))
      {
        assert ImageKeys(c, b, i) + {} == ImageKeys(c, b, i);
        if i != 0 {
          var pimgHash := c.ImageHash(b.txns[i]);
          WriteOne(t, more, Put(pimgHash, pimgHash));
          SelfOne(start, ImageKeys(c, b, i), pimgHash);
          more := more + [Put(pimgHash, pimgHash)];
        }
      }
    }

    method DeleteImages(b: Block, batch: seq<Op<Digest>>, ghost t: map<Digest, Digest>) returns (more: seq<Op<Digest>>)
      ensures Write(t, more) == Write(t, batch) - ImageEntries(c)(b).Keys
    {
      hide Suite.ImageHash, Write;
      ghost var start := Write(t, batch);
      more := batch;
      assert start - {} == start;
      for i := 0 to |b.txns|
        invariant Write(t, more) == start - ImageKeys(c, b, i)
      {
        assert ImageKeys(c, b, i) + {} == ImageKeys(c, b, i);
        if i != 0 {
          var pimgHash := c.ImageHash(b.txns[i]);
          WriteOne(t, more, Delete(pimgHash));
          RemoveOne(start, ImageKeys(c, b, i), pimgHash);
          more := more + [Delete(pimgHash)];
        }
      }
      EntryKeys(c, b);
    }

    /** The two block tables change places, and with them the spent images. */
    method SwapBlocks(mainPath: seq<Digest>, sidePath: seq<Digest>, ghost out: seq<Block>, ghost into: seq<Block>)
      requires HashesOf(c, mainPath, out) && BlocksIn(c, out, blocks)
      requires HashesOf(c, sidePath, into) && BlocksIn(c, into, sideBlocks)
      modifies this`blocks, this`sideBlocks, this`images
      ensures
        var E, I := BlockEntries(c), ImageEntries(c);
        && blocks == PutAll(E, RemoveAll(E, old(blocks), out), into)
        && sideBlocks == RemoveAll(E, PutAll(E, old(sideBlocks), out), into)
        && images == PutAll(I, RemoveAll(I, old(images), out), into)
    {
      hide Suite.BlockHash, PutAll, RemoveAll, Write, ImageEntries;
      ghost var E, I := BlockEntries(c), ImageEntries(c);
      ghost var kept, moved := RemoveAll(E, blocks, out), PutAll(E, sideBlocks, out);
      ghost var unspent := RemoveAll(I, images, out);
      var blockBatch: seq<Op<Block>>, sideBlockBatch: seq<Op<Block>>, pimgBatch: seq<Op<Digest>> := [], [], [];
      NothingYet(E, blocks, out);
      NothingYet(E, sideBlocks, out);
      NothingYet(I, images, out);
      for i := 0 to |mainPath|
        invariant unchanged(this)
        invariant Write(blocks, blockBatch) == RemoveAll(E, blocks, out[..i])
        invariant Write(sideBlocks, sideBlockBatch) == PutAll(E, sideBlocks, out[..i])
        invariant Write(images, pimgBatch) == RemoveAll(I, images, out[..i])
      {
        var b := blocks[mainPath[i]];
        DeleteStep(E, blocks, blockBatch, blocks, out, i, mainPath[i]);
        PutStep(E, sideBlocks, sideBlockBatch, sideBlocks, out, i, mainPath[i], b);
        AddLast(I, images, out, i);
        blockBatch, sideBlockBatch := blockBatch + [Delete(mainPath[i])], sideBlockBatch + [Put(mainPath[i], b)];
        pimgBatch := DeleteImages(b, pimgBatch, images);
      }
      assert out[..|mainPath|] == out;
      NothingYet(E, kept, into);
      NothingYet(E, moved, into);
      NothingYet(I, unspent, into);
      for i := 0 to |sidePath|
        invariant unchanged(this)
        invariant Write(blocks, blockBatch) == PutAll(E, kept, into[..i])
        invariant Write(sideBlocks, sideBlockBatch) == RemoveAll(E, moved, into[..i])
        invariant Write(images, pimgBatch) == PutAll(I, unspent, into[..i])
      {
        var b := sideBlocks[sidePath[i]];
        PutStep(E, blocks, blockBatch, kept, into, i, sidePath[i], b);
        DeleteStep(E, sideBlocks, sideBlockBatch, moved, into, i, sidePath[i]);
        AddLast(I, unspent, into, i);
        blockBatch, sideBlockBatch := blockBatch + [Put(sidePath[i], b)], sideBlockBatch + [Delete(sidePath[i])];
        pimgBatch := PutImages(b, pimgBatch, images);
      }
      assert into[..|sidePath|] == into;
      images := Write(images, pimgBatch);
      blocks := Write(blocks, blockBatch);
      sideBlocks := Write(sideBlocks, sideBlockBatch);
    }

    /** The map to blocks is torn down along one path and built along the other, block by block. */
    method SwapMaps(mainPath: seq<Digest>, sidePath: seq<Digest>, ghost out: seq<Block>, ghost into: seq<Block>)
      requires HashesOf(c, mainPath, out) && HashesOf(c, sidePath, into)
      requires forall i :: 0 <= i < |out| ==> LoadedBlock(Kept(), c.BlockHash(out[i])) == Ok(out[i])
      requires forall i :: 0 <= i < |into| ==> LoadedBlock(Kept(), c.BlockHash(into[i])) == Ok(into[i])
      modifies this`index
      ensures
        var E := IndexEntries(c);
        index == PutAll(E, RemoveAll(E, old(index), out), into)
    {
      hide Suite.BlockHash, PutAll, RemoveAll, IndexEntries;
      ghost var E, start := IndexEntries(c), index;
      ghost var kept := RemoveAll(E, start, out);
      NothingYet(E, start, out);
      for i := 0 to |mainPath|
        invariant index == RemoveAll(E, start, out[..i])
      {
        var block := LoadBlock(mainPath[i]);
        AddLast(E, start, out, i);
        DeleteMapToBlock(block.value);
      }
      assert out[..|mainPath|] == out;
      NothingYet(E, kept, into);
      for i := 0 to |sidePath|
        invariant index == PutAll(E, kept, into[..i])
      {
        var block := LoadBlock(sidePath[i]);
        AddLast(E, kept, into, i);
        PutMapToBlock(block.value);
      }
      assert into[..|sidePath|] == into;
    }

    lemma SwappedRecorded(tip: Digest, f: nat)
      requires Recorded(c, tree, Tip(), reorganised, index, images) && tip in tree && Tip() in tree
      requires f <= |Main()| && f <= |tree[tip]| && tree[tip][..f] == Main()[..f]
      ensures
        var I, M := IndexEntries(c), ImageEntries(c);
        var out, into := Reverse(Main()[f..]), Reverse(tree[tip][f..]);
        Recorded(c, tree, tip, true,
                 PutAll(I, RemoveAll(I, index, out), into), PutAll(M, RemoveAll(M, images, out), into))
    {
      hide Rebuilt, Disjoint, Suite.HeaderHash, PutAll, RemoveAll;
      var main, path := Main(), tree[tip];
      assert main == main[..f] + main[f..] && path == main[..f] + path[f..];
      if NoRepeats(c, tree) {
        SwapTail(IndexEntries(c), main[..f], main[f..], path[f..]);
      }
      if NoImageTwice(c, tree) {
        SwapTail(ImageEntries(c), main[..f], main[f..], path[f..]);
      }
    }

    /** The entries of the main path, from the tip down. */
    lemma TailsIn(v: View, k: Digest, f: nat)
      requires Partitioned(v) && v.c == c && k in v.tree && f <= |v.tree[k]|
      ensures k == v.tip ==>
                HeadersIn(c, Reverse(v.tree[k][f..]), v.headers) && BlocksIn(c, Reverse(v.tree[k][f..]), v.blocks)
      ensures NoneIn(c, v.tree[k][f..], v.headers) ==>
                && HeadersIn(c, Reverse(v.tree[k][f..]), v.sideHeaders)
                && BlocksIn(c, Reverse(v.tree[k][f..]), v.sideBlocks)
    {
      hide Partitioned, Suite.BlockHash;
      var path := v.tree[k];
      var tail := Reverse(path[f..]);
      forall i | 0 <= i < |tail|
        ensures
          var h := c.BlockHash(tail[i]);
          && (k == v.tip ==> h in v.headers)
          && (h in v.headers ==> v.headers[h] == tail[i].header && h in v.blocks && v.blocks[h] == tail[i])
          && (h !in v.headers ==> h in v.sideHeaders && v.sideHeaders[h] == tail[i].header
                                  && h in v.sideBlocks && v.sideBlocks[h] == tail[i])
          && (NoneIn(c, path[f..], v.headers) ==> h !in v.headers)
      {
        Lookup(v, k, |path| - i);
        assert tail[i] == path[|path| - 1 - i] == path[f..][|tail| - 1 - i];
      }
    }

    /**
     Replaces the main chain's blocks above the fork by those of another stored path.
     Every table is then the one rebuilt from scratch over the new chain; for the two
     that depend on transactions this needs that no chain repeats an image or output.
     */
    method SwapMainFork(mainPath: seq<Digest>, sidePath: seq<Digest>, ghost tip: Digest, ghost f: nat)
      requires Partitioned(Now()) && Recorded(c, tree, Tip(), reorganised, index, images)
      requires Tip() in tree && tip in tree && ForksAt(tree[tip], f)
      requires HashesOf(c, mainPath, Reverse(Main()[f..])) && HashesOf(c, sidePath, Reverse(tree[tip][f..]))
      modifies this`headers, this`sideHeaders, this`blocks, this`sideBlocks, this`index, this`images
      ensures Now().(tip := tip) == Swapped(old(Now()), tip, f)
      ensures
        var I, M := IndexEntries(c), ImageEntries(c);
        var out, into := Reverse(old(Main())[f..]), Reverse(tree[tip][f..]);
        && index == PutAll(I, RemoveAll(I, old(index), out), into)
        && images == PutAll(M, RemoveAll(M, old(images), out), into)
      ensures Partitioned(Now().(tip := tip)) && Recorded(c, tree, tip, true, index, images)
    {
      hide Partitioned, Recorded, Suite.HeaderHash, Suite.BlockHash, HashesOf, HeadersIn, BlocksIn, PutAll, RemoveAll,
           NoneIn, HeaderEntries, BlockEntries, IndexEntries, ImageEntries;
      ghost var v, out, into := Now(), Reverse(Main()[f..]), Reverse(tree[tip][f..]);
      TailsIn(v, Tip(), f);
      TailsIn(v, tip, f);
      SwappedPartitioned(v, tip, f);
      SwappedRecorded(tip, f);
      SwapHeaders(mainPath, sidePath, out, into);
      SwapBlocks(mainPath, sidePath, out, into);
      PathLoads(Now().(tip := tip), Kept(), v.tip, f);
      PathLoads(Now().(tip := tip), Kept(), tip, f);
      SwapMaps(mainPath, sidePath, out, into);
    }

    // --- Fork choice ---

    /** The difficulty of the main chain, and of the path to a new block; 0 if there is none. */
    ghost function MainWeight(): nat
      reads this
    {
      if Tip() in tree then Weight(tree[Tip()]) else 0
    }

    ghost function WeightWith(b: Block): nat
      reads this
    {
      if b.header.prevHash in tree then Weight(tree[b.header.prevHash] + [b]) else 0
    }

    /** The new path weighs at least as much as the main chain, both totals taken as 64-bit words. */
    ghost predicate AtLeastAsHeavy(b: Block)
      requires Tip() in tree && b.header.prevHash in tree
      reads this
    {
      Weight(Main()) % UINT64 <= Weight(tree[b.header.prevHash] + [b]) % UINT64
    }

    /** What a block that does not become the tip is checked against. */
    ghost predicate SideAcceptable(b: Block, f: nat, env: Env)
      requires Tip() in tree && b.header.prevHash in tree && Prevalid(c, env, b)
      reads this
    {
      && ForksAt(tree[b.header.prevHash], f) && DifficultyFits(b, env)
      && BlockAcceptable(b, HashesAbove(c, Main(), f), HashesAbove(c, tree[b.header.prevHash], f), env)
    }

    /**
     Adds a block to a stored path other than the main chain: put aside, after
     validation, while the main chain is heavier, and made the tip otherwise, which only
     a guarded client does after validation too. As written nothing of this happens,
     since reading a side header always fails.
     */
    method ExtendSideChain(b: Block, env: Env, asWritten: bool) returns (r: Result<bool>, ghost f: nat)
      requires Valid() && Fits(b, env) && b.header.prevHash != Tip()
      modifies this
      ensures Valid() && unchanged(this`orphanHeaders, this`orphanBlocks)
      ensures r.Err? <==> asWritten
      ensures r != Ok(true) ==> unchanged(this)
      ensures !asWritten ==> old(ForksAt(tree[b.header.prevHash], f))
      ensures !asWritten && old(AtLeastAsHeavy(b)) ==> (r == Ok(true) <==> old(guarded ==> SideAcceptable(b, f, env)))
      ensures r == Ok(true) && old(AtLeastAsHeavy(b)) ==> lastHeader == b.header && tree == old(Grown(c, tree, b))
      ensures r == Ok(true) ==> (lastHeader == b.header <==> old(MainWeight()) % UINT64 <= old(WeightWith(b)) % UINT64)
      ensures !asWritten && !old(AtLeastAsHeavy(b)) ==> (r == Ok(true) <==> old(SideAcceptable(b, f, env)))
      ensures r == Ok(true) && !old(AtLeastAsHeavy(b)) ==>
        Now() == Aside(old(Now()), b)
        && unchanged(this`lastHeader, this`index, this`images, this`reorganised, this`unchecked)
    {
      hide Partitioned, Childless, Heaviest, ShortPaths, GenuineTree, Formed, BlockBacked, GenuineBlocks, Recorded,
           Retargeted, Watched, Disjoint, Prevalid, Suite.HeaderHash, Weight, HashesOf, Swapped, HashesAbove, Genuine,
           NoneIn, DueAt, SideAcceptable;
      var paths;
      paths, f := FindForkPaths(b, asWritten);
      if paths.Err? {
        return Err, f;
      }
      var (mainPath, sidePath) := paths.value;
      var mainDiff := MainChainTotalDifficulty();
      var sideDiff := SideChainTotalDifficulty(b.header.prevHash, false);
      SideTotal(tree[b.header.prevHash], b);
      sideDiff := (sideDiff + b.header.difficulty) % UINT64;
      ghost var s := Suggestion(env, tree[b.header.prevHash], b);
      PrevalidIsFormed(b, env);
      if mainDiff > sideDiff || guarded {
        var valid := PostValidSide(b, mainPath, sidePath[1..], env, f);
        if !valid {
          return Ok(false), f;
        }
        SideAcceptedIsDue(b, f, env);
      }
      if mainDiff > sideDiff {
        PutAside(b, s);
      } else {
        MakeTip(b, mainPath, sidePath, f, guarded, s);
      }
      r := Ok(true);
    }

    /** Validation of a block whose path leaves the main chain at height f. */
    method PostValidSide(b: Block, mainPath: seq<Digest>, sidePath: seq<Digest>, env: Env, ghost f: nat)
      returns (ok: bool)
      requires Valid() && Prevalid(c, env, b) && b.header.prevHash in tree && ForksAt(tree[b.header.prevHash], f)
      requires HashesOf(c, mainPath, Reverse(Main()[f..]))
      requires HashesOf(c, sidePath, Reverse(tree[b.header.prevHash][f..]))
      ensures ok <==> SideAcceptable(b, f, env)
    {
      hide Partitioned, Childless, GenuineTree, GenuineBlocks, Recorded, Retargeted, Watched, ShortPaths, Heaviest,
           DifficultyFits, BlockAcceptable, Prevalid, HashesOf, HashesAbove, Suite.HeaderHash;
      HashesAreThose(mainPath, Main(), f);
      HashesAreThose(sidePath, tree[b.header.prevHash], f);
      ok := PostValidBlock(b, mainPath, sidePath, env);
    }

    /** A block accepted beside the main chain has the difficulty due, and a guarded client has checked its images. */
    lemma SideAcceptedIsDue(b: Block, f: nat, env: Env)
      requires Valid() && Fits(b, env) && SideAcceptable(b, f, env)
      ensures DueAt(tree[b.header.prevHash] + [b], Suggestion(env, tree[b.header.prevHash], b)) && BlockBacked(c, b)
      ensures guarded ==> Disjoint(ImageEntries(c), tree[b.header.prevHash] + [b])
    {
      hide Partitioned, Childless, GenuineTree, Formed, BlockBacked, GenuineBlocks, ShortPaths, Heaviest, Retargeted,
           DueAt, Disjoint, Suite.HeaderHash, NoImageTwice, NoRepeats, AcceptableTxns, Prevalid, Rebuilt, NoneIn,
           SideGuard, Genuine;
      DueWhenFits(b, env);
      AcceptedBacked(b, HashesAbove(c, Main(), f), HashesAbove(c, tree[b.header.prevHash], f), env);
      if guarded {
        var path := tree[b.header.prevHash];
        TipDisjoint(c, tree, b.header.prevHash);
        forall k | k in ImageEntries(c)(b) ensures !Contributes(ImageEntries(c), path[f..], k) {
          GuardedImage(b, f, k);
        }
        SideBlockSpendsNewIff(c, Kept(), env, b, Main(), path, f,
                              ForkOutputs(c, Kept(), HashesAbove(c, Main(), f), |HashesAbove(c, Main(), f)|),
                              ForkImages(c, Kept(), HashesAbove(c, Main(), f), |HashesAbove(c, Main(), f)|));
      }
    }

    lemma GuardedImage(b: Block, f: nat, k: Digest)
      requires Partitioned(Now()) && b.header.prevHash in tree && f <= |tree[b.header.prevHash]|
      requires PathStored(Kept(), HashesAbove(c, tree[b.header.prevHash], f))
      requires SideGuard(b, HashesAbove(c, tree[b.header.prevHash], f), |b.txns|) && k in ImageEntries(c)(b)
      ensures !Contributes(ImageEntries(c), tree[b.header.prevHash][f..], k)
    {
      hide Partitioned, Suite.HeaderHash, Contributes, ForkImages, PathStored, Suite.ImageHash, HashesAbove, HashesOf;
      EntryKeys(c, b);
      ImageOfTxn(c, b, |b.txns|, k);
      if Contributes(ImageEntries(c), tree[b.header.prevHash][f..], k) {
        ForkImagesCover(Now(), Kept(), b.header.prevHash, f, HashesAbove(c, tree[b.header.prevHash], f), k);
      }
    }

    method PutAside(b: Block, ghost s: nat)
      requires Valid() && CanGrow(c, tree, b) && Genuine(b, c.BlockHash(b)) && b.header.prevHash != Tip()
      requires !AtLeastAsHeavy(b) && DueAt(tree[b.header.prevHash] + [b], s) && Formed(c, b) && BlockBacked(c, b)
      requires guarded ==> Disjoint(ImageEntries(c), tree[b.header.prevHash] + [b])
      modifies this`sideHeaders, this`sideBlocks, this`tree, this`suggested
      ensures Valid() && Now() == Aside(old(Now()), b)
    {
      hide Partitioned, Childless, Heaviest, ShortPaths, GenuineTree, Formed, BlockBacked, GenuineBlocks, Recorded,
           Retargeted, Watched, Suite.HeaderHash, Weight, DueAt, Disjoint;
      AsidePartitioned(Now(), b);
      AsideRecorded(b);
      RetargetedGrows(c, tree, unchecked, suggested, b, s);
      GrownChildless(Now(), b);
      GrownGenuine(b);
      SideHeaviest(b);
      suggested := suggested[c.BlockHash(b) := s];
      StoreAside(b);
    }

    /** Stores the block, checked or not, and makes the path that ends in it the main chain. */
    method MakeTip(b: Block, mainPath: seq<Digest>, sidePath: seq<Digest>, ghost f: nat, ghost checked: bool,
                   ghost s: nat)
      requires Valid() && CanGrow(c, tree, b) && Genuine(b, c.BlockHash(b)) && AtLeastAsHeavy(b)
      requires ForksAt(tree[b.header.prevHash], f) && HashesOf(c, mainPath, Reverse(Main()[f..]))
      requires |sidePath| > 0 && sidePath[0] == c.BlockHash(b)
      requires HashesOf(c, sidePath[1..], Reverse(tree[b.header.prevHash][f..]))
      requires Formed(c, b) && (checked ==> DueAt(tree[b.header.prevHash] + [b], s) && BlockBacked(c, b))
      requires guarded ==> checked && Disjoint(ImageEntries(c), tree[b.header.prevHash] + [b])
      modifies this
      ensures Valid() && lastHeader == b.header && tree == old(Grown(c, tree, b)) && reorganised
      ensures unchecked == old(unchecked) + if checked then {} else {c.BlockHash(b)}
      ensures unchanged(this`orphanHeaders, this`orphanBlocks)
    {
      hide Partitioned, Childless, Heaviest, ShortPaths, GenuineTree, Formed, BlockBacked, GenuineBlocks, Recorded,
           Retargeted, Watched, Suite.HeaderHash, Weight, HashesOf, Swapped, NoneIn, Genuine, HeadersOf, PutAll,
           RemoveAll, DueAt, Disjoint;
      AsidePartitioned(Now(), b);
      AsideRecorded(b);
      RetargetedGrows(c, tree, unchecked, suggested, b, s);
      GrownChildless(Now(), b);
      GrownGenuine(b);
      SideHeaviest(b);
      ForkOfGrown(b, f, sidePath);
      if checked {
        suggested := suggested[c.BlockHash(b) := s];
      } else {
        unchecked := unchecked + {c.BlockHash(b)};
      }
      Reorganise(b, mainPath, sidePath, f);
    }

    method Reorganise(b: Block, mainPath: seq<Digest>, sidePath: seq<Digest>, ghost f: nat)
      requires b.header.prevHash in tree && Partitioned(Aside(Now(), b)) && Tip() in Grown(c, tree, b)
      requires Tip() in tree && Grown(c, tree, b)[Tip()] == Main()
      requires Recorded(c, Grown(c, tree, b), Tip(), reorganised, index, images)
      requires ForksAt(tree[b.header.prevHash] + [b], f)
      requires HashesOf(c, mainPath, Reverse(Main()[f..]))
      requires HashesOf(c, sidePath, Reverse((tree[b.header.prevHash] + [b])[f..]))
      modifies this`headers, this`sideHeaders, this`blocks, this`sideBlocks, this`index, this`images, this`tree,
               this`lastHeader, this`reorganised
      ensures lastHeader == b.header && tree == old(Grown(c, tree, b)) && reorganised
      ensures Partitioned(Now()) && Recorded(c, tree, Tip(), true, index, images)
    {
      hide Partitioned, Recorded, Suite.HeaderHash, HashesOf, Swapped, NoneIn;
      StoreAside(b);
      SwapMainFork(mainPath, sidePath, c.BlockHash(b), f);
      lastHeader := b.header;
      reorganised := true;
    }

    method StoreAside(b: Block)
      requires b.header.prevHash in tree
      modifies this`sideHeaders, this`sideBlocks, this`tree
      ensures Now() == Aside(old(Now()), b)
    {
      sideHeaders := sideHeaders[c.BlockHash(b) := b.header];
      sideBlocks := sideBlocks[c.BlockHash(b) := b];
      tree := Grown(c, tree, b);
    }

    lemma HashesAreThose(hashes: seq<Digest>, path: seq<Block>, f: nat)
      requires f <= |path| && HashesOf(c, hashes, Reverse(path[f..]))
      ensures hashes == HashesAbove(c, path, f)
    {
    }

    lemma SideTotal(path: seq<Block>, b: Block)
      ensures (Weight(path) % UINT64 + b.header.difficulty) % UINT64 == Weight(path + [b]) % UINT64
    {
      WeightExtends(path, b);
      WordStep(Weight(path), b.header.difficulty);
    }

    lemma AsideRecorded(b: Block)
      requires Recorded(c, tree, Tip(), reorganised, index, images) && CanGrow(c, tree, b)
      requires Watched(c, tree, guarded, reorganised, unchecked)
      requires guarded ==> Disjoint(ImageEntries(c), tree[b.header.prevHash] + [b])
      ensures Recorded(c, Grown(c, tree, b), Tip(), reorganised, index, images)
      ensures Watched(c, Grown(c, tree, b), guarded, reorganised, unchecked)
      ensures !guarded ==> Watched(c, Grown(c, tree, b), guarded, true, unchecked + {c.BlockHash(b)})
      ensures Watched(c, Grown(c, tree, b), guarded, true, unchecked)
    {
      hide NoRepeats, NoImageTwice, Disjoint, Suite.HeaderHash, Rebuilt;
      if NoRepeats(c, Grown(c, tree, b)) {
        NoRepeatsBefore(c, tree, b);
      }
      if NoImageTwice(c, Grown(c, tree, b)) {
        NoImageTwiceBefore(c, tree, b);
      }
      if guarded {
        NoImageTwiceGrown(c, tree, b);
      }
    }

    lemma SideHeaviest(b: Block)
      requires Valid() && CanGrow(c, tree, b)
      ensures ShortPaths(Grown(c, tree, b)) ==>
                Heaviest(Grown(c, tree, b), if AtLeastAsHeavy(b) then c.BlockHash(b) else Tip())
    {
      hide Childless, GenuineTree, GenuineBlocks, Recorded, Retargeted, Watched, Suite.HeaderHash, Suite.BlockHash,
           Weight, Heaviest;
      if ShortPaths(Grown(c, tree, b)) {
        ShortBefore(b);
        GrownWellLinked(c, genesis, tree, b);
        PathWeightFits(c, genesis, Grown(c, tree, b), c.BlockHash(b));
        PathWeightFits(c, genesis, Grown(c, tree, b), Tip());
        GrownHeaviest(c, genesis, tree, Tip(), b);
      }
    }

    /** Once the new block is stored, its path forks where its parent's does. */
    lemma ForkOfGrown(b: Block, f: nat, sidePath: seq<Digest>)
      requires Partitioned(Now()) && Tip() in tree && CanGrow(c, tree, b) && ForksAt(tree[b.header.prevHash], f)
      requires |sidePath| > 0 && sidePath[0] == c.BlockHash(b)
      requires HashesOf(c, sidePath[1..], Reverse(tree[b.header.prevHash][f..]))
      ensures ForksAt(tree[b.header.prevHash] + [b], f)
      ensures HashesOf(c, sidePath, Reverse((tree[b.header.prevHash] + [b])[f..]))
    {
      hide Partitioned, Suite.HeaderHash;
      var path := tree[b.header.prevHash];
      Holds(Now(), c.BlockHash(b));
      assert (path + [b])[..f] == path[..f];
      assert Reverse((path + [b])[f..]) == [b] + Reverse(path[f..]);
      assert sidePath == [sidePath[0]] + sidePath[1..];
    }

    // --- Adopting blocks ---

    /** Proof of work, time and a well-placed genesis; a difficulty past the hash stops the client. */
    method ValidHeader(header: Header, env: Env) returns (r: Result<bool>)
      ensures r == Ok(true) <==> Worked(c, header) && Timely(header, env)
      ensures r == Ok(true) ==>
        && header.difficulty < 256 && Int(c.HeaderHash(header)) < Pow2(256 - header.difficulty)
        && header.time + 7200 >= env.now && (header.seqNum == 0 ==> header.prevHash == ZERO_DIGEST)
      ensures r.Err? <==> Stops(header)
    {
      hide Int, Pow2, Suite.HeaderHash;
      var verdict := ValidPoW(c.HeaderHash(header), header.difficulty);
      if verdict.IndexPanic? {
        return Err;
      }
      if !verdict.Accept? {
        return Ok(false);
      }
      if header.time + TWO_HOURS < env.now {
        return Ok(false);
      }
      if header.seqNum == 0 && header.prevHash != ZERO_DIGEST {
        return Ok(false);
      }
      r := Ok(true);
    }

    /** The block a hash that is not stored stands for: an orphan, or what a peer answers. */
    ghost function Found(hash: Digest, env: Env): (found: Result<Block>)
      reads this
    {
      if hash in orphanBlocks then Ok(orphanBlocks[hash]) else
        var answer := env.fetchBlock(hash);
        if answer.Ok? && c.BlockHash(answer.value) == hash
           && answer.value.header.merkleRoot == c.merkle(answer.value.txns)
        then answer else Err
    }

    /** A difficulty past the end of the hash, with a hash that is zero up to there. */
    ghost predicate Stops(header: Header)
      reads this
    {
      header.difficulty >= DIFFICULTY_LIMIT && Int(c.HeaderHash(header)) == 0
    }

    /** The checks that do not look at other blocks. */
    ghost predicate Passes(b: Block, env: Env) {
      Worked(c, b.header) && Timely(b.header, env) && Prevalid(c, env, b)
    }

    /** What it takes to be put on the tip. */
    ghost predicate OnTip(b: Block, env: Env)
      reads this
    {
      && Prevalid(c, env, b) && Tip() in tree && b.header.prevHash == Tip()
      && DifficultyFits(b, env) && BlockAcceptable(b, [], [], env)
    }

    /** What it takes to be stored on another stored path. */
    ghost predicate BesideTip(b: Block, env: Env)
      reads this
    {
      && Prevalid(c, env, b) && Tip() in tree && b.header.prevHash in tree && b.header.prevHash != Tip()
      && ((!guarded && AtLeastAsHeavy(b)) || exists f: nat ::
            ForksAt(tree[b.header.prevHash], f) && SideAcceptable(b, f, env))
    }

    /** What is to become of a hash that is not stored, before any ancestor is looked for. */
    ghost function Fate(hash: Digest, env: Env): (fate: Fate)
      reads this
      ensures fate.Tipped? || fate.Sided? ==> fate.b.header.prevHash in tree
    {
      if Found(hash, env).Err? then Failing else
        var b := Found(hash, env).value;
        if !Passes(b, env) then if Stops(b.header) then Failing else Refused
        else if OnTip(b, env) then Tipped(b)
        else if BesideTip(b, env) then Sided(b)
        else if b.header.prevHash !in tree then Waiting(b)
        else Refused
    }

    lemma FateOf(hash: Digest, env: Env)
      requires Valid()
      ensures Found(hash, env).Err? ==> Fate(hash, env) == Failing
      ensures Found(hash, env).Ok? ==>
        var b := Found(hash, env).value;
        && (!Passes(b, env) ==> Fate(hash, env) == if Stops(b.header) then Failing else Refused)
        && (Passes(b, env) && b.header.prevHash == Tip() ==>
              Fate(hash, env) == if OnTip(b, env) then Tipped(b) else Refused)
        && (Passes(b, env) && b.header.prevHash != Tip() && b.header.prevHash in tree ==>
              Fate(hash, env) == if BesideTip(b, env) then Sided(b) else Refused)
        && (Passes(b, env) && b.header.prevHash !in tree ==> Fate(hash, env) == Waiting(b))
    {
      hide Partitioned, Childless, Heaviest, ShortPaths, GenuineTree, GenuineBlocks, Recorded, Retargeted, Watched;
      hide Passes, Stops, DifficultyFits, BlockAcceptable, AtLeastAsHeavy, SideAcceptable, Found, Prevalid,
           Suite.HeaderHash;
    }

    /** A block that is left out cannot be put anywhere as things stand; it is an orphan if its parent is missing. */
    ghost predicate LeftOut(b: Block, env: Env)
      reads this
    {
      var hash := c.BlockHash(b);
      && hash !in tree
      && if b.header.prevHash == Tip() then !OnTip(b, env)
         else if b.header.prevHash in tree then !BesideTip(b, env)
         else hash in orphanBlocks && orphanBlocks[hash] == b
              && hash in orphanHeaders && orphanHeaders[hash] == b.header
    }

    /** The parent of a hash that waits is found to fail the checks. */
    ghost predicate Stuck(hash: Digest, env: Env)
      reads this
    {
      Fate(hash, env).Waiting? && Fate(Fate(hash, env).b.header.prevHash, env).Refused?
    }

    /** The missing ancestors of a hash, at most depth of them with itself, end in one that can be put on the tip. */
    ghost predicate Leads(hash: Digest, env: Env, depth: nat, root: Digest)
      reads this
      decreases depth
    {
      && depth > 0 && hash !in tree
      && match Fate(hash, env)
         case Tipped(_) => hash == root
         case Waiting(b) => Leads(b.header.prevHash, env, depth - 1, root)
         case _ => false
    }

    lemma NoneLead(hash: Digest, env: Env)
      ensures forall root :: !Leads(hash, env, 0, root)
    {
    }

    lemma Stored(k: Digest)
      requires Valid()
      ensures (k in headers || k in sideHeaders <==> k in tree) && Tip() in tree
    {
      hide Partitioned, Childless, Heaviest, ShortPaths, GenuineTree, GenuineBlocks, Recorded, Retargeted, Watched,
           Suite.HeaderHash;
      Holds(Now(), k);
    }

    lemma LeadsOn(hash: Digest, env: Env, depth: nat)
      requires depth > 0
      ensures forall root :: Leads(hash, env, depth, root) ==>
        || (Fate(hash, env).Tipped? && hash == root)
        || (Fate(hash, env).Waiting? && Leads(Fate(hash, env).b.header.prevHash, env, depth - 1, root))
    {
      hide Fate;
    }

    method LoadOrFetchBlock(hash: Digest, env: Env) returns (r: Result<Block>)
      requires Valid() && Answers(env) && hash !in tree
      ensures r == Found(hash, env) && (r.Ok? ==> Genuine(r.value, hash))
    {
      hide Partitioned, Childless, Heaviest, ShortPaths, Recorded, Retargeted, Watched, Genuine, Suite.HeaderHash;
      Holds(Now(), hash);
      HoldsBlocks(Now(), hash);
      r := LoadBlock(hash);
      if r.Err? {
        r := FetchBlock(hash, env);
      }
    }

    /** A peer's answer counts only if it has the hash that was asked for and the root of its own transactions. */
    method FetchBlock(hash: Digest, env: Env) returns (r: Result<Block>)
      ensures r == (var answer := env.fetchBlock(hash);
                    if answer.Ok? && c.BlockHash(answer.value) == hash
                       && answer.value.header.merkleRoot == c.merkle(answer.value.txns)
                    then answer else Err)
    {
      r := env.fetchBlock(hash);
      if r.Err? {
        return;
      }
      if c.BlockHash(r.value) != hash || c.merkle(r.value.txns) != r.value.header.merkleRoot {
        return Err;
      }
    }

    /** The genesis block is stored, and no other block has no parent. */
    lemma NotFirst(b: Block)
      requires Valid() && Genuine(b, c.BlockHash(b)) && c.BlockHash(b) !in tree
      ensures b.header.prevHash != ZERO_DIGEST
    {
      PathEnds(Now(), Tip());
      PathPrefix(c, genesis, tree, Tip(), 0);
    }

    /** A chain of new blocks ends below any block that stands on it. */
    lemma StillNew(before: Tree, b: Block)
      requires Partitioned(Now()) && GenuineTree(tree, unchecked) && b.header.prevHash in tree
      requires Genuine(b, c.BlockHash(b)) && c.BlockHash(b) !in before && NewUpTo(before, tree, b.header.prevHash)
      requires b.header.prevHash != ZERO_DIGEST
      ensures c.BlockHash(b) !in tree
    {
      var h := c.BlockHash(b);
      if h in tree {
        ParentBelow(Now(), h);
      }
    }

    lemma NoParent(b: Block)
      requires Valid() && Genuine(b, c.BlockHash(b)) && b.header.prevHash != ZERO_DIGEST
      requires b.header.prevHash !in tree
      ensures c.BlockHash(b) !in tree && b.header.prevHash != Tip()
    {
      if c.BlockHash(b) in tree {
        ParentBelow(Now(), c.BlockHash(b));
      }
    }

    method PutOrphan(b: Block)
      requires Valid() && Genuine(b, c.BlockHash(b))
      modifies this`orphanHeaders, this`orphanBlocks
      ensures Valid() && orphanBlocks == old(orphanBlocks)[c.BlockHash(b) := b]
      ensures orphanHeaders == old(orphanHeaders)[c.BlockHash(b) := b.header]
    {
      hide Partitioned, Childless, Heaviest, ShortPaths, GenuineTree, Recorded, Retargeted, Watched, EndsIn,
           Suite.HeaderHash;
      orphanHeaders := orphanHeaders[c.BlockHash(b) := b.header];
      orphanBlocks := orphanBlocks[c.BlockHash(b) := b];
    }

    /** Puts a block on a stored path: on the main chain or beside it. */
    method Place(b: Block, onMain: bool, env: Env, ghost before: Tree) returns (r: Result<bool>)
      requires Valid() && Fits(b, env) && (onMain <==> b.header.prevHash == Tip())
      requires Keeps(before, tree) && (before == tree || NewUpTo(before, tree, b.header.prevHash))
      modifies this
      ensures Valid() && Keeps(before, tree) && Keeps(old(tree), tree)
      ensures r == Ok(if onMain then old(OnTip(b, env)) else old(BesideTip(b, env)))
      ensures r != Ok(true) ==> unchanged(this)
      ensures r == Ok(true) && onMain ==> Now() == Extended(old(Now()), b)
      ensures r == Ok(true) ==> tree == old(Grown(c, tree, b)) && unchanged(this`orphanHeaders, this`orphanBlocks)
      ensures r == Ok(true) ==>
        NewUpTo(before, tree, c.BlockHash(b)) && (c.BlockHash(b) == Tip() || c.BlockHash(b) in sideHeaders)
    {
      hide Partitioned, Childless, Heaviest, ShortPaths, GenuineTree, GenuineBlocks, Recorded, Retargeted, Watched,
           Prevalid, Suite.HeaderHash, Weight, DifficultyFits, BlockAcceptable, SideAcceptable, AtLeastAsHeavy, Keeps,
           NewUpTo, IndexEntries, ImageEntries, ForksAt;
      GrownKeeps(c, before, tree, b);
      KeepsItself(tree);
      GrownKeeps(c, tree, tree, b);
      if onMain {
        var extended := ExtendMainChain(b, env);
        r := Ok(extended);
        assert r.value == old(OnTip(b, env));
      } else {
        ghost var f: nat;
        ForkIsOne(tree[b.header.prevHash]);
        var extended: Result<bool>;
        extended, f := ExtendSideChain(b, env, false);
        r := Ok(extended.value);
        assert r.value == old(BesideTip(b, env));
      }
    }

    /** Places a block whose parent is stored; only the genesis block has no parent. */
    method PlaceOnStored(b: Block, env: Env) returns (r: Result<bool>)
      requires Valid() && Prevalid(c, env, b) && Worked(c, b.header) && Genuine(b, c.BlockHash(b))
      requires c.BlockHash(b) !in tree && b.header.prevHash in tree
      modifies this
      ensures r == Ok(if b.header.prevHash == old(Tip()) then old(OnTip(b, env)) else old(BesideTip(b, env)))
      ensures r != Ok(true) ==> unchanged(this)
      ensures r == Ok(true) && b.header.prevHash == old(Tip()) ==> Now() == Extended(old(Now()), b)
      ensures r == Ok(true) ==> tree == old(Grown(c, tree, b))
      ensures Valid() && Keeps(old(tree), tree)
      ensures r == Ok(true) ==>
        NewUpTo(old(tree), tree, c.BlockHash(b)) && (c.BlockHash(b) == Tip() || c.BlockHash(b) in sideHeaders)
    {
      hide Partitioned, Childless, Heaviest, ShortPaths, GenuineTree, GenuineBlocks, Recorded, Retargeted, Watched,
           Prevalid, Suite.HeaderHash, Suite.BlockHash, Keeps, NewUpTo, OnTip, BesideTip;
      KeepsItself(tree);
      NotFirst(b);
      if b.header.prevHash == Tip() || b.header.prevHash == ZERO_DIGEST {
        r := Place(b, true, env, tree);
      } else {
        r := Place(b, false, env, tree);
      }
    }

    lemma ForkIsOne(path: seq<Block>)
      requires Partitioned(Now()) && Tip() in tree
      ensures forall f: nat, g: nat :: ForksAt(path, f) && ForksAt(path, g) ==> f == g
    {
      hide Partitioned, ForksAt;
      forall f: nat, g: nat | ForksAt(path, f) && ForksAt(path, g) ensures f == g {
        OneFork(path, f, g);
      }
    }

    /** Places a block whose parent has just been adopted. */
    method PlaceOnAdopted(b: Block, env: Env, ghost before: Tree) returns (r: Result<bool>)
      requires Valid() && Prevalid(c, env, b) && Genuine(b, c.BlockHash(b))
      requires b.header.prevHash != ZERO_DIGEST && Worked(c, b.header)
      requires c.BlockHash(b) !in before && Keeps(before, tree) && NewUpTo(before, tree, b.header.prevHash)
      requires b.header.prevHash == Tip() || b.header.prevHash in sideHeaders
      modifies this
      ensures Valid() && Keeps(before, tree) && Keeps(old(tree), tree)
      ensures r == Ok(if b.header.prevHash == old(Tip()) then old(OnTip(b, env)) else old(BesideTip(b, env)))
      ensures r != Ok(true) ==> unchanged(this) && c.BlockHash(b) !in tree
      ensures r == Ok(true) ==> tree == old(Grown(c, tree, b)) && unchanged(this`orphanHeaders, this`orphanBlocks)
      ensures r == Ok(true) ==>
        NewUpTo(before, tree, c.BlockHash(b)) && (c.BlockHash(b) == Tip() || c.BlockHash(b) in sideHeaders)
    {
      hide Partitioned, Childless, Heaviest, ShortPaths, GenuineTree, GenuineBlocks, Recorded, Retargeted, Watched,
           Prevalid, Suite.HeaderHash, Suite.BlockHash, Keeps, NewUpTo, DifficultyFits, BlockAcceptable,
           SideAcceptable, AtLeastAsHeavy, ForksAt;
      var prevHash := b.header.prevHash;
      Holds(Now(), prevHash);
      StillNew(before, b);
      if prevHash in headers {
        r := Place(b, true, env, before);
        return;
      }
      if prevHash in sideHeaders {
        r := Place(b, false, env, before);
        return;
      }
      assert false;
    }

    /**
     Adopts the block with the given hash: on the tip, on another stored path, or after
     its missing ancestors have been adopted, at most depth of them. A block that cannot
     be placed is kept as an orphan.
     */
    method AddOrOrphanHelper(hash: Digest, env: Env, depth: nat) returns (r: Result<bool>)
      requires Valid() && Answers(env) && hash !in tree
      modifies this
      ensures depth > 0 && old(Fate(hash, env)).Failing? ==> r.Err? && unchanged(this)
      ensures depth > 0 && old(Fate(hash, env)).Refused? ==> r == Ok(false) && unchanged(this)
      ensures depth > 0 && old(Fate(hash, env)).Tipped? ==>
        r == Ok(true) && Now() == Extended(old(Now()), old(Fate(hash, env)).b)
      ensures depth > 0 && old(Fate(hash, env)).Sided? ==>
        r == Ok(true) && tree == old(Grown(c, tree, Fate(hash, env).b))
      ensures depth > 1 && old(Stuck(hash, env)) ==>
        && r == Ok(false) && tree == old(tree)
        && orphanBlocks == old(orphanBlocks)[hash := old(Fate(hash, env)).b]
        && orphanHeaders == old(orphanHeaders)[hash := old(Fate(hash, env)).b.header]
      ensures depth > 0 && old(Fate(hash, env)).Waiting? && r == Ok(false) ==> LeftOut(old(Fate(hash, env)).b, env)
      ensures r.Err? ==> unchanged(this)
      ensures r == Ok(false) ==> hash !in tree
      ensures forall root :: old(Leads(hash, env, depth, root)) ==> root in tree
      ensures Valid() && Keeps(old(tree), tree)
      ensures r == Ok(true) ==> NewUpTo(old(tree), tree, hash) && (hash == Tip() || hash in sideHeaders)
      decreases depth
    {
      hide Valid, Prevalid, Suite.HeaderHash, Suite.BlockHash, Int, Pow2, Keeps, NewUpTo, Answers, OnTip, BesideTip,
           Found, Stops, Worked, Timely, DifficultyFits, BlockAcceptable, AtLeastAsHeavy, SideAcceptable, Fate, Leads;
      KeepsItself(tree);
      if depth == 0 {
        NoneLead(hash, env);
        return Err;
      }
      FateOf(hash, env);
      LeadsOn(hash, env, depth);
      var block := LoadOrFetchBlock(hash, env);
      if block.Err? {
        return Err;
      }
      var b := block.value;
      var validHeader := ValidHeader(b.header, env);
      if validHeader.Err? {
        return Err;
      }
      if !validHeader.value {
        return Ok(false);
      }
      if !Prevalid(c, env, b) {
        return Ok(false);
      }
      var prevHash := b.header.prevHash;
      NotFirst(b);
      Stored(prevHash);
      if prevHash == Tip() || prevHash == ZERO_DIGEST || prevHash in headers || prevHash in sideHeaders {
        r := PlaceOnStored(b, env);
        return;
      }
      var success := AddOrOrphanHelper(prevHash, env, depth - 1);
      if success.Err? {
        return Err;
      }
      if !success.value {
        PutOrphan(b);
        NoParent(b);
        return Ok(false);
      }
      ghost var known := tree;
      Stored(prevHash);
      r := PlaceOnAdopted(b, env, old(tree));
      StillThere(known, tree);
    }

    /** Whether the hash of a block is already known; as written, side blocks and orphans are not. */
    method FilterBlock(hash: Digest, asWritten: bool) returns (known: bool)
      ensures known <==> hash in headers || (!asWritten && (hash in sideHeaders || hash in orphanHeaders))
    {
      known := hash in headers;
      if !known {
        var side := GetSideHeader(hash, asWritten);
        known := side.Ok?;
        if !known {
          var orphan := GetOrphanHeader(hash, asWritten);
          known := orphan.Ok?;
        }
      }
    }

    method GetOrphanHeader(hash: Digest, asWritten: bool) returns (r: Result<Header>)
      ensures r == if hash in orphanHeaders && !asWritten then Ok(orphanHeaders[hash]) else Err
    {
      if hash !in orphanHeaders {
        return Err;
      }
      r := Unmarshal(orphanHeaders[hash], if asWritten then Nil else Allocated);
    }

    /**
     What the literal code does with a first block once the client has one, announced or
     mined: it becomes the last header. The tables are then a partition if and only if it
     is the genesis block and nothing stands on that.
     */
    method AdoptFirstAgain(b: Block, env: Env) returns (ok: bool)
      requires Valid() && Prevalid(c, env, b) && b.header.prevHash == ZERO_DIGEST && Genuine(b, c.BlockHash(b))
      modifies this
      ensures ok <==> old(DifficultyFits(b, env) && BlockAcceptable(b, [], [], env))
      ensures ok ==> lastHeader == b.header && tree == old(tree) && Tip() == c.BlockHash(genesis)
      ensures ok ==> (Partitioned(Now()) <==> old(Tip() in tree && |Main()| == 1) && b == genesis)
      ensures !ok ==> unchanged(this)
    {
      hide Partitioned, Childless, Heaviest, ShortPaths, GenuineBlocks, Recorded, Retargeted, Watched,
           DifficultyFits, BlockAcceptable, Prevalid, ImageEntries, IndexEntries, Suite.HeaderHash;
      ok := PostValidBlock(b, [], [], env);
      if !ok {
        return;
      }
      ghost var v := Now();
      FirstIsShort();
      headers := headers[c.BlockHash(b) := b.header];
      WriteBlock(b);
      lastHeader := b.header;
      FirstAgain(v, b);
    }

    lemma FirstIsShort()
      requires Partitioned(Now()) && Tip() in tree && GenuineTree(tree, unchecked)
      ensures c.BlockHash(genesis) in tree && tree[c.BlockHash(genesis)] == [genesis]
      ensures genesis.header == headerOf(c.BlockHash(genesis))
    {
      PathEnds(Now(), Tip());
      PathPrefix(c, genesis, tree, Tip(), 0);
      PathEnds(Now(), c.BlockHash(genesis));
    }

    ghost predicate Unknown(hash: Digest)
      reads this
    {
      hash !in tree && hash !in orphanHeaders
    }

    /** What a request to adopt a block does to the client; known blocks are left alone. */
    method AddOrOrphan(hash: Digest, env: Env, depth: nat) returns (success: bool)
      requires Valid() && Answers(env)
      modifies this
      ensures depth > 0 && old(Unknown(hash) && (Fate(hash, env).Failing? || Fate(hash, env).Refused?)) ==>
        !success && unchanged(this)
      ensures depth > 0 && old(Unknown(hash) && Fate(hash, env).Tipped?) ==>
        success && Now() == Extended(old(Now()), old(Fate(hash, env)).b)
      ensures depth > 0 && old(Unknown(hash) && Fate(hash, env).Sided?) ==>
        success && tree == old(Grown(c, tree, Fate(hash, env).b))
      ensures depth > 0 && old(Unknown(hash) && Fate(hash, env).Waiting?) && !success ==>
        unchanged(this) || LeftOut(old(Fate(hash, env)).b, env)
      ensures depth > 1 && old(Unknown(hash) && Stuck(hash, env)) ==>
        && !success && tree == old(tree)
        && orphanBlocks == old(orphanBlocks)[hash := old(Fate(hash, env)).b]
        && orphanHeaders == old(orphanHeaders)[hash := old(Fate(hash, env)).b.header]
      ensures old(Unknown(hash)) ==> forall root :: old(Leads(hash, env, depth, root)) ==> root in tree
      ensures Valid() && Keeps(old(tree), tree)
      ensures ShortPaths(tree) ==> old(MainWeight()) <= MainWeight()
      ensures success ==> hash == Tip() || hash in sideHeaders
      ensures old(hash in headers || hash in sideHeaders || hash in orphanHeaders) ==> !success && unchanged(this)
    {
      hide Partitioned, Childless, ShortPaths, GenuineTree, GenuineBlocks, Recorded, Retargeted, Watched,
           Suite.HeaderHash, Weight, NewUpTo, Fate, Leads, LeftOut;
      Holds(Now(), hash);
      var known := FilterBlock(hash, false);
      if known {
        return false;
      }
      var r := AddOrOrphanHelper(hash, env, depth);
      success := r.Ok? && r.value;
      assert r.Err? || r == Ok(success);
    }

    /**
     A block that is announced and not known yet, on the tip: it becomes the tip exactly if
     its difficulty is the one that is due and its transactions are acceptable.
     */
    method AdoptOnTip(b: Block, env: Env, depth: nat) returns (success: bool)
      requires Valid() && Answers(env) && Unknown(c.BlockHash(b)) && depth > 0
      requires c.BlockHash(b) !in orphanBlocks && env.fetchBlock(c.BlockHash(b)) == Ok(b)
      requires Worked(c, b.header) && Timely(b.header, env) && Prevalid(c, env, b) && b.header.prevHash == Tip()
      modifies this
      ensures success <==> old(DifficultyFits(b, env) && BlockAcceptable(b, [], [], env))
      ensures success ==> Now() == Extended(old(Now()), b)
      ensures !success ==> unchanged(this)
      ensures Valid()
    {
      hide Valid, Prevalid, Suite.HeaderHash, Suite.BlockHash, Worked, Timely, DifficultyFits, BlockAcceptable, Fate,
           Leads, Found, Keeps;
      FoundIs(b, env);
      FateOf(c.BlockHash(b), env);
      Stored(c.BlockHash(b));
      success := AddOrOrphan(c.BlockHash(b), env, depth);
    }

    /**
     The same on another stored path, which leaves the main chain at height f: stored
     exactly if acceptable on that path, or, on a client that is not guarded, heavy enough.
     */
    method AdoptBeside(b: Block, env: Env, depth: nat, ghost f: nat) returns (success: bool)
      requires Valid() && Answers(env) && Unknown(c.BlockHash(b)) && depth > 0
      requires c.BlockHash(b) !in orphanBlocks && env.fetchBlock(c.BlockHash(b)) == Ok(b)
      requires Worked(c, b.header) && Timely(b.header, env) && Prevalid(c, env, b)
      requires b.header.prevHash in tree && b.header.prevHash != Tip() && ForksAt(tree[b.header.prevHash], f)
      modifies this
      ensures success <==> old((AtLeastAsHeavy(b) && !guarded) || SideAcceptable(b, f, env))
      ensures success ==> tree == old(Grown(c, tree, b))
      ensures !success ==> unchanged(this)
      ensures Valid()
    {
      hide Valid, Prevalid, Suite.HeaderHash, Suite.BlockHash, Worked, Timely, DifficultyFits, BlockAcceptable, Fate,
           Leads, Found, Keeps, AtLeastAsHeavy, SideAcceptable, ForksAt;
      FoundIs(b, env);
      FateOf(c.BlockHash(b), env);
      Stored(c.BlockHash(b));
      BesideAt(b, env, f);
      success := AddOrOrphan(c.BlockHash(b), env, depth);
    }

    lemma BesideAt(b: Block, env: Env, f: nat)
      requires Valid() && Prevalid(c, env, b)
      requires b.header.prevHash in tree && b.header.prevHash != Tip() && ForksAt(tree[b.header.prevHash], f)
      ensures BesideTip(b, env) <==> (AtLeastAsHeavy(b) && !guarded) || SideAcceptable(b, f, env)
    {
      hide Partitioned, Childless, Heaviest, ShortPaths, GenuineTree, GenuineBlocks, Recorded, Retargeted, Watched,
           Prevalid, Suite.HeaderHash, AtLeastAsHeavy, SideAcceptable, ForksAt;
      ForkIsOne(tree[b.header.prevHash]);
    }

    /**
     A run of missing blocks that ends on the tip leads to its first block: each is found
     under the hash the next one names, passes the checks of its own, and is not stored.
     */
    lemma ChainLeads(chain: seq<Block>, env: Env, depth: nat)
      requires Valid() && 0 < |chain| <= depth && OnTip(chain[0], env)
      requires forall i :: 0 <= i < |chain| ==>
        && c.BlockHash(chain[i]) !in tree && Passes(chain[i], env)
        && (if c.BlockHash(chain[i]) in orphanBlocks then orphanBlocks[c.BlockHash(chain[i])] == chain[i]
            else env.fetchBlock(c.BlockHash(chain[i])) == Ok(chain[i]))
        && (i > 0 ==> chain[i].header.prevHash == c.BlockHash(chain[i - 1]))
      ensures Leads(c.BlockHash(Last(chain)), env, depth, c.BlockHash(chain[0]))
    {
      hide Valid, Prevalid, OnTip, Suite.HeaderHash, Suite.BlockHash, Fate, Found, Worked, Timely;
      FoundIs(Last(chain), env);
      FateOf(c.BlockHash(Last(chain)), env);
      TipStands(chain[0], env);
      if |chain| > 1 {
        ChainLeads(chain[..|chain| - 1], env, depth - 1);
      }
    }

    /**
     A block that passes the checks of its own, but whose parent is missing and is found to
     fail them, is not adopted: it becomes an orphan, and nothing else changes.
     */
    method AdoptWithoutParent(b: Block, parent: Block, env: Env, depth: nat) returns (success: bool)
      requires Valid() && Answers(env) && Unknown(c.BlockHash(b)) && depth > 1
      requires c.BlockHash(b) !in orphanBlocks && env.fetchBlock(c.BlockHash(b)) == Ok(b)
      requires Worked(c, b.header) && Timely(b.header, env) && Prevalid(c, env, b)
      requires b.header.prevHash == c.BlockHash(parent) && c.BlockHash(parent) !in tree
      requires c.BlockHash(parent) !in orphanBlocks && env.fetchBlock(c.BlockHash(parent)) == Ok(parent)
      requires parent.header.merkleRoot == c.merkle(parent.txns) && parent.header.difficulty < DIFFICULTY_LIMIT
      requires !(Worked(c, parent.header) && Timely(parent.header, env) && Prevalid(c, env, parent))
      modifies this
      ensures !success && tree == old(tree)
      ensures orphanBlocks == old(orphanBlocks)[c.BlockHash(b) := b]
      ensures orphanHeaders == old(orphanHeaders)[c.BlockHash(b) := b.header]
      ensures Valid()
    {
      hide Valid, Prevalid, Suite.HeaderHash, Suite.BlockHash, Worked, Timely, DifficultyFits, BlockAcceptable, Fate,
           Leads, Found, Keeps;
      FoundIs(b, env);
      FoundIs(parent, env);
      FateOf(c.BlockHash(b), env);
      FateOf(c.BlockHash(parent), env);
      Stored(c.BlockHash(b));
      success := AddOrOrphan(c.BlockHash(b), env, depth);
    }

    /**
     A block whose missing parent is found and can be put on the tip: the parent is stored
     in any case, and the block too unless it cannot be placed once the parent is.
     */
    method AdoptWithParent(b: Block, parent: Block, env: Env, depth: nat) returns (success: bool)
      requires Valid() && Answers(env) && Unknown(c.BlockHash(b)) && depth > 1
      requires c.BlockHash(b) !in orphanBlocks && env.fetchBlock(c.BlockHash(b)) == Ok(b)
      requires Worked(c, b.header) && Timely(b.header, env) && Prevalid(c, env, b)
      requires b.header.prevHash == c.BlockHash(parent) && c.BlockHash(parent) !in tree
      requires c.BlockHash(parent) !in orphanBlocks && env.fetchBlock(c.BlockHash(parent)) == Ok(parent)
      requires Passes(parent, env) && OnTip(parent, env)
      modifies this
      ensures c.BlockHash(parent) in tree && Keeps(old(tree), tree) && (success ==> c.BlockHash(b) in tree)
      ensures !success ==>
        && c.BlockHash(b) !in tree
        && if b.header.prevHash == Tip() then !(DifficultyFits(b, env) && BlockAcceptable(b, [], [], env))
           else !BesideTip(b, env)
      ensures Valid()
    {
      hide Valid, Prevalid, Suite.HeaderHash, Suite.BlockHash, Worked, Timely, DifficultyFits, BlockAcceptable, Fate,
           Leads, Found, Keeps, BesideTip;
      FoundIs(b, env);
      ChainLeads([parent, b], env, depth);
      FateOf(c.BlockHash(b), env);
      Stored(c.BlockHash(b));
      success := AddOrOrphan(c.BlockHash(b), env, depth);
      Stored(c.BlockHash(b));
    }

    lemma FoundIs(b: Block, env: Env)
      requires Prevalid(c, env, b) || b.header.merkleRoot == c.merkle(b.txns)
      requires if c.BlockHash(b) in orphanBlocks then orphanBlocks[c.BlockHash(b)] == b
        else env.fetchBlock(c.BlockHash(b)) == Ok(b)
      ensures Found(c.BlockHash(b), env) == Ok(b)
    {
      hide Suite.BlockHash;
    }

    lemma TipStands(b: Block, env: Env)
      requires OnTip(b, env)
      ensures b.header.prevHash == Tip() && Tip() in tree
    {
    }

    /** A block that claims to start a chain. */
    predicate IsFirst(b: Block) {
      b.header.seqNum == 0 && b.header.prevHash == ZERO_DIGEST
    }

    /** A block the miner has found is put on the tip or rejected; a first block becomes the tip again. */
    method AdoptMinedBlock(b: Block, env: Env) returns (success: bool)
      requires Valid() && Genuine(b, c.BlockHash(b))
      modifies this
      ensures !success ==> unchanged(this)
      ensures success <==> old(
        && (IsFirst(b) || Tip() == b.header.prevHash) && Worked(c, b.header) && Timely(b.header, env)
        && Prevalid(c, env, b) && DifficultyFits(b, env) && BlockAcceptable(b, [], [], env))
      ensures !IsFirst(b) ==> Valid() && Keeps(old(tree), tree)
      ensures success && !IsFirst(b) ==>
        && old(Tip()) == b.header.prevHash && old(Tip()) in old(tree) && Now() == Extended(old(Now()), b)
        && lastHeader == b.header && reorganised == old(reorganised) && Worked(c, b.header)
      ensures success && IsFirst(b) ==>
        && lastHeader == b.header && tree == old(tree)
        && (Partitioned(Now()) <==> old(Tip() in tree && |Main()| == 1) && b == genesis)
    {
      hide Partitioned, Childless, Heaviest, ShortPaths, GenuineTree, GenuineBlocks, Recorded, Retargeted, Watched,
           Prevalid, Suite.HeaderHash, Weight, Worked, DifficultyFits, BlockAcceptable, IndexEntries, ImageEntries;
      if b.header.seqNum != 0 && Tip() != b.header.prevHash {
        return false;
      }
      PathEnds(Now(), Tip());
      var validHeader := ValidHeader(b.header, env);
      if validHeader != Ok(true) || !Prevalid(c, env, b) {
        return false;
      }
      if IsFirst(b) {
        success := AdoptFirstAgain(b, env);
      } else {
        NotYetStored(b);
        success := ExtendMainChain(b, env);
      }
    }

    /** Nothing stored stands on the tip, so a block that does is new. */
    lemma NotYetStored(b: Block)
      requires Valid() && Genuine(b, c.BlockHash(b)) && b.header.prevHash == Tip()
      ensures c.BlockHash(b) !in tree
    {
      if c.BlockHash(b) in tree {
        PathEnds(Now(), c.BlockHash(b));
      }
    }

    /** The requests a client serves: a block announced by a peer, or one found by its own miner. */
    method Run(requests: seq<Request>)
      requires Valid()
      requires forall i :: 0 <= i < |requests| ==> Served(requests[i])
      modifies this
      ensures Valid() && Keeps(old(tree), tree)
      ensures ShortPaths(tree) ==> old(MainWeight()) <= MainWeight()
    {
      hide Partitioned, Childless, ShortPaths, GenuineTree, GenuineBlocks, Recorded, Retargeted, Watched,
           Suite.HeaderHash, Weight;
      for i := 0 to |requests|
        invariant Valid() && Keeps(old(tree), tree)
      {
        match requests[i] {
          case Announced(hash, env, depth) =>
            var _ := AddOrOrphan(hash, env, depth);
          case Mined(b, env) =>
            var _ := AdoptMinedBlock(b, env);
        }
      }
    }

    ghost predicate Served(request: Request) {
      match request
      case Announced(_, env, _) => Answers(env)
      case Mined(b, _) => Genuine(b, c.BlockHash(b)) && !IsFirst(b)
    }

    // --- What every reachable state promises ---

    /** The last header ends one hash-linked chain down to the genesis block, each link with its proof of work. */
    lemma MainIsLinked(i: nat)
      requires Valid() && i < |Main()|
      ensures Main()[0] == genesis && Last(Main()).header == lastHeader
      ensures
        var header := Main()[i].header;
        && header.prevHash == (if i == 0 then ZERO_DIGEST else c.BlockHash(Main()[i - 1]))
        && Worked(c, header)
    {
      hide Worked, Suite.HeaderHash, Split;
      PathEnds(Now(), Tip());
      PathPrefix(c, genesis, tree, Tip(), i);
    }

    /**
     What every block of the main chain above the genesis block has passed: the root of its
     own transactions, the form of each, and, but for the unchecked ones, a ring for every
     payment and accepted range proofs.
     */
    lemma MainIsBacked(i: nat, a: nat) returns (ring: seq<Output>)
      requires Valid() && 0 < i < |Main()| && 1 <= a < |Main()[i].txns|
      ensures
        var b, txn := Main()[i], Main()[i].txns[a];
        && b.header.merkleRoot == c.merkle(b.txns) && b.txns[0].body.inputs == [ZERO_DIGEST]
        && |txn.body.inputs| == |txn.sig.rs| == |txn.sig.ss| == c.ring && |txn.body.outputs| == 2
      ensures c.BlockHash(Main()[i]) !in unchecked ==>
        var txn := Main()[i].txns[a];
        && |ring| == c.ring && (forall k :: 0 <= k < c.ring ==> c.OutputHash(ring[k]) == txn.body.inputs[k])
        && Accepts(c, txn, DestKeys(ring), InputCommits(ring))
        && (forall k :: 0 <= k < 2 ==> Verifies(c, txn.body.outputs[k].commit.proof))
    {
      hide Valid, Accepts, Verifies, Suite.HeaderHash, Suite.OutputHash, Suite.BlockHash, BlockBacked;
      Stored(Tip());
      StoredBelow(i);
      ring := [];
      if c.BlockHash(Main()[i]) !in unchecked {
        ring := BackedBy(Main()[i], a);
      }
    }

    lemma BackedBy(b: Block, a: nat) returns (ring: seq<Output>)
      requires BlockBacked(c, b) && 1 <= a < |b.txns|
      ensures Backed(c, b.txns[a]) && Backs(c, b.txns[a], ring)
    {
      hide Accepts, Verifies;
      assert Backed(c, b.txns[a]);
      ring :| Backs(c, b.txns[a], ring);
    }

    lemma StoredBelow(i: nat)
      requires Valid() && 0 < i < |Main()|
      ensures
        var k := c.BlockHash(Main()[i]);
        && k in tree && |tree[k]| == i + 1 && Last(tree[k]) == Main()[i]
        && Formed(c, Main()[i]) && (k !in unchecked ==> BlockBacked(c, Main()[i]))
    {
      hide Suite.BlockHash, Suite.HeaderHash, Formed, BlockBacked;
      PathPrefix(c, genesis, tree, Tip(), i);
    }

    /** The coinbase of every such block but the unchecked ones opens to its subsidy and fees, as a 64-bit word. */
    lemma CoinbaseIsDue(i: nat)
      requires Valid() && 0 < i < |Main()| && c.BlockHash(Main()[i]) !in unchecked
      ensures
        var b := Main()[i];
        && |b.txns| > 0 && |b.txns[0].body.outputs| == 1
        && b.txns[0].body.outputs[0].commit.point
           == PedersenSum(0, (CoinbaseValue(b.header.seqNum) + SumTo(FeesOf(b), |b.txns| - 1)) % UINT64)
    {
      hide Valid, Suite.HeaderHash, Suite.BlockHash, CoinbaseValue, SumTo, PedersenSum;
      StoredBelow(i);
    }

    /** No stored path, on a fork or not, weighs more than the main chain. */
    lemma MainIsHeaviest(hash: Digest)
      requires Valid() && ShortPaths(tree) && (hash in headers || hash in sideHeaders)
      ensures hash in tree && Weight(tree[hash]) <= Weight(Main())
    {
      hide Partitioned, Weight;
      Holds(Now(), hash);
    }

    /**
     No image is spent in two blocks of the main chain: while no reorganisation has
     happened, and in every reachable state of a client that makes the missing checks.
     */
    lemma SpentOnce(i: nat, j: nat, a: nat, b: nat)
      requires Valid() && (guarded || !reorganised) && i < j < |Main()|
      requires 1 <= a < |Main()[i].txns| && 1 <= b < |Main()[j].txns|
      ensures c.ImageHash(Main()[i].txns[a]) != c.ImageHash(Main()[j].txns[b])
      ensures Main()[i].txns[a].sig.preimage != Main()[j].txns[b].sig.preimage
    {
      hide Partitioned, Disjoint;
      if guarded {
        TipDisjoint(c, tree, Tip());
      }
      DisjointMeansOnce(c, Main(), i, j, a, b);
    }

    /**
     The spent images agree with a scan of the main chain, while no reorganisation has
     happened or no stored path spends an image twice, and so in every reachable state of
     a client that makes the missing checks.
     */
    lemma SpentAgrees(k: Digest)
      requires Valid() && (reorganised && !guarded ==> NoImageTwice(c, tree))
      ensures k in images && images[k] == k
         <==> exists i, a :: 0 <= i < |Main()| && 1 <= a < |Main()[i].txns| && c.ImageHash(Main()[i].txns[a]) == k
      ensures Spent(Kept(), k) <==> Contributes(ImageEntries(c), Main(), k)
    {
      hide Partitioned, Rebuilt, Contributes, NoRepeats, NoImageTwice, ImageEntries, Suite.ImageHash;
      SpentInContributes(c, Main(), k);
      SpentOnChain(c, Kept(), Main(), k);
    }

    /**
     The spent images and the output lookups agree with a scan of the main chain, for
     every hash; lookups as long as no output there has the hash of an image spent there.
     */
    lemma RecordsAgree(k: Digest)
      requires Valid() && (reorganised ==> NoRepeats(c, tree))
      ensures Spent(Kept(), k) <==> Contributes(ImageEntries(c), Main(), k)
      ensures
        var r := LoadedOutput(c, Kept(), k);
        && (r.Ok? ==> OnChain(Main(), r.value) && c.OutputHash(r.value) == k)
        && (Separate(c, Main()) ==>
              && (r.Ok? <==> exists o :: OnChain(Main(), o) && c.OutputHash(o) == k)
              && (Spent(Kept(), k) ==> r.Err?))
    {
      hide Partitioned, Rebuilt, Contributes, LoadedOutput, OnChain, Suite.OutputHash, NoRepeats, Separate, NamesOutput,
           NoImageTwice;
      if reorganised {
        NoRepeatsMeansNoImageTwice(c, tree);
      }
      SpentAgrees(k);
      LoadOutputAt(Now(), Kept(), k);
      if Separate(c, Main()) {
        LoadOutputExact(Now(), Kept(), k);
      }
    }

    lemma MainIsChecked()
      requires Valid() && (guarded || !reorganised)
      ensures Checked(c, Main(), unchecked)
    {
      hide Partitioned;
    }

    /**
     As long as every block of the main chain had the difficulty due, the difficulty drifts
     by at most one step every 2016 blocks, however the blocks are numbered and timed; with
     blocks numbered by depth the first step is one block later.
     */
    lemma MainDrift(h: nat)
      requires Valid() && Checked(c, Main(), unchecked) && h < |Main()|
      ensures genesis.header.difficulty == INITIAL_DIFFICULTY ==>
        -(h / DIFFICULTY_SPACING) <= Main()[h].header.difficulty - INITIAL_DIFFICULTY <= h / DIFFICULTY_SPACING
      ensures NumberedByDepth(HeadersOf(Main())) && h >= 1 ==>
        var d := Main()[h].header.difficulty;
        && -((h - 1) / DIFFICULTY_SPACING) <= d - INITIAL_DIFFICULTY <= (h - 1) / DIFFICULTY_SPACING
        && (h <= 483840 ==> d <= 255)
    {
      hide Partitioned, Childless, GenuineTree, GenuineBlocks, Recorded, Retargeted, Watched, ShortPaths, Heaviest,
           Suite.HeaderHash, Checked;
      PathDrift(Now(), unchecked, suggested, h);
    }

    // --- What the missing checks let through ---

    /**
     An input: a block that repeats an image of its own path, has not the difficulty due
     and claims another amount than it may becomes the tip, as long as it is heavy enough.
     */
    method HeavyBlockUnchecked(b: Block, env: Env, ghost i: nat, ghost k: Digest)
      requires Valid() && !guarded && Fits(b, env) && b.header.prevHash != Tip() && AtLeastAsHeavy(b)
      requires !DifficultyFits(b, env) && !VerifyCoinbaseTxn(b.txns[0], CoinbaseDue(b, |b.txns|))
      requires i < |tree[b.header.prevHash]|
      requires k in ImageEntries(c)(tree[b.header.prevHash][i]) && k in ImageEntries(c)(b)
      modifies this
      ensures Valid() && Main() == old(tree[b.header.prevHash]) + [b]
      ensures !Disjoint(ImageEntries(c), Main())
    {
      hide Partitioned, Childless, Heaviest, ShortPaths, GenuineTree, GenuineBlocks, Recorded, Retargeted, Watched,
           DifficultyFits, Prevalid, Suite.HeaderHash, Weight, AtLeastAsHeavy, SideAcceptable, ImageEntries, Genuine,
           VerifyCoinbaseTxn, CoinbaseDue, Disjoint;
      ghost var path := tree[b.header.prevHash];
      var r;
      ghost var f;
      r, f := ExtendSideChain(b, env, false);
      RepeatedImage(c, path, b, i, k);
    }

    /** A path leaves the main chain at one height. */
    lemma OneFork(path: seq<Block>, f: nat, g: nat)
      requires Partitioned(Now()) && Tip() in tree && ForksAt(path, f) && ForksAt(path, g)
      ensures f == g
    {
      hide Partitioned, Suite.HeaderHash, NoneIn;
      forall i | 0 <= i < |Main()| ensures c.BlockHash(Main()[i]) in headers {
        Lookup(Now(), Tip(), i + 1);
      }
      ForkNotBelow(c, Main(), path, headers, f, g);
      ForkNotBelow(c, Main(), path, headers, g, f);
    }

    lemma LongerFork(path: seq<Block>, b: Block, f: nat)
      requires Tip() in tree && ForksAt(path, f) && c.BlockHash(b) !in headers
      ensures ForksAt(path + [b], f)
    {
      assert (path + [b])[..f] == path[..f];
      assert (path + [b])[f..] == path[f..] + [b];
    }

    /** What a block beside the main chain is accepted for, as the tables stood. */
    ghost predicate AcceptedBeside(v: View, t: Records, b: Block, env: Env, f: nat)
      requires Prevalid(c, env, b) && v.tip in v.tree && b.header.prevHash in v.tree
      requires f <= |v.tree[v.tip]| && f <= |v.tree[b.header.prevHash]|
    {
      var mainPath, sidePath := HashesAbove(c, v.tree[v.tip], f), HashesAbove(c, v.tree[b.header.prevHash], f);
      && PathStored(t, mainPath) && PathStored(t, sidePath)
      && AcceptableTxns(c, t, env, b, ForkOutputs(c, t, mainPath, |mainPath|), ForkImages(c, t, mainPath, |mainPath|))
    }

    /** A block accepted beside the main chain and stored there is accepted again, on itself. */
    lemma RepeatAcceptable(v: View, t: Records, b: Block, d: Block, env: Env, f: nat)
      requires v.c == c && Partitioned(v) && v.tip in v.tree && TablesOf(v, t) && !guarded
      requires t.blocks == v.blocks && t.sideBlocks == v.sideBlocks
      requires b.header.prevHash in v.tree && f <= |v.tree[v.tip]| && f <= |v.tree[b.header.prevHash]|
      requires Prevalid(c, env, b) && Prevalid(c, env, d) && AcceptedBeside(v, t, b, env, f)
      requires d.txns == b.txns && d.header.seqNum == b.header.seqNum && d.header.prevHash == c.BlockHash(b)
      requires Now() == Aside(v, b) && Kept() == t.(sideBlocks := sideBlocks)
      requires Tip() in tree && c.BlockHash(b) in tree && tree[c.BlockHash(b)] == v.tree[b.header.prevHash] + [b]
      requires Main() == v.tree[v.tip] && ForksAt(tree[c.BlockHash(b)], f) && DifficultyFits(d, env)
      ensures SideAcceptable(d, f, env)
    {
      hide Partitioned, Suite.HeaderHash, AcceptableTxns, Prevalid, ForkOutputs, ForkImages, TablesOf, DifficultyFits,
           PathStored, HashesAbove, HashesOf, ForksAt;
      var mainPath, path := HashesAbove(c, v.tree[v.tip], f), v.tree[b.header.prevHash];
      MainForkStays(v, t, Kept(), f, mainPath);
      RepeatAccepted(v, t, Kept(), env, b, d, ForkOutputs(c, t, mainPath, |mainPath|),
                     ForkImages(c, t, mainPath, |mainPath|));
      OneMoreStored(t, path, b, f);
    }

    lemma OneMoreStored(t: Records, path: seq<Block>, b: Block, f: nat)
      requires f <= |path| && PathStored(t, HashesAbove(c, path, f))
      requires Kept() == t.(sideBlocks := sideBlocks) && t.sideBlocks.Keys <= sideBlocks.Keys
      requires c.BlockHash(b) in sideBlocks
      ensures PathStored(Kept(), HashesAbove(c, path + [b], f))
    {
      var hashes, before := HashesAbove(c, path + [b], f), HashesAbove(c, path, f);
      assert hashes == [c.BlockHash(b)] + before;
    }

    /**
     An input: two blocks with the same transactions, one on the other, beside the main
     chain. Both are accepted, so a stored path spends their images twice.
     */
    method RepeatBesideMain(b: Block, d: Block, env: Env, ghost f: nat)
      requires Valid() && !guarded && !reorganised && |b.txns| > 1
      requires Fits(b, env) && b.header.prevHash != Tip() && SideAcceptable(b, f, env)
      requires d.txns == b.txns && d.header.prevHash == c.BlockHash(b) && d.header.seqNum == b.header.seqNum
      requires Prevalid(c, env, d) && Genuine(d, c.BlockHash(d)) && Worked(c, d.header)
      requires c.BlockHash(d) !in tree && c.BlockHash(d) != c.BlockHash(b)
      requires
        var path := tree[b.header.prevHash] + [b];
        && DueAt(path + [d], Suggestion(env, path, d))
        && Weight(path) % UINT64 < Weight(Main()) % UINT64 && Weight(path + [d]) % UINT64 < Weight(Main()) % UINT64
      modifies this
      ensures Valid() && lastHeader == old(lastHeader) && c.BlockHash(d) in tree
      ensures tree[c.BlockHash(d)] == old(tree[b.header.prevHash]) + [b, d]
      ensures !Disjoint(ImageEntries(c), tree[c.BlockHash(d)])
    {
      hide Partitioned, Childless, Heaviest, ShortPaths, GenuineTree, GenuineBlocks, Recorded, Retargeted, Watched,
           Worked, Prevalid, Suite.HeaderHash, Weight, ImageEntries, Genuine, Disjoint, DueAt, HashesAbove, NoneIn,
           AcceptableTxns, ForkOutputs, ForkImages, PathStored, TablesOf, DifficultyFits;
      ghost var v, t, path := Now(), Kept(), tree[b.header.prevHash];
      ExactTables();
      Holds(v, c.BlockHash(b));
      forall g: nat | ForksAt(path, g) ensures g == f {
        OneFork(path, f, g);
      }
      var r;
      ghost var g: nat, h: nat;
      r, g := ExtendSideChain(b, env, false);
      LongerFork(path, b, f);
      FitsWhenDue(d, env);
      RepeatAcceptable(v, t, b, d, env, f);
      forall h: nat | ForksAt(path + [b], h) ensures h == f {
        OneFork(path + [b], f, h);
      }
      FitsOn(v, b, d, env);
      r, h := ExtendSideChain(d, env, false);
      SharedImage(c, b, d);
      RepeatedImage(c, path + [b], d, |path|, c.ImageHash(b.txns[1]));
      assert path + [b] + [d] == path + [b, d];
    }

    lemma FitsOn(v: View, b: Block, d: Block, env: Env)
      requires v.c == c && b.header.prevHash in v.tree && tree == Grown(c, v.tree, b)
      requires Prevalid(c, env, d) && Genuine(d, c.BlockHash(d)) && Worked(c, d.header)
      requires d.header.prevHash == c.BlockHash(b) && c.BlockHash(d) !in v.tree && c.BlockHash(d) != c.BlockHash(b)
      ensures Fits(d, env)
    {
      hide Suite.HeaderHash, Worked, Prevalid;
    }

    lemma ExactTables()
      requires Valid() && !reorganised
      ensures TablesOf(Now(), Kept())
    {
      hide Partitioned;
    }

    lemma FitsWhenDue(d: Block, env: Env)
      requires d.header.prevHash in tree
      requires DueAt(tree[d.header.prevHash] + [d], Suggestion(env, tree[d.header.prevHash], d))
      ensures DifficultyFits(d, env)
    {
      hide Expected, Suggestion;
    }
  }

  datatype Request = Announced(hash: Digest, env: Env, depth: nat) | Mined(block: Block, env: Env)
}
