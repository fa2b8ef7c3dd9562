/** Where two stored paths fork, and what the main and side tables answer along them. */
module Forks {
  import opened Bytes
  import opened Primitives
  import opened Tables
  import opened BlockTree

  /** The stored blocks, the block the main chain ends in, and the four tables that hold them. */
  datatype View = View(c: Suite, genesis: Block, tree: Tree, tip: Digest,
                       headers: map<Digest, Header>, sideHeaders: map<Digest, Header>,
                       blocks: map<Digest, Block>, sideBlocks: map<Digest, Block>)

  /** Main and side tables are a partition of the stored blocks, the main ones being those up to the tip. */
  ghost predicate Partitioned(v: View) {
    && WellLinked(v.c, v.genesis, v.tree) && v.tip in v.tree
    && Split(HeaderEntries(v.c), AllHeaders(v.tree), v.tree[v.tip], v.headers, v.sideHeaders)
    && Split(BlockEntries(v.c), AllBlocks(v.tree), v.tree[v.tip], v.blocks, v.sideBlocks)
  }

  ghost predicate Heaviest(tree: Tree, tip: Digest)
    requires tip in tree
  {
    forall k :: k in tree ==> Weight(tree[k]) <= Weight(tree[tip])
  }

  /** No stored block stands on the tip. */
  ghost predicate Childless(tree: Tree, tip: Digest) {
    forall k :: k in tree && tree[k] != [] ==> Last(tree[k]).header.prevHash != tip
  }

  /** The hash that stands below the first n blocks of a path. */
  function HashAt(c: Suite, path: seq<Block>, n: nat): Digest
    requires n <= |path|
  {
    if n == 0 then ZERO_DIGEST else c.BlockHash(path[n - 1])
  }

  /** The hashes of a list of blocks, in the same order. */
  ghost predicate HashesOf(c: Suite, hashes: seq<Digest>, blocks: seq<Block>) {
    |hashes| == |blocks| && forall i :: 0 <= i < |hashes| ==> hashes[i] == c.BlockHash(blocks[i])
  }

  ghost predicate NoneIn<V>(c: Suite, blocks: seq<Block>, t: map<Digest, V>) {
    forall i :: 0 <= i < |blocks| ==> c.BlockHash(blocks[i]) !in t
  }

  lemma ReverseSlice(c: Suite, hashes: seq<Digest>, path: seq<Block>, n: nat)
    requires 0 < n <= |path| && HashesOf(c, hashes, Reverse(path[n..]))
    ensures HashesOf(c, hashes + [HashAt(c, path, n)], Reverse(path[n - 1..]))
  {
    assert Reverse(path[n - 1..]) == Reverse(path[n..]) + [path[n - 1]];
  }

  lemma OnOwnPath(c: Suite, path: seq<Block>, n: nat)
    requires 0 < n <= |path|
    ensures OnPath(c, path, HashAt(c, path, n))
  {
    assert c.BlockHash(path[n - 1]) == HashAt(c, path, n);
  }

  /** A stored path is never empty, ends in the block it is stored for and starts at the genesis block. */
  lemma PathEnds(v: View, k: Digest)
    requires Partitioned(v) && k in v.tree
    ensures
      var p := v.tree[k];
      && p != [] && p[0] == v.genesis && HashAt(v.c, p, |p|) == k && k != ZERO_DIGEST
      && Last(p).header.difficulty < DIFFICULTY_LIMIT
  {
    assert PathTo(v.c, v.genesis, v.tree, k);
  }

  lemma ParentBelow(v: View, k: Digest)
    requires Partitioned(v) && k in v.tree && (v.tree[k] != [] ==> Last(v.tree[k]).header.prevHash != ZERO_DIGEST)
    ensures
      && v.tree[k] != [] && Last(v.tree[k]).header.prevHash in v.tree
      && |v.tree[Last(v.tree[k]).header.prevHash]| + 1 == |v.tree[k]|
  {
    assert PathTo(v.c, v.genesis, v.tree, k);
  }

  lemma ZeroNotStored(v: View)
    requires Partitioned(v)
    ensures ZERO_DIGEST !in v.tree
  {
    assert ZERO_DIGEST in v.tree ==> PathTo(v.c, v.genesis, v.tree, ZERO_DIGEST);
  }

  /** What the tables answer for the hash below the first n blocks of a stored path. */
  lemma Lookup(v: View, k: Digest, n: nat)
    requires Partitioned(v) && k in v.tree && n <= |v.tree[k]|
    ensures
      var path, main := v.tree[k], v.tree[v.tip];
      var h := HashAt(v.c, path, n);
      && (h in v.headers <==> h in v.blocks)
      && (h in v.headers <==> OnPath(v.c, main, h))
      && (h in v.headers <==> 0 < n <= |main| && main[..n] == path[..n])
      && (n == 0 ==> h !in v.sideHeaders && h !in v.tree)
      && (n > 0 ==>
            && h in v.tree && v.tree[h] == path[..n]
            && path[n - 1].header.prevHash == HashAt(v.c, path, n - 1)
            && path[n - 1].header.difficulty < DIFFICULTY_LIMIT
            && (h in v.headers ==> v.headers[h] == path[n - 1].header && v.blocks[h] == path[n - 1]
                                   && h !in v.sideHeaders && h !in v.sideBlocks)
            && (h !in v.headers ==> h in v.sideHeaders && v.sideHeaders[h] == path[n - 1].header
                                    && h in v.sideBlocks && v.sideBlocks[h] == path[n - 1]))
  {
    hide WellLinked, Rebuilt, Suite.BlockHash;
    var path, main := v.tree[k], v.tree[v.tip];
    var h := HashAt(v.c, path, n);
    RebuiltHolds(v.c, v.genesis, v.tree, v.tip, h);
    if n == 0 {
      ZeroNotStored(v);
    } else {
      PathPrefix(v.c, v.genesis, v.tree, k, n - 1);
      if n <= |main| && main[..n] == path[..n] {
        assert main[..n][n - 1] == path[..n][n - 1];
        OnOwnPath(v.c, main, n);
      }
    }
  }

  /** Everything below a block of the main chain is on the main chain. */
  lemma BelowMain(v: View, k: Digest, n: nat, m: nat)
    requires Partitioned(v) && k in v.tree && 0 < m <= n <= |v.tree[k]| && HashAt(v.c, v.tree[k], n) in v.headers
    ensures HashAt(v.c, v.tree[k], m) in v.headers
  {
    var path, main := v.tree[k], v.tree[v.tip];
    Lookup(v, k, n);
    Lookup(v, k, m);
    assert main[..m] == main[..n][..m] == path[..n][..m] == path[..m];
  }

  /** The tables hold exactly the stored blocks. */
  lemma Holds(v: View, k: Digest)
    requires Partitioned(v)
    ensures k in v.headers || k in v.sideHeaders <==> k in v.tree
    ensures k in v.headers <==> k in v.blocks
    ensures k in v.headers ==> k !in v.sideHeaders
    ensures k in v.blocks ==> v.c.BlockHash(v.blocks[k]) == k
    ensures v.tip in v.headers && v.headers[v.tip] == Last(v.tree[v.tip]).header
  {
    RebuiltHolds(v.c, v.genesis, v.tree, v.tip, k);
    if k in v.tree {
      PathEnds(v, k);
    }
    PathEnds(v, v.tip);
    Lookup(v, v.tip, |v.tree[v.tip]|);
    assert v.tree[v.tip][..|v.tree[v.tip]|] == v.tree[v.tip];
  }

  lemma HoldsBlocks(v: View, k: Digest)
    requires Partitioned(v) && k !in v.tree
    ensures k !in v.blocks && k !in v.sideBlocks
  {
    Holds(v, k);
  }

  lemma OneEntry<V>(t: map<Digest, V>, k: Digest, x: V)
    ensures t + map[k := x] == t[k := x]
  {
  }

  lemma GrownHeaders(c: Suite, tree: Tree, b: Block)
    requires b.header.prevHash in tree
    ensures AllHeaders(Grown(c, tree, b)) == AllHeaders(tree)[c.BlockHash(b) := b.header]
  {
    hide Suite.BlockHash;
  }

  lemma GrownBlocks(c: Suite, tree: Tree, b: Block)
    requires b.header.prevHash in tree
    ensures AllBlocks(Grown(c, tree, b)) == AllBlocks(tree)[c.BlockHash(b) := b]
  {
    hide Suite.BlockHash;
  }

  /** The blocks stored after one more is put on top of the main chain. */
  function Extended(v: View, b: Block): View
    requires b.header.prevHash in v.tree
  {
    var h := v.c.BlockHash(b);
    v.(tree := Grown(v.c, v.tree, b), tip := h, headers := v.headers[h := b.header], blocks := v.blocks[h := b])
  }

  /** The blocks stored after one more is put anywhere else. */
  function Aside(v: View, b: Block): View
    requires b.header.prevHash in v.tree
  {
    var h := v.c.BlockHash(b);
    v.(tree := Grown(v.c, v.tree, b), sideHeaders := v.sideHeaders[h := b.header], sideBlocks := v.sideBlocks[h := b])
  }

  lemma ExtendedPartitioned(v: View, b: Block)
    requires Partitioned(v) && CanGrow(v.c, v.tree, b) && b.header.prevHash == v.tip
    ensures Partitioned(Extended(v, b))
  {
    hide WellLinked, Split, Rebuilt, AllHeaders, AllBlocks, Suite.BlockHash;
    var h := v.c.BlockHash(b);
    GrownWellLinked(v.c, v.genesis, v.tree, b);
    GrownHeaders(v.c, v.tree, b);
    GrownBlocks(v.c, v.tree, b);
    AllKeys(v.tree);
    OneEntry(v.headers, h, b.header);
    OneEntry(v.blocks, h, b);
    OneEntry(AllHeaders(v.tree), h, b.header);
    OneEntry(AllBlocks(v.tree), h, b);
    SplitExtends(HeaderEntries(v.c), AllHeaders(v.tree), v.tree[v.tip], v.headers, v.sideHeaders, b);
    SplitExtends(BlockEntries(v.c), AllBlocks(v.tree), v.tree[v.tip], v.blocks, v.sideBlocks, b);
  }

  lemma AsidePartitioned(v: View, b: Block)
    requires Partitioned(v) && CanGrow(v.c, v.tree, b)
    ensures Partitioned(Aside(v, b))
  {
    hide WellLinked, Split, Rebuilt, AllHeaders, AllBlocks, Suite.BlockHash;
    var h := v.c.BlockHash(b);
    Holds(v, h);
    GrownWellLinked(v.c, v.genesis, v.tree, b);
    GrownHeaders(v.c, v.tree, b);
    GrownBlocks(v.c, v.tree, b);
    OneEntry(v.sideHeaders, h, b.header);
    OneEntry(v.sideBlocks, h, b);
    OneEntry(AllHeaders(v.tree), h, b.header);
    OneEntry(AllBlocks(v.tree), h, b);
    SplitAside(HeaderEntries(v.c), AllHeaders(v.tree), v.tree[v.tip], v.headers, v.sideHeaders, b);
    SplitAside(BlockEntries(v.c), AllBlocks(v.tree), v.tree[v.tip], v.blocks, v.sideBlocks, b);
  }

  lemma AllKeys(tree: Tree)
    ensures AllHeaders(tree).Keys <= tree.Keys && AllBlocks(tree).Keys <= tree.Keys
  {
  }

  /** The tables after the main chain's blocks above height f have changed places with those of another path. */
  ghost function Swapped(v: View, tip: Digest, f: nat): View
    requires v.tip in v.tree && tip in v.tree && f <= |v.tree[v.tip]| && f <= |v.tree[tip]|
  {
    var out, into := Reverse(v.tree[v.tip][f..]), Reverse(v.tree[tip][f..]);
    var HE, BE := HeaderEntries(v.c), BlockEntries(v.c);
    v.(tip := tip,
       headers := PutAll(HE, RemoveAll(HE, v.headers, out), into),
       sideHeaders := RemoveAll(HE, PutAll(HE, v.sideHeaders, out), into),
       blocks := PutAll(BE, RemoveAll(BE, v.blocks, out), into),
       sideBlocks := RemoveAll(BE, PutAll(BE, v.sideBlocks, out), into))
  }

  lemma PathWithin(v: View, k: Digest, f: nat)
    requires Partitioned(v) && k in v.tree && f <= |v.tree[k]|
    ensures Within(HeaderEntries(v.c), AllHeaders(v.tree), v.tree[k][f..])
    ensures Within(BlockEntries(v.c), AllBlocks(v.tree), v.tree[k][f..])
  {
    hide WellLinked, Split, Rebuilt, Suite.BlockHash;
    var tail := v.tree[k][f..];
    forall i | 0 <= i < |tail|
      ensures HeaderEntries(v.c)(tail[i]).Items <= AllHeaders(v.tree).Items
      ensures BlockEntries(v.c)(tail[i]).Items <= AllBlocks(v.tree).Items
    {
      var h := v.c.BlockHash(tail[i]);
      PathPrefix(v.c, v.genesis, v.tree, k, f + i);
      OneItem(h, tail[i].header, AllHeaders(v.tree));
      OneItem(h, tail[i], AllBlocks(v.tree));
    }
  }

  lemma OneItem<V>(k: Digest, x: V, t: map<Digest, V>)
    requires k in t && t[k] == x
    ensures map[k := x].Items <= t.Items
  {
    assert (k, x) in t.Items;
  }

  /** A reorganisation leaves main and side tables a partition of the same blocks, for the new main chain. */
  lemma SwappedPartitioned(v: View, tip: Digest, f: nat)
    requires Partitioned(v) && tip in v.tree
    requires f <= |v.tree[v.tip]| && f <= |v.tree[tip]| && v.tree[v.tip][..f] == v.tree[tip][..f]
    ensures Partitioned(Swapped(v, tip, f))
  {
    hide WellLinked, Split, Rebuilt, Disjoint, Within;
    var a, b := v.tree[v.tip], v.tree[tip];
    assert a == a[..f] + a[f..] && b == a[..f] + b[f..];
    PathDisjoint(v.c, v.genesis, v.tree, v.tip);
    PathDisjoint(v.c, v.genesis, v.tree, tip);
    PathWithin(v, v.tip, f);
    SwapSplit(HeaderEntries(v.c), AllHeaders(v.tree), a[..f], a[f..], b[f..], v.headers, v.sideHeaders);
    SwapSplit(BlockEntries(v.c), AllBlocks(v.tree), a[..f], a[f..], b[f..], v.blocks, v.sideBlocks);
  }

  /** Reorganising to another path and back restores all four tables. */
  lemma SwappedBack(v: View, tip: Digest, f: nat)
    requires Partitioned(v) && tip in v.tree
    requires f <= |v.tree[v.tip]| && f <= |v.tree[tip]| && v.tree[v.tip][..f] == v.tree[tip][..f]
    ensures Swapped(Swapped(v, tip, f), v.tip, f) == v
  {
    hide WellLinked, Rebuilt, Swapped;
    SwappedPartitioned(v, tip, f);
    SwappedKeeps(v, tip, f);
    SwappedPartitioned(Swapped(v, tip, f), v.tip, f);
    SwappedKeeps(Swapped(v, tip, f), v.tip, f);
  }

  lemma SwappedKeeps(v: View, tip: Digest, f: nat)
    requires v.tip in v.tree && tip in v.tree && f <= |v.tree[v.tip]| && f <= |v.tree[tip]|
    ensures
      var w := Swapped(v, tip, f);
      w.c == v.c && w.genesis == v.genesis && w.tree == v.tree && w.tip == tip
  {
  }

  /** A block put aside can be the tip of a heavier path only by its own path. */
  lemma GrownHeaviest(c: Suite, genesis: Block, tree: Tree, tip: Digest, b: Block)
    requires tip in tree && Heaviest(tree, tip) && CanGrow(c, tree, b)
    ensures
      var grown, h := Grown(c, tree, b), c.BlockHash(b);
      && (Weight(tree[tip]) >= Weight(grown[h]) ==> Heaviest(grown, tip))
      && (Weight(tree[tip]) <= Weight(grown[h]) ==> Heaviest(grown, h))
  {
    hide Weight;
  }

  lemma GrownChildless(v: View, b: Block)
    requires Partitioned(v) && CanGrow(v.c, v.tree, b)
    ensures
      var grown, h := Grown(v.c, v.tree, b), v.c.BlockHash(b);
      && Childless(grown, h)
      && (Childless(v.tree, v.tip) && b.header.prevHash != v.tip ==> Childless(grown, v.tip))
  {
    var grown, h := Grown(v.c, v.tree, b), v.c.BlockHash(b);
    forall k | k in grown && grown[k] != [] ensures Last(grown[k]).header.prevHash != h {
      if k in v.tree {
        PathEnds(v, k);
        assert PathTo(v.c, v.genesis, v.tree, k);
      }
    }
  }

  /** Every stored path starts on the main chain. */
  lemma GenesisOnMain(v: View, k: Digest, n: nat)
    requires Partitioned(v) && k in v.tree && n <= |v.tree[k]| && HashAt(v.c, v.tree[k], n) !in v.headers
    ensures n != 1
  {
    if n == 1 {
      PathEnds(v, k);
      PathEnds(v, v.tip);
      assert v.tree[k][..1] == v.tree[v.tip][..1];
      Lookup(v, k, 1);
    }
  }

  /** On the main chain a height is known by the hash there. */
  lemma HashesDiffer(v: View, f: nat)
    requires Partitioned(v) && f <= |v.tree[v.tip]|
    ensures
      var main := v.tree[v.tip];
      forall n: nat :: n <= |main| && HashAt(v.c, main, n) == HashAt(v.c, main, f) ==> n == f
  {
    var main := v.tree[v.tip];
    forall n: nat | n <= |main| && HashAt(v.c, main, n) == HashAt(v.c, main, f) ensures n == f {
      Lookup(v, v.tip, n);
      Lookup(v, v.tip, f);
    }
  }

  /**
   Putting a block aside keeps the partition if and only if it is not on the main chain,
   whether it is new or stored aside already by the same path.
   */
  lemma AsideTwice(v: View, b: Block)
    requires Partitioned(v) && b.header.prevHash in v.tree && Worked(v.c, b.header) && v.c.BlockHash(b) != ZERO_DIGEST
    requires v.c.BlockHash(b) in v.tree ==> v.tree[v.c.BlockHash(b)] == v.tree[b.header.prevHash] + [b]
    ensures Partitioned(Aside(v, b)) <==> v.c.BlockHash(b) !in v.headers
  {
    hide Partitioned, Worked, Suite.BlockHash;
    var h := v.c.BlockHash(b);
    Holds(v, h);
    if h !in v.tree {
      AsidePartitioned(v, b);
    } else if h in v.headers {
      AsideTwiceBreaks(v, b);
    } else {
      AsideAgain(v, b);
    }
  }

  lemma AsideTwiceBreaks(v: View, b: Block)
    requires b.header.prevHash in v.tree && v.c.BlockHash(b) in v.headers
    ensures !Partitioned(Aside(v, b))
  {
    if Partitioned(Aside(v, b)) {
      Holds(Aside(v, b), v.c.BlockHash(b));
    }
  }

  lemma AsideAgain(v: View, b: Block)
    requires Partitioned(v) && b.header.prevHash in v.tree && v.c.BlockHash(b) in v.tree
    requires v.tree[v.c.BlockHash(b)] == v.tree[b.header.prevHash] + [b] && v.c.BlockHash(b) !in v.headers
    ensures Aside(v, b) == v
  {
    hide Partitioned;
    var h := v.c.BlockHash(b);
    PathEnds(v, h);
    Lookup(v, h, |v.tree[h]|);
    SameEntry(v.tree, h);
    SameEntry(v.sideHeaders, h);
    SameEntry(v.sideBlocks, h);
  }

  lemma SameEntry<V>(t: map<Digest, V>, k: Digest)
    requires k in t
    ensures t[k := t[k]] == t
  {
  }

  /** A tip below blocks that the header table still holds breaks the partition. */
  lemma TipBelow(v: View, k: Digest)
    requires v.tip in v.tree && k in v.headers && k in v.tree && |v.tree[k]| > |v.tree[v.tip]|
    ensures !Partitioned(v)
  {
    hide WellLinked, Rebuilt;
    if Partitioned(v) {
      RebuiltHolds(v.c, v.genesis, v.tree, v.tip, k);
    }
  }

  /** The blocks stored after a first block has been written over the genesis block and made the tip. */
  function FirstAgainView(v: View, b: Block): View {
    var h := v.c.BlockHash(b);
    v.(tip := h, headers := v.headers[h := b.header], blocks := v.blocks[h := b])
  }

  lemma FirstAgain(v: View, b: Block)
    requires Partitioned(v) && v.c.BlockHash(b) == v.c.BlockHash(v.genesis) && b.header == v.genesis.header
    requires v.c.BlockHash(b) in v.tree && |v.tree[v.c.BlockHash(b)]| == 1 && v.tip in v.tree
    ensures Partitioned(FirstAgainView(v, b)) <==> |v.tree[v.tip]| == 1 && b == v.genesis
  {
    hide Partitioned, Suite.BlockHash;
    var w, h, main := FirstAgainView(v, b), v.c.BlockHash(b), v.tree[v.tip];
    PathEnds(v, v.tip);
    PathEnds(v, h);
    Lookup(v, v.tip, 1);
    assert main[..1] == [v.genesis];
    if |main| > 1 {
      Holds(v, v.tip);
      TipBelow(w, v.tip);
    } else if b == v.genesis {
      assert main == [v.genesis];
      SameEntry(v.headers, h);
      SameEntry(v.blocks, h);
    } else {
      if Partitioned(w) {
        PathEnds(w, h);
        Lookup(w, h, 1);
      }
    }
  }

  lemma NoneAt<V>(c: Suite, blocks: seq<Block>, t: map<Digest, V>, i: nat)
    requires NoneIn(c, blocks, t) && i < |blocks|
    ensures c.BlockHash(blocks[i]) !in t
  {
  }

  /** A path that shares its first g blocks with a chain all of whose blocks are stored leaves it no lower than g. */
  lemma ForkNotBelow<V>(c: Suite, main: seq<Block>, path: seq<Block>, t: map<Digest, V>, f: nat, g: nat)
    requires f <= |path| && g <= |path| && g <= |main| && path[..g] == main[..g]
    requires NoneIn(c, path[f..], t) && forall i :: 0 <= i < |main| ==> c.BlockHash(main[i]) in t
    ensures g <= f
  {
    if f < g {
      SharedAt(main, path, g, f);
      NoneAt(c, path[f..], t, 0);
    }
  }

  lemma SharedAt(main: seq<Block>, path: seq<Block>, g: nat, i: nat)
    requires i < g <= |path| && g <= |main| && path[..g] == main[..g]
    ensures path[i] == main[i]
  {
    assert path[..g][i] == main[..g][i];
  }
}
