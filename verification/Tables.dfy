/**
 The persistent tables as finite maps, batches as ordered puts and deletes, and
 what a chain of blocks leaves in a table when each block contributes its entries.
 */
module Tables {
  import opened Bytes
  import opened Primitives

  datatype Op<V> = Put(key: Digest, value: V) | Delete(key: Digest)

  function Apply<V>(t: map<Digest, V>, op: Op<V>): map<Digest, V> {
    match op
    case Put(key, value) => t[key := value]
    case Delete(key) => t - {key}
  }

  /** A batch takes effect in the order it was filled. */
  function Write<V>(t: map<Digest, V>, batch: seq<Op<V>>): map<Digest, V> {
    if batch == [] then t else Apply(Write(t, batch[..|batch| - 1]), batch[|batch| - 1])
  }

  lemma WriteOne<V>(t: map<Digest, V>, batch: seq<Op<V>>, op: Op<V>)
    ensures Write(t, batch + [op]) == Apply(Write(t, batch), op)
  {
    assert (batch + [op])[..|batch|] == batch;
  }

  // --- What blocks contribute ---

  function PutAll<V>(entries: Block -> map<Digest, V>, t: map<Digest, V>, blocks: seq<Block>): map<Digest, V> {
    if blocks == [] then t else PutAll(entries, t, blocks[..|blocks| - 1]) + entries(blocks[|blocks| - 1])
  }

  function RemoveAll<V>(entries: Block -> map<Digest, V>, t: map<Digest, V>, blocks: seq<Block>): map<Digest, V> {
    if blocks == [] then t else RemoveAll(entries, t, blocks[..|blocks| - 1]) - entries(blocks[|blocks| - 1]).Keys
  }

  /** The table built from scratch over a chain. */
  function Rebuilt<V>(entries: Block -> map<Digest, V>, chain: seq<Block>): map<Digest, V> {
    PutAll(entries, map[], chain)
  }

  /** No key is contributed by two blocks. */
  ghost predicate Disjoint<V>(entries: Block -> map<Digest, V>, blocks: seq<Block>) {
    forall i, j :: 0 <= i < j < |blocks| ==> entries(blocks[i]).Keys !! entries(blocks[j]).Keys
  }

  ghost predicate Contributes<V>(entries: Block -> map<Digest, V>, blocks: seq<Block>, k: Digest) {
    exists i :: 0 <= i < |blocks| && k in entries(blocks[i])
  }

  function Reverse<T>(s: seq<T>): (r: seq<T>)
    ensures |r| == |s| && forall i :: 0 <= i < |s| ==> r[i] == s[|s| - 1 - i]
  {
    seq(|s|, i requires 0 <= i < |s| => s[|s| - 1 - i])
  }

  lemma {:induction false} PutAllAt<V>(entries: Block -> map<Digest, V>, t: map<Digest, V>, blocks: seq<Block>,
                                       k: Digest)
    ensures k in PutAll(entries, t, blocks) <==> k in t || Contributes(entries, blocks, k)
    ensures k in t && !Contributes(entries, blocks, k) ==> PutAll(entries, t, blocks)[k] == t[k]
  {
    if blocks != [] {
      PutAllAt(entries, t, blocks[..|blocks| - 1], k);
      ContributesLast(entries, blocks, k);
    }
  }

  /** What a block contributes stays, when no other block contributes the same key. */
  lemma {:induction false} PutAllEntry<V>(entries: Block -> map<Digest, V>, t: map<Digest, V>, blocks: seq<Block>,
                                          i: nat, k: Digest)
    requires Disjoint(entries, blocks)
    requires i < |blocks| && k in entries(blocks[i])
    ensures k in PutAll(entries, t, blocks) && PutAll(entries, t, blocks)[k] == entries(blocks[i])[k]
  {
    var n := |blocks| - 1;
    if i < n {
      assert blocks[..n][i] == blocks[i];
      assert entries(blocks[i]).Keys !! entries(blocks[n]).Keys;
      PutAllEntry(entries, t, blocks[..n], i, k);
    }
  }

  lemma ContributesLast<V>(entries: Block -> map<Digest, V>, blocks: seq<Block>, k: Digest)
    requires blocks != []
    ensures var n := |blocks| - 1;
      Contributes(entries, blocks, k) <==> Contributes(entries, blocks[..n], k) || k in entries(blocks[n])
  {
    var n := |blocks| - 1;
    if i :| 0 <= i < |blocks| && k in entries(blocks[i]) {
      assert i < n ==> blocks[..n][i] == blocks[i];
    }
    if i :| 0 <= i < |blocks[..n]| && k in entries(blocks[..n][i]) {
      assert blocks[..n][i] == blocks[i];
    }
  }

  lemma {:induction false} RemoveAllAt<V>(entries: Block -> map<Digest, V>, t: map<Digest, V>, blocks: seq<Block>,
                                          k: Digest)
    ensures k in RemoveAll(entries, t, blocks) <==> k in t && !Contributes(entries, blocks, k)
    ensures k in RemoveAll(entries, t, blocks) ==> RemoveAll(entries, t, blocks)[k] == t[k]
  {
    if blocks != [] {
      RemoveAllAt(entries, t, blocks[..|blocks| - 1], k);
      ContributesLast(entries, blocks, k);
    }
  }

  lemma ContributesReverse<V>(entries: Block -> map<Digest, V>, blocks: seq<Block>, k: Digest)
    ensures Contributes(entries, Reverse(blocks), k) <==> Contributes(entries, blocks, k)
  {
    var r := Reverse(blocks);
    if i :| 0 <= i < |blocks| && k in entries(blocks[i]) {
      assert r[|blocks| - 1 - i] == blocks[i];
    }
  }

  lemma ContributesConcat<V>(entries: Block -> map<Digest, V>, a: seq<Block>, b: seq<Block>, k: Digest)
    ensures Contributes(entries, a + b, k) <==> Contributes(entries, a, k) || Contributes(entries, b, k)
  {
    if i :| 0 <= i < |a| && k in entries(a[i]) {
      assert (a + b)[i] == a[i];
    }
    if i :| 0 <= i < |b| && k in entries(b[i]) {
      assert (a + b)[|a| + i] == b[i];
    }
  }

  lemma ContributedOnce<V>(entries: Block -> map<Digest, V>, a: seq<Block>, b: seq<Block>, k: Digest)
    requires Disjoint(entries, a + b)
    ensures !(Contributes(entries, a, k) && Contributes(entries, b, k))
  {
    forall i, j | 0 <= i < |a| && 0 <= j < |b| ensures !(k in entries(a[i]) && k in entries(b[j])) {
      assert entries((a + b)[i]).Keys !! entries((a + b)[|a| + j]).Keys;
    }
  }

  lemma {:induction false} PutAllConcat<V>(entries: Block -> map<Digest, V>, t: map<Digest, V>, a: seq<Block>,
                                           b: seq<Block>)
    ensures PutAll(entries, t, a + b) == PutAll(entries, PutAll(entries, t, a), b)
  {
    if b == [] {
      assert a + b == a;
    } else {
      PutAllConcat(entries, t, a, b[..|b| - 1]);
      assert (a + b)[..|a + b| - 1] == a + b[..|b| - 1];
    }
  }

  lemma DisjointReverse<V>(entries: Block -> map<Digest, V>, blocks: seq<Block>)
    requires Disjoint(entries, blocks)
    ensures Disjoint(entries, Reverse(blocks))
  {
    var r, n := Reverse(blocks), |blocks|;
    forall i, j | 0 <= i < j < n ensures entries(r[i]).Keys !! entries(r[j]).Keys {
      assert entries(blocks[n - 1 - j]).Keys !! entries(blocks[n - 1 - i]).Keys;
    }
  }

  /** With disjoint keys the order in which blocks are put does not matter. */
  lemma PutAllReverse<V>(entries: Block -> map<Digest, V>, t: map<Digest, V>, blocks: seq<Block>)
    requires Disjoint(entries, blocks)
    ensures PutAll(entries, t, Reverse(blocks)) == PutAll(entries, t, blocks)
  {
    DisjointReverse(entries, blocks);
    var x, y := PutAll(entries, t, Reverse(blocks)), PutAll(entries, t, blocks);
    forall k: Digest
      ensures k in x <==> k in y
      ensures k in x ==> x[k] == y[k]
    {
      PutAllAt(entries, t, blocks, k);
      PutAllAt(entries, t, Reverse(blocks), k);
      ContributesReverse(entries, blocks, k);
      if i :| 0 <= i < |blocks| && k in entries(blocks[i]) {
        PutAllEntry(entries, t, blocks, i, k);
        PutAllEntry(entries, t, Reverse(blocks), |blocks| - 1 - i, k);
      }
    }
  }

  /** Removing a tail restores the table of the rest exactly when the two share no key. */
  lemma RemoveTail<V>(entries: Block -> map<Digest, V>, prefix: seq<Block>, tail: seq<Block>)
    ensures RemoveAll(entries, Rebuilt(entries, prefix + tail), Reverse(tail)) == Rebuilt(entries, prefix)
       <==> forall k :: !(Contributes(entries, prefix, k) && Contributes(entries, tail, k))
  {
    var rest := Rebuilt(entries, prefix);
    PutAllConcat(entries, map[], prefix, tail);
    var whole := PutAll(entries, rest, tail);
    var left := RemoveAll(entries, whole, Reverse(tail));
    forall k: Digest
      ensures k in left <==> k in rest && !Contributes(entries, tail, k)
      ensures k in left ==> left[k] == rest[k]
      ensures k in rest <==> Contributes(entries, prefix, k)
    {
      RemoveAllAt(entries, whole, Reverse(tail), k);
      ContributesReverse(entries, tail, k);
      PutAllAt(entries, rest, tail, k);
      PutAllAt(entries, map[], prefix, k);
    }
  }

  /**
   Replacing one tail of a chain by another, removals first and both tails walked
   from the tip down, leaves exactly the table built from scratch over the new
   chain, even when the two tails share keys.
   */
  lemma SwapTail<V>(entries: Block -> map<Digest, V>, prefix: seq<Block>, out: seq<Block>, into: seq<Block>)
    requires Disjoint(entries, prefix + out) && Disjoint(entries, prefix + into)
    ensures PutAll(entries, RemoveAll(entries, Rebuilt(entries, prefix + out), Reverse(out)), Reverse(into))
         == Rebuilt(entries, prefix + into)
  {
    RemoveTail(entries, prefix, out);
    forall k: Digest ensures !(Contributes(entries, prefix, k) && Contributes(entries, out, k)) {
      ContributedOnce(entries, prefix, out, k);
    }
    DisjointTail(entries, prefix, into);
    PutAllReverse(entries, Rebuilt(entries, prefix), into);
    PutAllConcat(entries, map[], prefix, into);
  }

  lemma DisjointTail<V>(entries: Block -> map<Digest, V>, prefix: seq<Block>, tail: seq<Block>)
    requires Disjoint(entries, prefix + tail)
    ensures Disjoint(entries, tail) && Disjoint(entries, prefix)
  {
    forall i, j | 0 <= i < j < |tail| ensures entries(tail[i]).Keys !! entries(tail[j]).Keys {
      assert (prefix + tail)[|prefix| + i] == tail[i] && (prefix + tail)[|prefix| + j] == tail[j];
    }
    forall i, j | 0 <= i < j < |prefix| ensures entries(prefix[i]).Keys !! entries(prefix[j]).Keys {
      assert (prefix + tail)[i] == prefix[i] && (prefix + tail)[j] == prefix[j];
    }
  }

  // --- Main and side tables ---

  /** The main table is that of the chain, and the side table holds everything else. */
  ghost predicate Split<V>(entries: Block -> map<Digest, V>, all: map<Digest, V>, chain: seq<Block>,
                           main: map<Digest, V>, side: map<Digest, V>) {
    main == Rebuilt(entries, chain) && side == all - main.Keys
  }

  ghost predicate Within<V>(entries: Block -> map<Digest, V>, all: map<Digest, V>, blocks: seq<Block>) {
    forall i :: 0 <= i < |blocks| ==> entries(blocks[i]).Items <= all.Items
  }

  /** Moving one tail to the side table and another off it, both walked from the tip down, keeps the split. */
  lemma SwapSplit<V>(entries: Block -> map<Digest, V>, all: map<Digest, V>, prefix: seq<Block>, out: seq<Block>,
                     into: seq<Block>, main: map<Digest, V>, side: map<Digest, V>)
    requires Split(entries, all, prefix + out, main, side) && Within(entries, all, out)
    requires Disjoint(entries, prefix + out) && Disjoint(entries, prefix + into)
    ensures Split(entries, all, prefix + into,
                  PutAll(entries, RemoveAll(entries, main, Reverse(out)), Reverse(into)),
                  RemoveAll(entries, PutAll(entries, side, Reverse(out)), Reverse(into)))
  {
    SwapTail(entries, prefix, out, into);
    DisjointTail(entries, prefix, out);
    var rest := all - Rebuilt(entries, prefix + into).Keys;
    var moved := PutAll(entries, side, Reverse(out));
    var left := RemoveAll(entries, moved, Reverse(into));
    forall k: Digest
      ensures k in left <==> k in rest
      ensures k in left ==> left[k] == rest[k]
    {
      PutAllAt(entries, map[], prefix + out, k);
      PutAllAt(entries, map[], prefix + into, k);
      ContributesConcat(entries, prefix, out, k);
      ContributesConcat(entries, prefix, into, k);
      ContributedOnce(entries, prefix, out, k);
      PutAllReverse(entries, side, out);
      PutAllAt(entries, side, out, k);
      RemoveAllAt(entries, moved, Reverse(into), k);
      ContributesReverse(entries, into, k);
      if i :| 0 <= i < |out| && k in entries(out[i]) {
        PutAllEntry(entries, side, out, i, k);
        assert (k, entries(out[i])[k]) in entries(out[i]).Items;
      }
    }
  }

  /** What a block puts under a key does not depend on the table it is put into. */
  lemma {:induction false} PutAllOver<V>(entries: Block -> map<Digest, V>, t: map<Digest, V>, blocks: seq<Block>,
                                         k: Digest)
    requires Contributes(entries, blocks, k)
    ensures k in PutAll(entries, t, blocks) && k in PutAll(entries, map[], blocks)
    ensures PutAll(entries, t, blocks)[k] == PutAll(entries, map[], blocks)[k]
  {
    var n := |blocks| - 1;
    ContributesLast(entries, blocks, k);
    if k !in entries(blocks[n]) {
      PutAllOver(entries, t, blocks[..n], k);
    }
  }

  /** A list of blocks leaves the same table from either end. */
  ghost predicate EitherWay<V>(entries: Block -> map<Digest, V>, blocks: seq<Block>) {
    PutAll(entries, map[], Reverse(blocks)) == PutAll(entries, map[], blocks)
  }

  /** Whatever the rest of the chain and the outgoing tail both contribute, the incoming tail contributes too. */
  ghost predicate Replaces<V>(entries: Block -> map<Digest, V>, prefix: seq<Block>, out: seq<Block>, into: seq<Block>) {
    forall k ::
      Contributes(entries, prefix, k) && Contributes(entries, out, k) ==> Contributes(entries, into, k)
  }

  /** The table of a chain after its tail out has been removed and into added, both from the tip down. */
  function SwappedTable<V>(entries: Block -> map<Digest, V>, prefix: seq<Block>, out: seq<Block>, into: seq<Block>)
    : map<Digest, V>
  {
    PutAll(entries, RemoveAll(entries, Rebuilt(entries, prefix + out), Reverse(out)), Reverse(into))
  }

  lemma SwappedAt<V>(entries: Block -> map<Digest, V>, prefix: seq<Block>, out: seq<Block>, into: seq<Block>, k: Digest)
    ensures
      var swapped, rebuilt := SwappedTable(entries, prefix, out, into), Rebuilt(entries, prefix + into);
      var p, o, i := Contributes(entries, prefix, k), Contributes(entries, out, k), Contributes(entries, into, k);
      && (k in swapped <==> (p && !o) || i)
      && (k in rebuilt <==> p || i)
      && (i ==> k in PutAll(entries, map[], Reverse(into)) && k in PutAll(entries, map[], into)
                && swapped[k] == PutAll(entries, map[], Reverse(into))[k]
                && rebuilt[k] == PutAll(entries, map[], into)[k])
      && (!i && p && !o ==> swapped[k] == rebuilt[k])
  {
    hide PutAll, RemoveAll, Contributes;
    var rest := PutAll(entries, map[], prefix);
    var whole := PutAll(entries, rest, out);
    var left := RemoveAll(entries, whole, Reverse(out));
    PutAllConcat(entries, map[], prefix, out);
    PutAllConcat(entries, map[], prefix, into);
    PutAllAt(entries, map[], prefix, k);
    PutAllAt(entries, rest, out, k);
    PutAllAt(entries, rest, into, k);
    RemoveAllAt(entries, whole, Reverse(out), k);
    PutAllAt(entries, left, Reverse(into), k);
    ContributesReverse(entries, out, k);
    ContributesReverse(entries, into, k);
    if Contributes(entries, into, k) {
      PutAllOver(entries, left, Reverse(into), k);
      PutAllOver(entries, rest, into, k);
    }
  }

  /**
   Replacing one tail by another rebuilds the table exactly if and only if no key of the
   rest is lost with the outgoing tail and the order of the incoming one does not matter.
   */
  lemma SwapExact<V>(entries: Block -> map<Digest, V>, prefix: seq<Block>, out: seq<Block>, into: seq<Block>)
    ensures SwappedTable(entries, prefix, out, into) == Rebuilt(entries, prefix + into)
       <==> Replaces(entries, prefix, out, into) && EitherWay(entries, into)
  {
    hide Rebuilt, PutAll, SwappedTable, Contributes;
    var swapped, rebuilt := SwappedTable(entries, prefix, out, into), Rebuilt(entries, prefix + into);
    var down, up := PutAll(entries, map[], Reverse(into)), PutAll(entries, map[], into);
    forall k: Digest
      ensures k in down <==> Contributes(entries, into, k)
      ensures k in up <==> Contributes(entries, into, k)
    {
      PutAllAt(entries, map[], Reverse(into), k);
      PutAllAt(entries, map[], into, k);
      ContributesReverse(entries, into, k);
    }
    if Replaces(entries, prefix, out, into) && EitherWay(entries, into) {
      forall k: Digest
        ensures k in swapped <==> k in rebuilt
        ensures k in swapped ==> swapped[k] == rebuilt[k]
      {
        SwappedAt(entries, prefix, out, into, k);
      }
    }
    if swapped == rebuilt {
      forall k: Digest
        ensures Contributes(entries, prefix, k) && Contributes(entries, out, k) ==> Contributes(entries, into, k)
        ensures k in down ==> down[k] == up[k]
      {
        SwappedAt(entries, prefix, out, into, k);
      }
    }
  }

  /** Swapping to another tail and back restores the table. */
  lemma SwapBackRestores<V>(entries: Block -> map<Digest, V>, prefix: seq<Block>, out: seq<Block>, into: seq<Block>)
    requires Disjoint(entries, prefix + out) && Disjoint(entries, prefix + into)
    ensures
      var there := PutAll(entries, RemoveAll(entries, Rebuilt(entries, prefix + out), Reverse(out)), Reverse(into));
      PutAll(entries, RemoveAll(entries, there, Reverse(into)), Reverse(out)) == Rebuilt(entries, prefix + out)
  {
    SwapTail(entries, prefix, out, into);
    SwapTail(entries, prefix, into, out);
  }

  /** A new block on top of the chain goes into the main table. */
  lemma SplitExtends<V>(entries: Block -> map<Digest, V>, all: map<Digest, V>, chain: seq<Block>,
                        main: map<Digest, V>, side: map<Digest, V>, b: Block)
    requires Split(entries, all, chain, main, side) && entries(b).Keys !! all.Keys
    ensures Split(entries, all + entries(b), chain + [b], main + entries(b), side)
  {
    assert (chain + [b])[..|chain|] == chain;
    assert side == (all + entries(b)) - (main + entries(b)).Keys;
  }

  /** A new block elsewhere goes into the side table. */
  lemma SplitAside<V>(entries: Block -> map<Digest, V>, all: map<Digest, V>, chain: seq<Block>,
                      main: map<Digest, V>, side: map<Digest, V>, b: Block)
    requires Split(entries, all, chain, main, side) && entries(b).Keys !! main.Keys
    ensures Split(entries, all + entries(b), chain, main, side + entries(b))
  {
    assert side + entries(b) == (all + entries(b)) - main.Keys;
  }
}
