/** Retargeting: how far the difficulty of a chain can drift from where it starts. */
module Difficulty {
  import opened Bytes
  import opened Primitives

  const INITIAL_DIFFICULTY: nat := 16
  const DIFFICULTY_SPACING: nat := 2016
  const NO_ANCESTOR: nat := 0x8000_0000_0000_0000

  /** Whatever target the block times suggest, the next one is within one step of the old one, unless that wraps. */
  method Retarget(oldTarget: nat, suggested: nat) returns (newTarget: nat)
    requires oldTarget < UINT64
    ensures oldTarget + 1 < UINT64 ==>
      oldTarget - 1 <= newTarget <= oldTarget + 1 && newTarget == Clamped(oldTarget, suggested)
    ensures oldTarget + 1 < UINT64 ==>
      forall other: nat :: oldTarget - 1 <= other <= oldTarget + 1 ==>
        other == newTarget || Distance(newTarget, suggested) < Distance(other, suggested)
    ensures oldTarget + 1 == UINT64 ==> newTarget == 0
  {
    newTarget := suggested;
    var lowerBound := 0;
    if oldTarget > 0 {
      lowerBound := oldTarget - 1;
    }
    var upperBound := (oldTarget + 1) % UINT64;
    if newTarget < lowerBound {
      newTarget := lowerBound;
    }
    if newTarget > upperBound {
      newTarget := upperBound;
    }
  }

  function Clamped(oldTarget: nat, suggested: nat): nat {
    if suggested + 1 < oldTarget then oldTarget - 1
    else if suggested > oldTarget + 1 then oldTarget + 1
    else suggested
  }

  /** How far two targets are apart. */
  function Distance(a: int, b: int): nat {
    if a < b then b - a else a - b
  }

  /** Of all targets within one step of the old one, the new one is the nearest to the suggestion. */
  lemma ClampedIsNearest(oldTarget: nat, suggested: nat, other: nat)
    requires oldTarget - 1 <= other <= oldTarget + 1
    ensures oldTarget - 1 <= Clamped(oldTarget, suggested) <= oldTarget + 1
    ensures other == Clamped(oldTarget, suggested)
         || Distance(Clamped(oldTarget, suggested), suggested) < Distance(other, suggested)
  {
  }

  /** The difficulty the block at height h must have, given what the block times suggest. */
  function Expected(chain: seq<Header>, h: nat, suggested: nat): nat
    requires h < |chain|
  {
    if chain[h].seqNum <= DIFFICULTY_SPACING then INITIAL_DIFFICULTY
    else if h < DIFFICULTY_SPACING then NO_ANCESTOR
    else Clamped(chain[h - DIFFICULTY_SPACING].difficulty, suggested)
  }

  /** The block at height h has the difficulty expected of it. */
  ghost predicate FitsAt(chain: seq<Header>, suggested: seq<nat>, h: nat)
    requires h < |chain| == |suggested|
  {
    chain[h].difficulty == Expected(chain, h, suggested[h])
  }

  /** Every block above the genesis block has the difficulty expected of it. */
  ghost predicate ValidDifficulties(chain: seq<Header>, suggested: seq<nat>) {
    |chain| == |suggested| && forall h :: 1 <= h < |chain| ==> FitsAt(chain, suggested, h)
  }

  ghost predicate NumberedByDepth(chain: seq<Header>) {
    forall h :: 0 <= h < |chain| ==> chain[h].seqNum == h
  }

  /** A block's difficulty is within one step of 16 for every spacing behind it, whatever the timestamps. */
  lemma {:induction false} DifficultyDrift(chain: seq<Header>, suggested: seq<nat>, h: nat)
    requires ValidDifficulties(chain, suggested) && NumberedByDepth(chain) && 1 <= h < |chain|
    ensures -((h - 1) / DIFFICULTY_SPACING) <= chain[h].difficulty - INITIAL_DIFFICULTY <= (h - 1) / DIFFICULTY_SPACING
    ensures h <= 483840 ==> chain[h].difficulty <= 255
    decreases h
  {
    assert FitsAt(chain, suggested, h);
    if h > DIFFICULTY_SPACING {
      DifficultyDrift(chain, suggested, h - DIFFICULTY_SPACING);
      assert (h - 1) / DIFFICULTY_SPACING == (h - DIFFICULTY_SPACING - 1) / DIFFICULTY_SPACING + 1;
    }
  }

  /**
   Nor does it matter how the blocks are numbered: as long as none has the difficulty
   that stands for a missing ancestor, which no hash can meet, the drift is at most one
   step for every spacing.
   */
  lemma {:induction false} DriftWhateverNumbers(chain: seq<Header>, suggested: seq<nat>, h: nat)
    requires ValidDifficulties(chain, suggested) && h < |chain| && chain[0].difficulty == INITIAL_DIFFICULTY
    requires forall i :: 0 <= i < |chain| ==> chain[i].difficulty < NO_ANCESTOR
    ensures -(h / DIFFICULTY_SPACING) <= chain[h].difficulty - INITIAL_DIFFICULTY <= h / DIFFICULTY_SPACING
    decreases h
  {
    if h > 0 {
      assert FitsAt(chain, suggested, h);
      if h >= DIFFICULTY_SPACING {
        DriftWhateverNumbers(chain, suggested, h - DIFFICULTY_SPACING);
        assert h / DIFFICULTY_SPACING == (h - DIFFICULTY_SPACING) / DIFFICULTY_SPACING + 1;
      }
    }
  }

  /** The bound is attained: suggestions that are always high drive the difficulty to 256 one block later. */
  lemma {:induction false} DriftIsAttained(chain: seq<Header>, suggested: seq<nat>, h: nat)
    requires ValidDifficulties(chain, suggested) && NumberedByDepth(chain) && 1 <= h < |chain|
    requires forall i :: 0 <= i < |suggested| ==> suggested[i] > INITIAL_DIFFICULTY + |chain|
    ensures chain[h].difficulty == INITIAL_DIFFICULTY + (h - 1) / DIFFICULTY_SPACING
    ensures h == 483841 ==> chain[h].difficulty == 256
    decreases h
  {
    assert FitsAt(chain, suggested, h);
    if h > DIFFICULTY_SPACING {
      DriftIsAttained(chain, suggested, h - DIFFICULTY_SPACING);
      assert (h - 1) / DIFFICULTY_SPACING == (h - DIFFICULTY_SPACING - 1) / DIFFICULTY_SPACING + 1;
    }
  }

  function Fallen(h: nat): nat {
    if h == 0 then INITIAL_DIFFICULTY
    else if (h - 1) / DIFFICULTY_SPACING > INITIAL_DIFFICULTY then 0
    else INITIAL_DIFFICULTY - (h - 1) / DIFFICULTY_SPACING
  }

  /** And the other way: suggestions of 0 take the difficulty down one step every 2016 blocks, to 0 and no further. */
  lemma {:induction false} DriftFalls(chain: seq<Header>, suggested: seq<nat>, h: nat)
    requires ValidDifficulties(chain, suggested) && NumberedByDepth(chain) && 1 <= h < |chain|
    requires forall i :: 0 <= i < |suggested| ==> suggested[i] == 0
    ensures chain[h].difficulty == Fallen(h)
    ensures h >= 32257 ==> chain[h].difficulty == 0
    decreases h
  {
    assert FitsAt(chain, suggested, h);
    if h > DIFFICULTY_SPACING {
      DriftFalls(chain, suggested, h - DIFFICULTY_SPACING);
      assert (h - 1) / DIFFICULTY_SPACING == (h - DIFFICULTY_SPACING - 1) / DIFFICULTY_SPACING + 1;
    }
  }

  /** What is expected at a height depends on the headers up to there only. */
  lemma ExpectedOfPrefix(chain: seq<Header>, h: nat, s: nat)
    requires h < |chain|
    ensures Expected(chain[..h + 1], h, s) == Expected(chain, h, s)
  {
  }

  // --- A chain that climbs ---

  function Climb(h: nat): nat {
    if h == 0 then INITIAL_DIFFICULTY else INITIAL_DIFFICULTY + (h - 1) / DIFFICULTY_SPACING
  }

  function ClimbingHeader(h: nat): Header {
    Header(h, ZERO_DIGEST, ZERO_DIGEST, 0, Climb(h), 0)
  }

  /** The headers of a chain whose block times always suggest the largest target. */
  function ClimbingChain(n: nat): (chain: seq<Header>)
    ensures |chain| == n && forall h :: 0 <= h < n ==> chain[h] == ClimbingHeader(h)
  {
    seq(n, h requires 0 <= h < n => ClimbingHeader(h))
  }

  function Highest(n: nat): (suggested: seq<nat>)
    ensures |suggested| == n && forall h :: 0 <= h < n ==> suggested[h] == UINT64 - 1
  {
    seq(n, _ => UINT64 - 1)
  }

  /** Such a chain exists at every length: it has valid difficulties and attains the bound everywhere. */
  lemma ClimbingIsValid(n: nat)
    requires INITIAL_DIFFICULTY + n + 1 < UINT64
    ensures ValidDifficulties(ClimbingChain(n), Highest(n)) && NumberedByDepth(ClimbingChain(n))
    ensures forall i :: 0 <= i < n ==> Highest(n)[i] > INITIAL_DIFFICULTY + n
    ensures n > 483841 ==> ClimbingChain(n)[483841].difficulty == 256
  {
    var chain := ClimbingChain(n);
    forall h | 1 <= h < n ensures FitsAt(chain, Highest(n), h) {
      if h > DIFFICULTY_SPACING {
        assert (h - 1) / DIFFICULTY_SPACING == (h - DIFFICULTY_SPACING - 1) / DIFFICULTY_SPACING + 1;
        assert chain[h - DIFFICULTY_SPACING] == ClimbingHeader(h - DIFFICULTY_SPACING);
      }
    }
    if n > 483841 {
      DriftIsAttained(chain, Highest(n), 483841);
    }
  }

  function FallingHeader(h: nat): Header {
    Header(h, ZERO_DIGEST, ZERO_DIGEST, 0, Fallen(h), 0)
  }

  /** The headers of a chain whose block times always suggest 0. */
  function FallingChain(n: nat): (chain: seq<Header>)
    ensures |chain| == n && forall h :: 0 <= h < n ==> chain[h] == FallingHeader(h)
  {
    seq(n, h requires 0 <= h < n => FallingHeader(h))
  }

  function Lowest(n: nat): (suggested: seq<nat>)
    ensures |suggested| == n && forall h :: 0 <= h < n ==> suggested[h] == 0
  {
    seq(n, _ => 0)
  }

  /** Such a chain exists at every length too. */
  lemma FallingIsValid(n: nat)
    ensures ValidDifficulties(FallingChain(n), Lowest(n)) && NumberedByDepth(FallingChain(n))
    ensures n > 32257 ==> FallingChain(n)[32257].difficulty == 0
  {
    var chain := FallingChain(n);
    forall h | 1 <= h < n ensures FitsAt(chain, Lowest(n), h) {
      if h > DIFFICULTY_SPACING {
        assert (h - 1) / DIFFICULTY_SPACING == (h - DIFFICULTY_SPACING - 1) / DIFFICULTY_SPACING + 1;
        assert chain[h - DIFFICULTY_SPACING] == FallingHeader(h - DIFFICULTY_SPACING);
      }
    }
  }
}
