/** The coinbase subsidy and the cap it puts on the supply. */
module Subsidy {

  const ERA: nat := 21000
  const INITIAL_SUBSIDY: nat := 50 * 100000000

  function ShiftRight(v: nat, k: nat): nat {
    if k == 0 then v else ShiftRight(v / 2, k - 1)
  }

  function CoinbaseValue(seqNum: nat): nat {
    ShiftRight(INITIAL_SUBSIDY, seqNum / ERA)
  }

  /** Everything issued by blocks 0 to n - 1 when the subsidy starts at v and halves every era. */
  function Issued(v: nat, n: nat): nat {
    if n == 0 then 0 else Issued(v, n - 1) + ShiftRight(v, (n - 1) / ERA)
  }

  /** The sum of the subsidies of blocks 0 to n - 1. */
  function Supply(n: nat): nat {
    if n == 0 then 0 else Supply(n - 1) + CoinbaseValue(n - 1)
  }

  function OneBits(v: nat): nat {
    if v == 0 then 0 else v % 2 + OneBits(v / 2)
  }

  function BitCount(v: nat): nat {
    if v == 0 then 0 else 1 + BitCount(v / 2)
  }

  lemma {:induction false} SupplyIsIssued(n: nat)
    ensures Supply(n) == Issued(INITIAL_SUBSIDY, n)
  {
    if n > 0 {
      SupplyIsIssued(n - 1);
    }
  }

  lemma {:induction false} FirstEra(v: nat, n: nat)
    requires n <= ERA
    ensures Issued(v, n) == v * n
  {
    if n > 0 {
      FirstEra(v, n - 1);
      assert (n - 1) / ERA == 0;
      assert v * n == v * (n - 1) + v;
    }
  }

  lemma {:induction false} LaterEras(v: nat, n: nat)
    ensures Issued(v, n + ERA) == v * ERA + Issued(v / 2, n)
  {
    if n == 0 {
      FirstEra(v, ERA);
    } else {
      LaterEras(v, n - 1);
      assert (n - 1 + ERA) / ERA == (n - 1) / ERA + 1;
    }
  }

  lemma OneBitsBelow(v: nat)
    ensures OneBits(v) <= v
  {
  }

  /**
   An emission that halves every era never passes ERA * (2v - ones in v), and
   reaches it exactly when as many eras have passed as v has bits.
   */
  lemma {:induction false} EmissionCap(v: nat, n: nat)
    ensures Issued(v, n) <= ERA * (2 * v - OneBits(v))
    ensures Issued(v, n) == ERA * (2 * v - OneBits(v)) <==> n >= ERA * BitCount(v)
    decreases v
  {
    if v == 0 {
      NothingIssued(n);
    } else {
      OneBitsBelow(v / 2);
      if n <= ERA {
        FirstEra(v, n);
        PartialEra(v, n);
      } else {
        LaterEras(v, n - ERA);
        EmissionCap(v / 2, n - ERA);
      }
    }
  }

  lemma PartialEra(v: nat, n: nat)
    requires n <= ERA && v > 0
    ensures v * n <= ERA * v
    ensures v * n == ERA * v <==> n == ERA
  {
    assert ERA * v - v * n == v * (ERA - n);
  }

  lemma {:induction false} NothingIssued(n: nat)
    ensures Issued(0, n) == 0
  {
    if n > 0 {
      NothingIssued(n - 1);
      ShiftZero((n - 1) / ERA);
    }
  }

  lemma {:induction false} ShiftZero(k: nat)
    ensures ShiftRight(0, k) == 0
  {
    if k > 0 {
      ShiftZero(k - 1);
    }
  }

  lemma BinaryDigit(v: nat, q: nat, b: nat)
    requires q > 0 && b < 2 && v == 2 * q + b
    ensures OneBits(v) == OneBits(q) + b && BitCount(v) == BitCount(q) + 1
  {
    assert v / 2 == q;
  }

  /** Appending a hexadecimal digit, written out in binary, adds its ones and four bits. */
  lemma HexDigit(v: nat, q: nat, b3: nat, b2: nat, b1: nat, b0: nat)
    requires q > 0 && b3 < 2 && b2 < 2 && b1 < 2 && b0 < 2 && v == 16 * q + 8 * b3 + 4 * b2 + 2 * b1 + b0
    ensures OneBits(v) == OneBits(q) + b3 + b2 + b1 + b0 && BitCount(v) == BitCount(q) + 4
  {
    hide OneBits, BitCount;
    BinaryDigit(2 * q + b3, q, b3);
    BinaryDigit(4 * q + 2 * b3 + b2, 2 * q + b3, b2);
    BinaryDigit(8 * q + 4 * b3 + 2 * b2 + b1, 4 * q + 2 * b3 + b2, b1);
    BinaryDigit(v, 8 * q + 4 * b3 + 2 * b2 + b1, b0);
  }

  /** The initial subsidy has 33 bits, 11 of them ones: its hexadecimal prefixes, one digit at a time. */
  lemma SubsidyBits(v: nat, a: nat, b: nat, d: nat, e: nat, f: nat, g: nat, h: nat, i: nat)
    requires v == 0x12A05F200 && a == 0x12A05F20 && b == 0x12A05F2 && d == 0x12A05F && e == 0x12A05
    requires f == 0x12A0 && g == 0x12A && h == 0x12 && i == 0x1
    ensures OneBits(v) == 11 && BitCount(v) == 33
  {
    hide OneBits, BitCount;
    One(i);
    HexDigit(h, i, 0, 0, 1, 0);
    HexDigit(g, h, 1, 0, 1, 0);
    HexDigit(f, g, 0, 0, 0, 0);
    HexDigit(e, f, 0, 1, 0, 1);
    HexDigit(d, e, 1, 1, 1, 1);
    HexDigit(b, d, 0, 0, 1, 0);
    HexDigit(a, b, 0, 0, 0, 0);
    HexDigit(v, a, 0, 0, 0, 0);
  }

  lemma One(v: nat)
    requires v == 1
    ensures OneBits(v) == 1 && BitCount(v) == 1
  {
  }

  /** The supply cap in closed form, reached exactly from block 693000 on. */
  lemma SupplyCap(n: nat)
    ensures Supply(n) <= 21000 * (2 * 5000000000 - 11)
    ensures Supply(n) == 21000 * (2 * 5000000000 - 11) <==> n >= 693000
  {
    hide OneBits, BitCount;
    SupplyIsIssued(n);
    EmissionCap(INITIAL_SUBSIDY, n);
    SubsidyBits(0x12A05F200, 0x12A05F20, 0x12A05F2, 0x12A05F, 0x12A05, 0x12A0, 0x12A, 0x12, 0x1);
  }

  // --- What a chain claims ---

  /** The subsidies that the first n blocks claim by their numbers. */
  function Claimed(numbers: seq<nat>, n: nat): nat
    requires n <= |numbers|
  {
    if n == 0 then 0 else Claimed(numbers, n - 1) + CoinbaseValue(numbers[n - 1])
  }

  /** A chain numbered by depth claims what the schedule issues, so it keeps to the cap. */
  lemma {:induction false} NumberedClaims(numbers: seq<nat>, n: nat)
    requires n <= |numbers| && forall i :: 0 <= i < |numbers| ==> numbers[i] == i
    ensures Claimed(numbers, n) == Supply(n) <= 21000 * (2 * 5000000000 - 11)
  {
    hide CoinbaseValue;
    SupplyCap(n);
    if n > 0 {
      NumberedClaims(numbers, n - 1);
    }
  }

  lemma FirstClaim()
    ensures CoinbaseValue(1) == INITIAL_SUBSIDY
  {
    assert 1 / ERA == 0;
  }

  /** A chain whose blocks are all numbered 1 claims the full subsidy in each, and is past the cap after 42000. */
  lemma {:induction false} UnnumberedClaims(numbers: seq<nat>, n: nat)
    requires n <= |numbers| && forall i :: 0 <= i < |numbers| ==> numbers[i] == 1
    ensures Claimed(numbers, n) == INITIAL_SUBSIDY * n
    ensures n >= 42000 ==> Claimed(numbers, n) > 21000 * (2 * 5000000000 - 11)
  {
    FirstClaim();
    if n > 0 {
      UnnumberedClaims(numbers, n - 1);
    }
  }
}
