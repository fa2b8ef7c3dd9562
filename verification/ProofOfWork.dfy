/** Proof of work: the byte and bit scan of a header hash is a bound on the integer it stands for. */
module ProofOfWork {
  import opened Arithmetic
  import opened Bytes

  const DIGEST_BITS: nat := 8 * DIGEST_LENGTH

  /** The outcome of the check; a difficulty past the last byte indexes outside the hash. */
  datatype Verdict = Accept | Reject | IndexPanic

  /** Bit k of a byte, shifted down and masked. */
  function ByteBit(b: Byte, k: nat): nat {
    b / Pow2(k) % 2
  }

  method ValidPoW(h: Digest, difficulty: nat) returns (verdict: Verdict)
    ensures verdict == Accept <==> difficulty < DIGEST_BITS && Int(h) < Pow2(DIGEST_BITS - difficulty)
    ensures verdict == IndexPanic <==> difficulty >= DIGEST_BITS && Int(h) == 0
  {
    hide Int, Pow2, ByteBit;
    var zeroBytes, bitOffset := difficulty / 8, difficulty % 8;
    if difficulty < DIGEST_BITS {
      BoundMeansLeadingZeros(h, zeroBytes, bitOffset);
    }
    ZeroMeansAllZero(h);
    for i := 0 to |h|
      invariant i <= zeroBytes && forall l :: 0 <= l < i ==> h[l] == 0
    {
      if i < zeroBytes {
        if h[i] != 0 {
          return Reject;
        }
      } else {
        break;
      }
    }
    if zeroBytes >= |h| {
      return IndexPanic;
    }
    var b := h[zeroBytes];
    EightBits();
    for j := 0 to 8
      invariant j <= bitOffset && b < Pow2(8 - j)
    {
      TopBit(b, j);
      if j < bitOffset {
        if ByteBit(b, 7 - j) != 0 {
          PowAtMost(8 - bitOffset, 7 - j);
          return Reject;
        }
      } else {
        break;
      }
    }
    verdict := Accept;
  }

  /** A byte below 2^(8-j) has its next bit clear exactly when it is below 2^(7-j). */
  lemma TopBit(b: Byte, j: nat)
    ensures j < 8 && b < Pow2(8 - j) ==> (ByteBit(b, 7 - j) == 0 <==> b < Pow2(7 - j))
  {
    if j < 8 && b < Pow2(8 - j) {
      HalfBelow(b, Pow2(7 - j));
    }
  }

  lemma HalfBelow(b: nat, p: nat)
    requires p > 0 && b < 2 * p
    ensures b / p % 2 == 0 <==> b < p
  {
    if b < p {
      ModUnique(b, 0, b, p);
    } else {
      ModUnique(b, 1, b - p, p);
    }
  }

  lemma PowAtMost(a: nat, b: nat)
    requires a <= b
    ensures Pow2(a) <= Pow2(b)
  {
    if a < b {
      PowMonotone(a, b);
    }
  }

  /** A byte string is the integer of its front, shifted past its back, plus the integer of its back. */
  lemma {:induction false} IntSplit(bs: seq<Byte>, i: nat)
    requires i <= |bs|
    ensures Int(bs) == Int(bs[..i]) * Pow2(8 * (|bs| - i)) + Int(bs[i..])
    ensures Int(bs[i..]) < Pow2(8 * (|bs| - i))
  {
    hide Pow2;
    if i == |bs| {
      assert bs[..i] == bs && bs[i..] == [];
      PowZero();
    } else {
      var k := |bs| - 1;
      IntSplit(bs[..k], i);
      assert bs[..k][..i] == bs[..i];
      assert bs[i..][..|bs[i..]| - 1] == bs[..k][i..];
      PowSplit(8 * (k - i), 8);
      EightBits();
      assert 8 * (|bs| - i) == 8 * (k - i) + 8;
      AppendByte(Int(bs[..i]), Pow2(8 * (k - i)), Int(bs[..k][i..]), bs[k]);
    }
  }

  lemma AppendByte(front: nat, p: nat, back: nat, b: Byte)
    ensures (front * p + back) * 256 + b == front * (p * 256) + (back * 256 + b)
    ensures back < p ==> back * 256 + b < p * 256
  {
  }

  lemma PowZero()
    ensures Pow2(0) == 1
  {
  }

  lemma EightBits()
    ensures Pow2(8) == 256
  {
    assert Pow2(4) == 16;
    PowSplit(4, 4);
  }

  lemma {:induction false} ZeroMeansAllZero(bs: seq<Byte>)
    ensures Int(bs) == 0 <==> forall i :: 0 <= i < |bs| ==> bs[i] == 0
  {
    if bs != [] {
      var k := |bs| - 1;
      ZeroMeansAllZero(bs[..k]);
      assert forall i :: 0 <= i < k ==> bs[..k][i] == bs[i];
    }
  }

  /** The integer is below 2^(256-d) exactly when the d leading bits are zero. */
  lemma BoundMeansLeadingZeros(h: Digest, zeroBytes: nat, bitOffset: nat)
    requires bitOffset < 8 && zeroBytes < DIGEST_LENGTH
    ensures Int(h) < Pow2(DIGEST_BITS - 8 * zeroBytes - bitOffset)
       <==> (forall l :: 0 <= l < zeroBytes ==> h[l] == 0) && h[zeroBytes] < Pow2(8 - bitOffset)
  {
    hide Pow2;
    var i := zeroBytes + 1;
    var rest := 8 * (DIGEST_LENGTH - i);
    IntSplit(h, i);
    PowSplit(8 - bitOffset, rest);
    assert DIGEST_BITS - 8 * zeroBytes - bitOffset == 8 - bitOffset + rest;
    PrefixBelow(Int(h[..i]), Int(h[i..]), Pow2(8 - bitOffset), Pow2(rest));
    assert h[..i][..zeroBytes] == h[..zeroBytes];
    ZeroMeansAllZero(h[..zeroBytes]);
    EightBits();
    PowAtMost(8 - bitOffset, 8);
  }

  lemma PrefixBelow(q: nat, r: nat, bound: nat, p: nat)
    requires r < p
    ensures q * p + r < bound * p <==> q < bound
  {
    if q < bound {
      assert (q + 1) * p <= bound * p;
    } else {
      assert q * p >= bound * p;
    }
  }
}
