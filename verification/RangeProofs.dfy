/**
 Commitments and the bitwise range proof: each bit of the amount gets a pair of
 keys of which the signer can open exactly one, and all the two-link rings close
 into a single shared challenge.
 */
module RangeProofs {
  import opened Arithmetic
  import opened Bytes
  import opened Curve
  import opened Primitives

  /** The random integers drawn for one bit: the commitment nonce and the free answer. */
  datatype BitNonce = BitNonce(k: nat, s: nat)

  /** Bit i of the amount, counting from the least significant. */
  predicate Bit(amt: nat, i: nat) {
    if i == 0 then amt % 2 == 1 else Bit(amt / 2, i - 1)
  }

  /** (1 << i) & amt. */
  function MaskedBit(amt: nat, i: nat): nat {
    if Bit(amt, i) then Pow2(i) else 0
  }

  // --- Blinding factors ---

  /** The hashed blinding factors: the first from the target, every later one from the empty string. */
  function DerivedBlinds(c: Suite, target: nat, count: nat): (blinds: seq<nat>)
    ensures |blinds| == count
  {
    if count == 0 then [] else
      DerivedBlinds(c, target, count - 1) + [Int(c.hash(if count == 1 then NatBytes(target) else []))]
  }

  /** The last factor makes up the difference to the target. */
  function Blinds(c: Suite, target: nat): (blinds: seq<nat>)
    ensures |blinds| == c.bits
  {
    var derived := DerivedBlinds(c, target, c.bits - 1);
    derived + [(target - Sum(derived)) % ORDER]
  }

  method ComputeBlinds(c: Suite, target: nat) returns (blinds: seq<nat>)
    ensures blinds == Blinds(c, target)
  {
    var sumBlind := 0;
    blinds := [];
    for i := 0 to c.bits
      invariant i < c.bits ==> blinds == DerivedBlinds(c, target, i) && sumBlind == Sum(blinds)
      invariant i == c.bits ==> blinds == Blinds(c, target)
    {
      var r := 0;
      if i == 0 {
        r := target;
      }
      if i == c.bits - 1 {
        r := (target - sumBlind) % ORDER;
        sumBlind := (sumBlind + r) % ORDER;
      } else {
        r := Int(c.hash(NatBytes(r)));
        SumAppend(blinds, r);
        sumBlind := sumBlind + r;
      }
      blinds := blinds + [r];
    }
  }

  /**
   The blinds one by one: the first is the hash of the target, every later one but the
   last that of the empty string, and the last what is missing.
   */
  lemma BlindAt(c: Suite, target: nat, i: nat)
    requires i < c.bits
    ensures i < c.bits - 1 ==> Blinds(c, target)[i] == Int(c.hash(if i == 0 then NatBytes(target) else []))
    ensures i == c.bits - 1 ==> Blinds(c, target)[i] == (target - Sum(Blinds(c, target)[..i])) % ORDER
  {
    var derived := DerivedBlinds(c, target, c.bits - 1);
    assert Blinds(c, target)[..c.bits - 1] == derived;
    if i < c.bits - 1 {
      DerivedAt(c, target, c.bits - 1, i);
    }
  }

  lemma {:induction false} DerivedAt(c: Suite, target: nat, count: nat, i: nat)
    requires i < count
    ensures DerivedBlinds(c, target, count)[i] == Int(c.hash(if i == 0 then NatBytes(target) else []))
  {
    hide Int;
    if i < count - 1 {
      DerivedAt(c, target, count - 1, i);
    }
  }

  /** The blinding factors of the bits add up to the blinding factor of the whole. */
  lemma BlindsSum(c: Suite, target: nat)
    ensures Sum(Blinds(c, target)) % ORDER == target % ORDER
  {
    var derived := DerivedBlinds(c, target, c.bits - 1);
    SumAppend(derived, (target - Sum(derived)) % ORDER);
  }

  // --- Keys and commitments ---

  /** The commitment to one masked bit, and that commitment less the bit's full value. */
  function PKsForAmt(c: Suite, amt: nat, bit: nat, blind: nat): (Point, Point) {
    var diff := Neg(PedersenSum(0, Pow2(bit)));
    var c0 := PedersenSum(blind, MaskedBit(amt, bit));
    (c0, Add(c0, diff))
  }

  function AmountKeys(c: Suite, amt: nat, blinds: seq<nat>): (pks: seq<(Point, Point)>)
    ensures |pks| == |blinds|
  {
    seq(|blinds|, i requires 0 <= i < |blinds| => PKsForAmt(c, amt, i, blinds[i]))
  }

  /** The key of the pair that commits to zero is a multiple of G by the blinding factor. */
  lemma OpenKey(c: Suite, amt: nat, i: nat, blind: nat)
    ensures
      var keys := PKsForAmt(c, amt, i, blind);
      (if Bit(amt, i) then keys.1 else keys.0) == ScalarBaseMult(blind)
  {
    hide AddR;
    var (x, v) := (ScalarBaseMult(blind), ScalarMult(H, Pow2(i)));
    SubtractBack(x, v);
  }

  lemma SubtractBack(x: Point, v: Point)
    ensures Add(Add(x, v), Neg(Add(IDENTITY, v))) == x
    ensures Add(x, IDENTITY) == x
  {
  }

  function SumFirst(c: Suite, pks: seq<(Point, Point)>, k: nat): Point
    requires k <= |pks|
  {
    if k == 0 then IDENTITY else Add(SumFirst(c, pks, k - 1), pks[k - 1].0)
  }

  function MaskedAmount(amt: nat, bits: nat): nat {
    if bits == 0 then 0 else MaskedAmount(amt, bits - 1) + MaskedBit(amt, bits - 1)
  }

  lemma {:induction false} MaskedAmountIsRemainder(amt: nat, bits: nat)
    ensures MaskedAmount(amt, bits) == amt % Pow2(bits)
  {
    if bits > 0 {
      MaskedAmountIsRemainder(amt / 2, bits - 1);
      ShiftMaskedAmount(amt, bits);
      DoubleRemainder(amt, Pow2(bits - 1));
    } else {
      ModUnique(amt, amt, 0, 1);
    }
  }

  /** Masking keeps an amount exactly when it fits. */
  lemma MaskedAmountExact(amt: nat, bits: nat)
    ensures MaskedAmount(amt, bits) < Pow2(bits)
    ensures MaskedAmount(amt, bits) == amt <==> amt < Pow2(bits)
  {
    MaskedAmountIsRemainder(amt, bits);
    SmallRemainder(amt, Pow2(bits));
  }

  lemma {:induction false} ShiftMaskedAmount(amt: nat, bits: nat)
    requires bits > 0
    ensures MaskedAmount(amt, bits) == 2 * MaskedAmount(amt / 2, bits - 1) + amt % 2
  {
    if bits > 1 {
      ShiftMaskedAmount(amt, bits - 1);
    } else {
      assert MaskedAmount(amt, 1) == MaskedAmount(amt, 0) + MaskedBit(amt, 0);
    }
  }

  lemma {:induction false} SumFirstAt(c: Suite, amt: nat, blinds: seq<nat>, pks: seq<(Point, Point)>, k: nat)
    requires k <= |blinds| && |blinds| == |pks|
    requires forall i :: 0 <= i < |pks| ==> pks[i].0 == PedersenSum(blinds[i], MaskedBit(amt, i))
    ensures SumTo(blinds, k) >= 0
    ensures SumFirst(c, pks, k) == PedersenSum(SumTo(blinds, k), MaskedAmount(amt, k))
  {
    hide PedersenSum, Add, MaskedBit, Bit;
    PedersenSumZero();
    if k > 0 {
      var blind, bit := blinds[k - 1], MaskedBit(amt, k - 1);
      SumFirstAt(c, amt, blinds, pks, k - 1);
      PedersenSumAdd(SumTo(blinds, k - 1), MaskedAmount(amt, k - 1), blind, bit);
    }
  }

  function Commit(c: Suite, amt: nat, target: nat, nonces: seq<BitNonce>): Commitment
    requires |nonces| == c.bits
  {
    var proof := RangeSignature(c, amt, target, nonces);
    Commitment(SumFirst(c, proof.pks, c.bits), proof)
  }

  method RangeCommit(c: Suite, amt: nat, target: nat, nonces: seq<BitNonce>) returns (commit: Commitment)
    requires |nonces| == c.bits
    ensures commit == Commit(c, amt, target, nonces)
  {
    hide RangeSignature;
    var proof := RangeSign(c, amt, target, nonces);
    var point := IDENTITY;
    for i := 0 to c.bits
      invariant point == SumFirst(c, proof.pks, i)
    {
      point := Add(point, proof.pks[i].0);
    }
    commit := Commitment(point, proof);
  }

  /** A range commitment is y*G + (amt mod 2^bits)*H, whatever the amount and the blinding factor. */
  lemma CommitIsPedersen(c: Suite, amt: nat, target: nat, nonces: seq<BitNonce>)
    requires |nonces| == c.bits
    ensures Commit(c, amt, target, nonces).point == PedersenSum(target, amt % Pow2(c.bits))
  {
    var blinds := Blinds(c, target);
    assert Commit(c, amt, target, nonces).point == SumFirst(c, AmountKeys(c, amt, blinds), c.bits);
    SumFirstAt(c, amt, blinds, AmountKeys(c, amt, blinds), c.bits);
    BlindsSum(c, target);
    MaskedAmountIsRemainder(amt, c.bits);
    PedersenSumAt(Sum(blinds), MaskedAmount(amt, c.bits));
    PedersenSumAt(target, MaskedAmount(amt, c.bits));
  }

  // --- Signing ---

  function ComputeR(c: Suite, s: nat, e: Digest, pk: Point): Point {
    PedersenDiffPK(s, Int(e), pk)
  }

  function ComputeE(c: Suite, m: Digest, s: nat, e: Digest, pk: Point): Digest {
    c.HashPt(m, ComputeR(c, s, e, pk))
  }

  function PairBytes(c: Suite, pks: seq<(Point, Point)>): seq<Byte> {
    if pks == [] then [] else
      var k := |pks| - 1;
      PairBytes(c, pks[..k]) + c.encode(pks[k].0) + c.encode(pks[k].1)
  }

  function PointBytes(c: Suite, points: seq<Point>): seq<Byte> {
    if points == [] then [] else PointBytes(c, points[..|points| - 1]) + c.encode(points[|points| - 1])
  }

  method HashPKs(c: Suite, pks: seq<(Point, Point)>) returns (m: Digest)
    ensures m == c.hash(PairBytes(c, pks))
  {
    var data := [];
    for i := 0 to |pks|
      invariant data == PairBytes(c, pks[..i])
    {
      assert pks[..i + 1][..i] == pks[..i];
      data := data + c.encode(pks[i].0);
      data := data + c.encode(pks[i].1);
    }
    assert pks[..|pks|] == pks;
    m := c.hash(data);
  }

  /** The point each bit contributes to the shared challenge. */
  function BitPoint(c: Suite, m: Digest, set_: bool, keys: (Point, Point), nonce: BitNonce): Point {
    var kG := ScalarBaseMult(nonce.k);
    if set_ then kG else ComputeR(c, nonce.s, c.HashPt(m, kG), keys.1)
  }

  /** The two answers for one bit, given the shared challenge. */
  function BitAnswers(c: Suite, m: Digest, e: Digest, set_: bool, keys: (Point, Point), blind: nat, nonce: BitNonce)
    : (nat, nat)
  {
    if set_ then
      (nonce.s, TimeTravel(blind, nonce.k, ComputeE(c, m, nonce.s, e, keys.0)))
    else
      (TimeTravel(blind, nonce.k, e), nonce.s)
  }

  function SignerPoints(c: Suite, amt: nat, m: Digest, pks: seq<(Point, Point)>, nonces: seq<BitNonce>)
    : (points: seq<Point>)
    requires |pks| == |nonces|
    ensures |points| == |pks|
  {
    seq(|pks|, i requires 0 <= i < |pks| => BitPoint(c, m, Bit(amt, i), pks[i], nonces[i]))
  }

  function Answers(c: Suite, amt: nat, m: Digest, e: Digest, pks: seq<(Point, Point)>, blinds: seq<nat>,
                   nonces: seq<BitNonce>) : (ss: seq<(nat, nat)>)
    requires |pks| == |blinds| == |nonces|
    ensures |ss| == |pks|
  {
    seq(|pks|, i requires 0 <= i < |pks| => BitAnswers(c, m, e, Bit(amt, i), pks[i], blinds[i], nonces[i]))
  }

  function RangeSignature(c: Suite, amt: nat, target: nat, nonces: seq<BitNonce>): (proof: RangeProof)
    requires |nonces| == c.bits
    ensures |proof.ss| == |proof.pks| == c.bits
  {
    var blinds := Blinds(c, target);
    var pks := AmountKeys(c, amt, blinds);
    var m := c.hash(PairBytes(c, pks));
    var e := c.hash(m + PointBytes(c, SignerPoints(c, amt, m, pks, nonces)));
    RangeProof(e, Answers(c, amt, m, e, pks, blinds, nonces), pks)
  }

  method RangeSign(c: Suite, amt: nat, target: nat, nonces: seq<BitNonce>) returns (proof: RangeProof)
    requires |nonces| == c.bits
    ensures proof == RangeSignature(c, amt, target, nonces)
  {
    var blinds := ComputeBlinds(c, target);
    var pks := [];
    for i := 0 to |blinds|
      invariant |pks| == i
      invariant forall j :: 0 <= j < i ==> pks[j] == PKsForAmt(c, amt, j, blinds[j])
    {
      pks := pks + [PKsForAmt(c, amt, i, blinds[i])];
    }
    assert pks == AmountKeys(c, amt, blinds);
    var m := HashPKs(c, pks);
    var ss := new (nat, nat)[c.bits](_ => (0, 0));
    var rs := ForwardChain(c, amt, m, pks, nonces, ss);
    var e := SharedChallenge(c, m, rs);
    CloseRings(c, amt, m, e, pks, blinds, nonces, ss);
    proof := RangeProof(e, ss[..], pks);
  }

  /** The one challenge that every bit's ring has to close into. */
  method SharedChallenge(c: Suite, m: Digest, rs: seq<Point>) returns (e: Digest)
    ensures e == c.hash(m + PointBytes(c, rs))
  {
    var data := m;
    for i := 0 to |rs|
      invariant data == m + PointBytes(c, rs[..i])
    {
      assert rs[..i + 1][..i] == rs[..i];
      data := data + c.encode(rs[i]);
    }
    assert rs[..|rs|] == rs;
    e := c.hash(data);
  }

  /** First pass: a set bit commits to k*G at once, a clear bit one link further on. */
  method ForwardChain(c: Suite, amt: nat, m: Digest, pks: seq<(Point, Point)>, nonces: seq<BitNonce>,
                      ss: array<(nat, nat)>)
    returns (points: seq<Point>)
    requires |pks| == |nonces| == ss.Length == c.bits
    modifies ss
    ensures points == SignerPoints(c, amt, m, pks, nonces)
    ensures forall i :: 0 <= i < c.bits && !Bit(amt, i) ==> ss[i].1 == nonces[i].s
  {
    hide ComputeR, ScalarBaseMult, Bit;
    var rs := new Point[c.bits](_ => IDENTITY);
    for i := 0 to c.bits
      invariant forall j :: 0 <= j < i ==> rs[j] == BitPoint(c, m, Bit(amt, j), pks[j], nonces[j])
      invariant forall j :: 0 <= j < i && !Bit(amt, j) ==> ss[j].1 == nonces[j].s
    {
      var kG := ScalarBaseMult(nonces[i].k);
      if Bit(amt, i) {
        rs[i] := kG;
      } else {
        var e1 := c.HashPt(m, kG);
        ss[i] := (ss[i].0, nonces[i].s);
        rs[i] := ComputeR(c, ss[i].1, e1, pks[i].1);
      }
    }
    points := rs[..];
  }

  /** Second pass: answer the shared challenge with the blinding factor of the openable key. */
  method CloseRings(c: Suite, amt: nat, m: Digest, e: Digest, pks: seq<(Point, Point)>, blinds: seq<nat>,
                    nonces: seq<BitNonce>, ss: array<(nat, nat)>)
    requires |pks| == |blinds| == |nonces| == ss.Length == c.bits
    requires forall i :: 0 <= i < c.bits && !Bit(amt, i) ==> ss[i].1 == nonces[i].s
    modifies ss
    ensures ss[..] == Answers(c, amt, m, e, pks, blinds, nonces)
  {
    for i := 0 to c.bits
      invariant forall j :: 0 <= j < i ==> ss[j] == BitAnswers(c, m, e, Bit(amt, j), pks[j], blinds[j], nonces[j])
      invariant forall j :: i <= j < c.bits && !Bit(amt, j) ==> ss[j].1 == nonces[j].s
    {
      if Bit(amt, i) {
        var e1 := ComputeE(c, m, nonces[i].s, e, pks[i].0);
        ss[i] := (nonces[i].s, TimeTravel(blinds[i], nonces[i].k, e1));
      } else {
        ss[i] := (TimeTravel(blinds[i], nonces[i].k, e), ss[i].1);
      }
    }
  }

  // --- Verification ---

  /** The point the verifier reaches at the end of one bit's two links. */
  function VerifierPoint(c: Suite, m: Digest, proof: RangeProof, i: nat): Point
    requires i < |proof.ss| && i < |proof.pks|
  {
    var e1 := ComputeE(c, m, proof.ss[i].0, proof.e, proof.pks[i].0);
    ComputeR(c, proof.ss[i].1, e1, proof.pks[i].1)
  }

  function VerifierPoints(c: Suite, m: Digest, proof: RangeProof): (points: seq<Point>)
    requires |proof.ss| == |proof.pks|
    ensures |points| == |proof.pks|
  {
    seq(|proof.pks|, i requires 0 <= i < |proof.pks| => VerifierPoint(c, m, proof, i))
  }

  predicate Verifies(c: Suite, proof: RangeProof) {
    |proof.ss| == |proof.pks| == c.bits &&
    var m := c.hash(PairBytes(c, proof.pks));
    proof.e == c.hash(m + PointBytes(c, VerifierPoints(c, m, proof)))
  }

  method Verify(c: Suite, proof: RangeProof) returns (ok: bool)
    requires |proof.ss| == |proof.pks| == c.bits
    ensures ok == Verifies(c, proof)
  {
    hide ComputeR, ComputeE;
    var m := HashPKs(c, proof.pks);
    ghost var points := VerifierPoints(c, m, proof);
    var data := m;
    for i := 0 to c.bits
      invariant data == m + PointBytes(c, points[..i])
    {
      var e1 := ComputeE(c, m, proof.ss[i].0, proof.e, proof.pks[i].0);
      var r2 := ComputeR(c, proof.ss[i].1, e1, proof.pks[i].1);
      assert points[..i + 1][..i] == points[..i];
      data := data + c.encode(r2);
    }
    assert points[..c.bits] == points;
    ok := proof.e == c.hash(data);
  }

  /** One bit's ring closes: the verifier reaches the point the signer committed to. */
  lemma BitCloses(c: Suite, amt: nat, i: nat, blind: nat, nonce: BitNonce, m: Digest, e: Digest)
    ensures
      var keys := PKsForAmt(c, amt, i, blind);
      var ss := BitAnswers(c, m, e, Bit(amt, i), keys, blind, nonce);
      ComputeR(c, ss.1, ComputeE(c, m, ss.0, e, keys.0), keys.1) == BitPoint(c, m, Bit(amt, i), keys, nonce)
  {
    var keys := PKsForAmt(c, amt, i, blind);
    OpenKey(c, amt, i, blind);
    hide PKsForAmt;
    if Bit(amt, i) {
      AnswerCloses(G, blind, nonce.k, Int(ComputeE(c, m, nonce.s, e, keys.0)));
    } else {
      AnswerCloses(G, blind, nonce.k, Int(e));
    }
  }

  /** Range proof completeness, for every amount, blinding factor and randomness. */
  lemma RangeSignVerifies(c: Suite, amt: nat, target: nat, nonces: seq<BitNonce>)
    requires |nonces| == c.bits
    ensures Verifies(c, RangeSignature(c, amt, target, nonces))
  {
    var proof := RangeSignature(c, amt, target, nonces);
    var blinds := Blinds(c, target);
    var m := c.hash(PairBytes(c, proof.pks));
    var signed := SignerPoints(c, amt, m, proof.pks, nonces);
    var recomputed := VerifierPoints(c, m, proof);
    forall i | 0 <= i < c.bits ensures recomputed[i] == signed[i] {
      BitCloses(c, amt, i, blinds[i], nonces[i], m, proof.e);
    }
    assert recomputed == signed;
  }
}
