/**
 What a range proof says about the commitment it comes with: nothing, as the verifier
 reads the proof alone, and a bound on the amount once the proof's keys are tied to
 the commitment and to each other.
 */
module RangeBinding {
  import opened Arithmetic
  import opened Bytes
  import opened Curve
  import opened Primitives
  import opened RangeProofs
  import opened RingSignature
  import opened Balance

  // --- Proof and commitment are not compared ---

  /** A commitment to any amount, next to the range proof of 0. */
  function Unbacked(c: Suite, blind: nat, amt: nat, nonces: seq<BitNonce>): Output
    requires |nonces| == c.bits
  {
    Output(IDENTITY, IDENTITY, IDENTITY, Commitment(PedersenSum(blind, amt), RangeSignature(c, 0, blind, nonces)))
  }

  /** Two outputs that together hold the order and more, which is the input's amount modulo the order. */
  function OverdraftBody(c: Suite, inputs: seq<Digest>, v: nat, b1: nat, b2: nat, nonces: seq<BitNonce>): TxnBody
    requires |nonces| == c.bits
  {
    TxnBody(inputs, [Unbacked(c, b1, ORDER - 1, nonces), Unbacked(c, b2, v + 1, nonces)], 0)
  }

  /**
   Signature and range proofs are accepted for outputs of ORDER - 1 and v + 1 drawn on
   any input of v: their sum is not v, and the first is far out of range.
   */
  lemma OverdraftAccepted(c: Suite, inputs: seq<Digest>, pks: seq<Point>, ics: seq<Point>, sk: nat, yi: nat, v: nat,
                          idx: nat, b1: nat, b2: nat, bitNonces: seq<BitNonce>, nonces: SignNonces)
    requires c.ring <= |pks| && c.ring <= |ics| && |bitNonces| == c.bits
    requires idx < c.ring == |nonces.rs| == |nonces.ss|
    requires pks[idx] == ScalarBaseMult(sk) && ics[idx] == PedersenSum(yi, v)
    ensures
      var body := OverdraftBody(c, inputs, v, b1, b2, bitNonces);
      && OutputsOpen(body.outputs, [b1, b2], [ORDER - 1, v + 1])
      && Accepts(c, Txn(body, SignedBody(c, body, pks, ics, sk, yi, idx, b1 + b2, nonces)), pks, ics)
      && (forall i :: 0 <= i < 2 ==> Verifies(c, body.outputs[i].commit.proof))
      && Sum([ORDER - 1, v + 1]) + body.fee == ORDER + v
  {
    hide Accepts, Verifies, SignedBody, PedersenSum, RangeSignature, ScalarBaseMult, OutputTotal, Add, Neg;
    var body := OverdraftBody(c, inputs, v, b1, b2, bitNonces);
    RangeSignVerifies(c, 0, b1, bitNonces);
    RangeSignVerifies(c, 0, b2, bitNonces);
    SumOfTwo(ORDER - 1, v + 1);
    SumOfTwo(b1, b2);
    ModEqual(ORDER + v, v, 1, ORDER);
    ZeroSumMeansBalance(body, ics[idx], yi, v, [b1, b2], [ORDER - 1, v + 1]);
    SignedBodyAccepts(c, body, pks, ics, sk, yi, idx, b1 + b2, nonces);
  }

  // --- The guard that is missing ---

  /** The first keys add up to the commitment, and each second key is the first less the bit's value. */
  predicate Tied(c: Suite, commit: Commitment) {
    && |commit.proof.pks| == c.bits && commit.point == SumFirst(c, commit.proof.pks, c.bits)
    && forall i :: 0 <= i < c.bits ==>
         commit.proof.pks[i].1 == Add(commit.proof.pks[i].0, Neg(PedersenSum(0, Pow2(i))))
  }

  /** What signers make is tied, so the guard turns no honest output away. */
  lemma SignersTie(c: Suite, amt: nat, target: nat, nonces: seq<BitNonce>)
    requires |nonces| == c.bits
    ensures Tied(c, Commit(c, amt, target, nonces))
  {
    hide PedersenSum, Add, Neg, Answers, Blinds;
    var commit := Commit(c, amt, target, nonces);
    assert commit.proof.pks == AmountKeys(c, amt, Blinds(c, target));
  }

  /** One key of the pair is a known multiple of G. */
  predicate BitOpens(keys: (Point, Point), blind: nat) {
    keys.0 == ScalarBaseMult(blind) || keys.1 == ScalarBaseMult(blind)
  }

  /** Two answers to one link, under challenges whose difference is invertible, open its key. */
  lemma LinkOpens(c: Suite, s: nat, e: Digest, s': nat, e': Digest, pk: Point, u: nat)
    requires ComputeR(c, s, e, pk) == ComputeR(c, s', e', pk) && Inverts(u, Int(e), Int(e'))
    ensures pk == ScalarBaseMult(Solved(s, s', u))
  {
    hide PedersenDiffPK, PedersenDiffPK2, Solved, Inverts, ScalarMult, Int;
    OverG(s, Int(e), pk);
    OverG(s', Int(e'), pk);
    Extract(G, pk, s, Int(e), s', Int(e'), u);
  }

  /** The amount that the opened keys spell: the bits whose second key is the one that opens. */
  function Spelt(pks: seq<(Point, Point)>, blinds: seq<nat>, k: nat): (amt: nat)
    requires k <= |pks| && k <= |blinds|
    ensures amt < Pow2(k)
  {
    if k == 0 then 0 else
      Spelt(pks, blinds, k - 1) + if pks[k - 1].0 == ScalarBaseMult(blinds[k - 1]) then 0 else Pow2(k - 1)
  }

  lemma {:induction false} KeysAddUp(c: Suite, pks: seq<(Point, Point)>, blinds: seq<nat>, k: nat)
    requires k <= |pks| && |blinds| == |pks|
    requires forall i :: 0 <= i < |pks| ==> pks[i].1 == Add(pks[i].0, Neg(PedersenSum(0, Pow2(i))))
    requires forall i :: 0 <= i < |pks| ==> BitOpens(pks[i], blinds[i])
    ensures SumTo(blinds, k) >= 0 && SumFirst(c, pks, k) == PedersenSum(SumTo(blinds, k), Spelt(pks, blinds, k))
  {
    hide PedersenSum, Add, Neg, ScalarBaseMult, Pow2;
    PedersenSumZero();
    if k > 0 {
      var blind := blinds[k - 1];
      KeysAddUp(c, pks, blinds, k - 1);
      KeyCommits(pks[k - 1], blind, Pow2(k - 1));
      var bit := if pks[k - 1].0 == ScalarBaseMult(blind) then 0 else Pow2(k - 1);
      PedersenSumAdd(SumTo(blinds, k - 1), Spelt(pks, blinds, k - 1), blind, bit);
    }
  }

  lemma KeyCommits(keys: (Point, Point), blind: nat, value: nat)
    requires BitOpens(keys, blind) && keys.1 == Add(keys.0, Neg(PedersenSum(0, value)))
    ensures keys.0 == PedersenSum(blind, if keys.0 == ScalarBaseMult(blind) then 0 else value)
  {
    PedersenSumAt(0, value);
    PedersenSumAt(blind, value);
    PedersenSumAt(blind, 0);
    BaseAt(blind);
  }

  ghost predicate Opens(c: Suite, commit: Commitment, blinds: seq<nat>) {
    |commit.proof.pks| == |blinds| && forall i :: 0 <= i < |blinds| ==> BitOpens(commit.proof.pks[i], blinds[i])
  }

  /** A tied commitment all of whose bits open holds an amount in range, and no other below the order. */
  lemma TiedIsInRange(c: Suite, commit: Commitment, blinds: seq<nat>, y: nat, amt: nat)
    requires Tied(c, commit) && Opens(c, commit, blinds)
    requires commit.point == PedersenSum(y, amt) && amt < ORDER
    ensures amt == Spelt(commit.proof.pks, blinds, c.bits) < Pow2(c.bits)
  {
    hide PedersenSum, Add, Neg, BitOpens, Spelt;
    KeysAddUp(c, commit.proof.pks, blinds, c.bits);
    var spelt := Spelt(commit.proof.pks, blinds, c.bits);
    BitsFit(c);
    PedersenSumAt(y, amt);
    PedersenSumAt(SumTo(blinds, c.bits), spelt);
    SmallRemainder(amt, ORDER);
    SmallRemainder(spelt, ORDER);
  }

  /** Every output is tied to its proof, and every bit of the proof opens. */
  ghost predicate OutputsBound(c: Suite, outputs: seq<Output>, known: seq<seq<nat>>) {
    |outputs| == |known| &&
    forall j :: 0 <= j < |outputs| ==> Tied(c, outputs[j].commit) && Opens(c, outputs[j].commit, known[j])
  }

  lemma OutputsInRange(c: Suite, outputs: seq<Output>, blinds: seq<nat>, amts: seq<nat>, known: seq<seq<nat>>)
    requires OutputsOpen(outputs, blinds, amts) && OutputsBound(c, outputs, known)
    requires forall j :: 0 <= j < |amts| ==> amts[j] < ORDER
    ensures forall j :: 0 <= j < |amts| ==> amts[j] < Pow2(c.bits)
  {
    hide Tied, Opens, PedersenSum, Spelt, Pow2;
    forall j | 0 <= j < |amts| ensures amts[j] < Pow2(c.bits) {
      TiedIsInRange(c, outputs[j].commit, known[j], blinds[j], amts[j]);
    }
  }

  /**
   With the guard an extracted spend balances as integers: the outputs hold amounts in
   range, and the input exactly these and the fee.
   */
  lemma GuardedSpendBalances(c: Suite, body: TxnBody, ic: Point, yi: nat, v: nat, blinds: seq<nat>, amts: seq<nat>,
                             known: seq<seq<nat>>, r: nat, s: nat, e: Digest, r': nat, s': nat, e': Digest, pk: Point,
                             image: Point, u: nat, w: nat)
    requires ic == PedersenSum(yi, v) && OutputsOpen(body.outputs, blinds, amts) && v < UINT64 && body.fee < UINT64
    requires (forall j :: 0 <= j < |amts| ==> amts[j] < ORDER) && |amts| <= UINT64
    requires OutputsBound(c, body.outputs, known)
    requires
      var diff := Add(ic, Neg(OutputTotal(body)));
      LinkPoints(c, r, s, e, diff, pk, image) == LinkPoints(c, r', s', e', diff, pk, image)
    requires Inverts(u, Int(e), Int(e')) && Inverts(w, Int(c.hash(e)), Int(c.hash(e')))
    ensures forall j :: 0 <= j < |amts| ==> amts[j] < Pow2(c.bits)
    ensures v == Sum(amts) + body.fee
  {
    hide LinkPoints, OutputsOpen, OutputsBound, PedersenSum, Add, Neg, Inverts, Int, Pow2, OutputTotal;
    BitsFit(c);
    OutputsInRange(c, body.outputs, blinds, amts, known);
    ExtractedSpendBalances(c, body, ic, yi, v, blinds, amts, r, s, e, r', s', e', pk, image, u, w);
    WordsFit(amts, body.fee);
  }
}
