/**
 What a ring signature says about the amounts: the difference at an index is a
 multiple of G exactly when input and outputs balance, and two answers to
 different challenges at one index give away everything the signer claims to know.
 */
module Balance {
  import opened Arithmetic
  import opened Bytes
  import opened Curve
  import opened Primitives
  import opened RingSignature

  /** The outputs of a transaction open to the given blinding factors and amounts. */
  ghost predicate OutputsOpen(outputs: seq<Output>, blinds: seq<nat>, amts: seq<nat>) {
    |outputs| == |blinds| == |amts| &&
    forall j :: 0 <= j < |outputs| ==> outputs[j].commit.point == PedersenSum(blinds[j], amts[j])
  }

  lemma {:induction false} SumCommitsOpen(outputs: seq<Output>, blinds: seq<nat>, amts: seq<nat>, k: nat)
    requires OutputsOpen(outputs, blinds, amts) && k <= |outputs|
    ensures SumTo(blinds, k) >= 0 && SumTo(amts, k) >= 0
    ensures SumCommits(outputs, k) == PedersenSum(SumTo(blinds, k), SumTo(amts, k))
  {
    hide PedersenSum, Add;
    PedersenSumZero();
    if k > 0 {
      SumCommitsOpen(outputs, blinds, amts, k - 1);
      PedersenSumAdd(SumTo(blinds, k - 1), SumTo(amts, k - 1), blinds[k - 1], amts[k - 1]);
    }
  }

  lemma OutputTotalOpens(body: TxnBody, blinds: seq<nat>, amts: seq<nat>)
    requires OutputsOpen(body.outputs, blinds, amts)
    ensures Sum(blinds) >= 0 && Sum(amts) >= 0
    ensures OutputTotal(body) == PedersenSum(Sum(blinds), Sum(amts) + body.fee)
  {
    hide PedersenSum, Add;
    SumCommitsOpen(body.outputs, blinds, amts, |amts|);
    PedersenSumAdd(Sum(blinds), Sum(amts), 0, body.fee);
  }

  lemma DifferenceCoordinates(y: nat, v: nat, b: nat, a: nat)
    ensures Add(PedersenSum(y, v), Neg(PedersenSum(b, a))) == Point((y - b) % ORDER, (v - a) % ORDER)
  {
    hide PedersenSum;
    PedersenSumAt(y, v);
    PedersenSumAt(b, a);
    SubtractRemainders(y, b);
    SubtractRemainders(v, a);
  }

  /**
   Zero-sum means balance: the difference of an input commitment and the outputs
   is a multiple of G alone exactly when the input's amount is the outputs' plus
   the fee modulo the order, and the multiplier is then yi - yOut.
   */
  lemma ZeroSumMeansBalance(body: TxnBody, ic: Point, yi: nat, v: nat, blinds: seq<nat>, amts: seq<nat>)
    requires ic == PedersenSum(yi, v)
    requires OutputsOpen(body.outputs, blinds, amts)
    ensures
      var diff := Add(ic, Neg(OutputTotal(body)));
      && ((exists z :: diff == ScalarBaseMult(z)) <==> v % ORDER == (Sum(amts) + body.fee) % ORDER)
      && (v % ORDER == (Sum(amts) + body.fee) % ORDER ==> diff == ScalarBaseMult((yi - Sum(blinds)) % ORDER))
  {
    hide PedersenSum, Add, Neg, OutputTotal, OutputsOpen;
    OutputTotalOpens(body, blinds, amts);
    var diff := Add(ic, Neg(OutputTotal(body)));
    var total := Sum(amts) + body.fee;
    DifferenceCoordinates(yi, v, Sum(blinds), total);
    SubtractRemainders(v, total);
    hide ScalarBaseMult;
    BaseAt((yi - Sum(blinds)) % ORDER);
    if z: nat :| diff == ScalarBaseMult(z) {
      BaseAt(z);
    }
  }

  /** Words add up to less than the order. */
  lemma WordsFit(amts: seq<nat>, fee: nat)
    requires fee < UINT64 && |amts| <= UINT64
    requires forall j :: 0 <= j < |amts| ==> amts[j] < UINT64
    ensures Sum(amts) + fee < ORDER
  {
    SumBound(amts, UINT64, |amts|);
    assert |amts| * UINT64 <= UINT64 * UINT64;
  }

  /** Amounts, fee and input are machine words, so balance modulo the order is balance of integers. */
  lemma BalanceOfIntegers(v: nat, amts: seq<nat>, fee: nat)
    requires v < UINT64 && fee < UINT64 && |amts| <= UINT64
    requires forall j :: 0 <= j < |amts| ==> amts[j] < UINT64
    ensures v % ORDER == (Sum(amts) + fee) % ORDER <==> v == Sum(amts) + fee
  {
    WordsFit(amts, fee);
    SumBound(amts, UINT64, |amts|);
  }

  /**
   Extraction: two answers that give the same three points at one index, under
   challenges whose differences are invertible modulo the order, yield the multiplier
   of the difference and the one secret key behind both public key and spent image.
   */
  lemma Extraction(c: Suite, r: nat, s: nat, e: Digest, r': nat, s': nat, e': Digest, diff: Point, pk: Point,
                   image: Point, u: nat, w: nat)
    requires LinkPoints(c, r, s, e, diff, pk, image) == LinkPoints(c, r', s', e', diff, pk, image)
    requires Inverts(u, Int(e), Int(e')) && Inverts(w, Int(c.hash(e)), Int(c.hash(e')))
    ensures diff == ScalarBaseMult(Solved(r, r', u))
    ensures pk == ScalarBaseMult(Solved(s, s', w))
    ensures image == c.Preimage(pk, Solved(s, s', w))
  {
    hide PedersenDiffPK2, ScalarMult, Solved, Inverts, LinkPoints;
    LinkParts(c, r, s, e, diff, pk, image);
    LinkParts(c, r', s', e', diff, pk, image);
    Extract(G, diff, r, Int(e), r', Int(e'), u);
    Extract(G, pk, s, Int(c.hash(e)), s', Int(c.hash(e')), w);
    Extract(c.ImageBase(pk), image, s, Int(c.hash(e)), s', Int(c.hash(e')), w);
  }

  lemma LinkParts(c: Suite, r: nat, s: nat, e: Digest, diff: Point, pk: Point, image: Point)
    ensures
      var points := LinkPoints(c, r, s, e, diff, pk, image);
      && points.0 == PedersenDiffPK2(r, Int(e), G, diff)
      && points.1 == PedersenDiffPK2(s, Int(c.hash(e)), G, pk)
      && points.2 == PedersenDiffPK2(s, Int(c.hash(e)), c.ImageBase(pk), image)
  {
    hide Int, PedersenDiffPK, PedersenDiffPK2;
    OverG(r, Int(e), diff);
    OverG(s, Int(c.hash(e)), pk);
  }

  lemma OverG(s: nat, e: nat, pk: Point)
    ensures PedersenDiffPK(s, e, pk) == PedersenDiffPK2(s, e, G, pk)
  {
  }

  /** As the order is prime, challenges distinct modulo it have a difference with an inverse; and only they do. */
  lemma DistinctInverts(d: nat, e: nat) returns (u: nat)
    requires Prime(ORDER)
    ensures Inverts(u, d, e) <==> d % ORDER != e % ORDER
  {
    hide MultR;
    SubtractRemainders(d, e);
    if d % ORDER != e % ORDER {
      var b := Inverse(d - e, ORDER);
      u := b % ORDER;
      MultRIsProduct(Reduced(d, e), u);
      ProductReduces(d - e, u, ORDER);
      ProductReduces(b, d - e, ORDER);
      assert b * (d - e) == (d - e) * b && (d - e) * u == (d - e) * (b % ORDER);
    } else {
      u := 0;
      assert MultR(Reduced(d, e), 0) == 0 by {
        MultRIsProduct(Reduced(d, e), 0);
      }
    }
  }

  /**
   What a signer from whom two answers can be had has spent: its input's amount is the
   outputs' plus the fee modulo the order, and as integers exactly when these stay below it.
   */
  lemma ExtractedSpendBalances(c: Suite, body: TxnBody, ic: Point, yi: nat, v: nat, blinds: seq<nat>, amts: seq<nat>,
                               r: nat, s: nat, e: Digest, r': nat, s': nat, e': Digest, pk: Point, image: Point,
                               u: nat, w: nat)
    requires ic == PedersenSum(yi, v) && OutputsOpen(body.outputs, blinds, amts) && v < UINT64
    requires
      var diff := Add(ic, Neg(OutputTotal(body)));
      LinkPoints(c, r, s, e, diff, pk, image) == LinkPoints(c, r', s', e', diff, pk, image)
    requires Inverts(u, Int(e), Int(e')) && Inverts(w, Int(c.hash(e)), Int(c.hash(e')))
    ensures v % ORDER == (Sum(amts) + body.fee) % ORDER
    ensures v == Sum(amts) + body.fee <==> Sum(amts) + body.fee < ORDER
  {
    hide LinkPoints, ScalarBaseMult, Inverts;
    var diff := Add(ic, Neg(OutputTotal(body)));
    Extraction(c, r, s, e, r', s', e', diff, pk, image, u, w);
    ZeroSumMeansBalance(body, ic, yi, v, blinds, amts);
    OutputTotalOpens(body, blinds, amts);
    SmallRemainder(v, ORDER);
    SmallRemainder(Sum(amts) + body.fee, ORDER);
  }
}
