/**
 The one-time zero-sum ring signature: the signer walks the ring from the index
 after its own, the verifier from index 0, and the two agree on every challenge
 because the signer's answers close the ring.
 */
module RingSignature {
  import opened Arithmetic
  import opened Bytes
  import opened Curve
  import opened Primitives

  /** What every link of one ring shares. */
  datatype Ring = Ring(m: Digest, pks: seq<Point>, diffs: seq<Point>, image: Point)

  /** The random integers of one signature: two nonces, and an answer pair for every decoy. */
  datatype SignNonces = SignNonces(k1: nat, k2: nat, rs: seq<nat>, ss: seq<nat>)

  predicate Sized(c: Suite, ring: Ring) {
    c.ring <= |ring.pks| && c.ring <= |ring.diffs|
  }

  // --- Commitment differences ---

  function SumCommits(outputs: seq<Output>, k: nat): Point
    requires k <= |outputs|
  {
    if k == 0 then IDENTITY else Add(SumCommits(outputs, k - 1), outputs[k - 1].commit.point)
  }

  /** The total output commitment, fee included. */
  function OutputTotal(body: TxnBody): Point {
    Add(SumCommits(body.outputs, |body.outputs|), PedersenSum(0, body.fee))
  }

  function Differences(body: TxnBody, ics: seq<Point>): (diffs: seq<Point>)
    ensures |diffs| == |ics|
  {
    seq(|ics|, i requires 0 <= i < |ics| => Add(ics[i], Neg(OutputTotal(body))))
  }

  method CommitDifferences(body: TxnBody, ics: seq<Point>) returns (diffs: seq<Point>)
    ensures diffs == Differences(body, ics)
  {
    var oc := IDENTITY;
    for i := 0 to |body.outputs|
      invariant oc == SumCommits(body.outputs, i)
    {
      oc := Add(oc, body.outputs[i].commit.point);
    }
    oc := Neg(Add(oc, PedersenSum(0, body.fee)));
    diffs := [];
    for i := 0 to |ics|
      invariant |diffs| == i
      invariant forall j :: 0 <= j < i ==> diffs[j] == Add(ics[j], Neg(OutputTotal(body)))
    {
      diffs := diffs + [Add(ics[i], oc)];
    }
  }

  // --- One link ---

  /** The three points of a link, given its answers and its challenge. */
  function LinkPoints(c: Suite, r: nat, s: nat, e1: Digest, diff: Point, pk: Point, image: Point)
    : (Point, Point, Point)
  {
    var e2 := c.hash(e1);
    (PedersenDiffPK(r, Int(e1), diff),
     PedersenDiffPK(s, Int(e2), pk),
     PedersenDiffPK2(s, Int(e2), c.ImageBase(pk), image))
  }

  function LinkHash(c: Suite, m: Digest, points: (Point, Point, Point)): Digest {
    c.hash(m + c.encode(points.0) + c.encode(points.1) + c.encode(points.2))
  }

  function ComputeE3(c: Suite, m: Digest, r: nat, s: nat, e1: Digest, diff: Point, pk: Point, image: Point): Digest {
    LinkHash(c, m, LinkPoints(c, r, s, e1, diff, pk, image))
  }

  /** The challenge the signer starts from, one index after its own. */
  function Opening(c: Suite, m: Digest, k1: nat, k2: nat, pk: Point): Digest {
    LinkHash(c, m, (ScalarBaseMult(k1), ScalarBaseMult(k2), c.Preimage(pk, k2)))
  }

  // --- Walking the ring ---

  function Next(c: Suite, i: nat): (next: nat)
    requires i < c.ring
    ensures next < c.ring
  {
    if i + 1 == c.ring then 0 else i + 1
  }

  lemma NextIsRemainder(c: Suite, i: nat)
    requires i < c.ring
    ensures (i + 1) % c.ring == Next(c, i)
  {
    ModUnique(i + 1, if i + 1 == c.ring then 1 else 0, Next(c, i), c.ring);
  }

  /** How many links lead to index i from the one after idx. */
  function LinksTo(c: Suite, idx: nat, i: nat): (links: nat)
    requires idx < c.ring && i < c.ring
    ensures links < c.ring
  {
    if i > idx then i - idx - 1 else i + c.ring - idx - 1
  }

  function Walk(c: Suite, i: nat, steps: nat): (at: nat)
    requires i < c.ring
    ensures at < c.ring
    decreases steps
  {
    if steps == 0 then i else Walk(c, Next(c, i), steps - 1)
  }

  function Link(c: Suite, ring: Ring, rs: seq<nat>, ss: seq<nat>, i: nat, e: Digest): Digest
    requires Sized(c, ring) && i < c.ring == |rs| == |ss|
  {
    ComputeE3(c, ring.m, rs[i], ss[i], e, ring.diffs[i], ring.pks[i], ring.image)
  }

  /** The challenge reached from challenge e at index i after the given number of links. */
  function Forward(c: Suite, ring: Ring, rs: seq<nat>, ss: seq<nat>, i: nat, e: Digest, steps: nat): Digest
    requires Sized(c, ring) && i < c.ring == |rs| == |ss|
    decreases steps
  {
    if steps == 0 then e else
      Forward(c, ring, rs, ss, Next(c, i), Link(c, ring, rs, ss, i, e), steps - 1)
  }

  lemma {:induction false} WalkAt(c: Suite, i: nat, steps: nat)
    requires i < c.ring && steps <= c.ring
    ensures Walk(c, i, steps) == if i + steps < c.ring then i + steps else i + steps - c.ring
    decreases steps
  {
    if steps > 0 {
      WalkAt(c, Next(c, i), steps - 1);
    }
  }

  lemma {:induction false} ForwardSplit(c: Suite, ring: Ring, rs: seq<nat>, ss: seq<nat>, i: nat, e: Digest, a: nat,
                                        b: nat)
    requires Sized(c, ring) && i < c.ring == |rs| == |ss|
    ensures Forward(c, ring, rs, ss, i, e, a + b)
         == Forward(c, ring, rs, ss, Walk(c, i, a), Forward(c, ring, rs, ss, i, e, a), b)
    decreases a
  {
    hide Link;
    if a > 0 {
      ForwardSplit(c, ring, rs, ss, Next(c, i), Link(c, ring, rs, ss, i, e), a - 1, b);
    }
  }

  /** A ring that closes at one index closes at every index. */
  lemma ClosedEverywhere(c: Suite, ring: Ring, rs: seq<nat>, ss: seq<nat>, i: nat, e: Digest, a: nat)
    requires Sized(c, ring) && i < c.ring == |rs| == |ss|
    requires Forward(c, ring, rs, ss, i, e, c.ring) == e
    ensures
      var reached := Forward(c, ring, rs, ss, i, e, a);
      Forward(c, ring, rs, ss, Walk(c, i, a), reached, c.ring) == reached
  {
    hide Link;
    ForwardSplit(c, ring, rs, ss, i, e, a, c.ring);
    ForwardSplit(c, ring, rs, ss, i, e, c.ring, a);
    WalkAt(c, i, c.ring);
  }

  /** Answers at an index that is not visited do not matter. */
  lemma {:induction false} ForwardAvoids(c: Suite, ring: Ring, rs: seq<nat>, ss: seq<nat>, idx: nat, r: nat, s: nat,
                                         i: nat, e: Digest, steps: nat)
    requires Sized(c, ring) && i < c.ring == |rs| == |ss| && idx < c.ring
    requires steps <= if i <= idx then idx - i else idx + c.ring - i
    ensures Forward(c, ring, rs[idx := r], ss[idx := s], i, e, steps) == Forward(c, ring, rs, ss, i, e, steps)
    decreases steps
  {
    hide ComputeE3;
    if steps > 0 {
      ForwardAvoids(c, ring, rs, ss, idx, r, s, Next(c, i), Link(c, ring, rs, ss, i, e), steps - 1);
    }
  }

  // --- Signing ---

  /** The challenge the signer holds after the given number of links from the index after its own. */
  function SignerChallenge(c: Suite, ring: Ring, idx: nat, nonces: SignNonces, steps: nat): Digest
    requires Sized(c, ring) && idx < c.ring == |nonces.rs| == |nonces.ss|
  {
    Forward(c, ring, nonces.rs, nonces.ss, Next(c, idx),
            Opening(c, ring.m, nonces.k1, nonces.k2, ring.pks[idx]), steps)
  }

  function Signature(c: Suite, ring: Ring, sk: nat, z: nat, idx: nat, nonces: SignNonces): (sig: OZRS)
    requires Sized(c, ring) && idx < c.ring == |nonces.rs| == |nonces.ss|
    ensures |sig.rs| == |sig.ss| == c.ring
  {
    var e1 := SignerChallenge(c, ring, idx, nonces, c.ring - 1);
    OZRS(ring.image,
         SignerChallenge(c, ring, idx, nonces, c.ring - 1 - idx),
         nonces.rs[idx := TimeTravel(z, nonces.k1, e1)],
         nonces.ss[idx := TimeTravel(sk, nonces.k2, c.hash(e1))])
  }

  /** The multiplier of the difference at the signer's index: input less output blinding factor. */
  function ZeroSumKey(yi: nat, yOut: nat): nat {
    (yi - yOut) % ORDER
  }

  function RingOf(c: Suite, body: TxnBody, pks: seq<Point>, ics: seq<Point>, image: Point): Ring {
    Ring(c.hash(c.bodyJson(body)), pks, Differences(body, ics), image)
  }

  function SignedBody(c: Suite, body: TxnBody, pks: seq<Point>, ics: seq<Point>, sk: nat, yi: nat, idx: nat, yOut: nat,
                      nonces: SignNonces): (sig: OZRS)
    requires c.ring <= |pks| && c.ring <= |ics|
    requires idx < c.ring == |nonces.rs| == |nonces.ss|
    ensures |sig.rs| == |sig.ss| == c.ring
  {
    var ring := RingOf(c, body, pks, ics, c.Preimage(pks[idx], sk));
    Signature(c, ring, sk, ZeroSumKey(yi, yOut), idx, nonces)
  }

  method OZRSSign(c: Suite, body: TxnBody, pks: seq<Point>, ics: seq<Point>, sk: nat, yi: nat, idx: nat, yOut: nat,
                  nonces: SignNonces)
    returns (sig: OZRS)
    requires c.ring <= |pks| && c.ring <= |ics|
    requires idx < c.ring == |nonces.rs| == |nonces.ss|
    ensures sig == SignedBody(c, body, pks, ics, sk, yi, idx, yOut, nonces)
  {
    hide ComputeE3, Opening, SignerChallenge, Differences, TimeTravel;
    var m := c.hash(c.bodyJson(body));
    var image := c.Preimage(pks[idx], sk);
    var diffs := CommitDifferences(body, ics);
    var ring := Ring(m, pks, diffs, image);

    var es := new Digest[c.ring](_ => ZERO_DIGEST);
    var rs := new nat[c.ring](_ => 0);
    var ss := new nat[c.ring](_ => 0);
    var next := Next(c, idx);
    es[next] := Opening(c, m, nonces.k1, nonces.k2, pks[idx]);
    FirstChallenge(c, ring, idx, nonces);
    ComputeForward(c, ring, idx, nonces, es, rs, ss);

    var e1 := es[idx];
    var e2 := c.hash(e1);
    var z := (yi - yOut) % ORDER;
    rs[idx] := TimeTravel(z, nonces.k1, e1);
    ss[idx] := TimeTravel(sk, nonces.k2, e2);
    assert rs[..] == nonces.rs[idx := rs[idx]];
    assert ss[..] == nonces.ss[idx := ss[idx]];
    sig := OZRS(image, es[0], rs[..], ss[..]);
  }

  /** Fills in decoy answers and challenges from the index after the signer's up to the signer's own. */
  method ComputeForward(c: Suite, ring: Ring, idx: nat, nonces: SignNonces,
                        es: array<Digest>, rs: array<nat>, ss: array<nat>)
    requires Sized(c, ring) && idx < c.ring == |nonces.rs| == |nonces.ss| == es.Length == rs.Length == ss.Length
    requires rs != ss
    requires es[Next(c, idx)] == SignerChallenge(c, ring, idx, nonces, 0)
    modifies es, rs, ss
    ensures forall p :: 0 <= p < c.ring ==> es[p] == SignerChallenge(c, ring, idx, nonces, LinksTo(c, idx, p))
    ensures forall p :: 0 <= p < c.ring && p != idx ==> rs[p] == nonces.rs[p] && ss[p] == nonces.ss[p]
  {
    hide ComputeE3, SignerChallenge;
    var i: nat := Next(c, idx);
    ghost var j := 0;
    while i != idx
      invariant i < c.ring && j == LinksTo(c, idx, i)
      invariant forall p :: 0 <= p < c.ring && LinksTo(c, idx, p) <= j ==>
        es[p] == SignerChallenge(c, ring, idx, nonces, LinksTo(c, idx, p))
      invariant forall p :: 0 <= p < c.ring && LinksTo(c, idx, p) < j ==> rs[p] == nonces.rs[p] && ss[p] == nonces.ss[p]
      decreases c.ring - j
    {
      rs[i], ss[i] := nonces.rs[i], nonces.ss[i];
      var next := (i + 1) % c.ring;
      NextIsRemainder(c, i);
      es[next] := ComputeE3(c, ring.m, rs[i], ss[i], es[i], ring.diffs[i], ring.pks[i], ring.image);
      StepChallenge(c, ring, idx, nonces, i);
      i := next;
      j := j + 1;
    }
  }

  lemma FirstChallenge(c: Suite, ring: Ring, idx: nat, nonces: SignNonces)
    requires Sized(c, ring) && idx < c.ring == |nonces.rs| == |nonces.ss|
    ensures SignerChallenge(c, ring, idx, nonces, 0) == Opening(c, ring.m, nonces.k1, nonces.k2, ring.pks[idx])
  {
  }

  lemma StepChallenge(c: Suite, ring: Ring, idx: nat, nonces: SignNonces, i: nat)
    requires Sized(c, ring) && idx < c.ring == |nonces.rs| == |nonces.ss| && i < c.ring
    ensures SignerChallenge(c, ring, idx, nonces, LinksTo(c, idx, i) + 1)
         == Link(c, ring, nonces.rs, nonces.ss, i, SignerChallenge(c, ring, idx, nonces, LinksTo(c, idx, i)))
  {
    hide ComputeE3, Opening;
    var e := Opening(c, ring.m, nonces.k1, nonces.k2, ring.pks[idx]);
    ForwardSplit(c, ring, nonces.rs, nonces.ss, Next(c, idx), e, LinksTo(c, idx, i), 1);
    WalkAt(c, Next(c, idx), LinksTo(c, idx, i));
  }

  // --- Verification ---

  /** The challenge the verifier computes for index i. */
  function VerifierChallenge(c: Suite, ring: Ring, sig: OZRS, i: nat): Digest
    requires Sized(c, ring) && c.ring == |sig.rs| == |sig.ss|
  {
    Forward(c, ring, sig.rs, sig.ss, 0, sig.e, i)
  }

  predicate Accepts(c: Suite, txn: Txn, pks: seq<Point>, ics: seq<Point>)
    requires c.ring <= |pks| && c.ring <= |ics|
  {
    |txn.sig.rs| == |txn.sig.ss| == c.ring &&
    VerifierChallenge(c, RingOf(c, txn.body, pks, ics, txn.sig.preimage), txn.sig, c.ring) == txn.sig.e
  }

  method VerifyOZRS(c: Suite, txn: Txn, pks: seq<Point>, ics: seq<Point>) returns (ok: bool)
    requires c.ring <= |pks| && c.ring <= |ics|
    requires |txn.sig.rs| == |txn.sig.ss| == c.ring
    ensures ok == Accepts(c, txn, pks, ics)
  {
    hide ComputeE3;
    var m := c.hash(c.bodyJson(txn.body));
    var diffs := CommitDifferences(txn.body, ics);
    var image := txn.sig.preimage;
    ghost var ring := RingOf(c, txn.body, pks, ics, image);
    var es := new Digest[c.ring](_ => ZERO_DIGEST);
    es[0] := txn.sig.e;
    for i := 0 to c.ring - 1
      invariant es[i] == VerifierChallenge(c, ring, txn.sig, i)
    {
      es[i + 1] := ComputeE3(c, m, txn.sig.rs[i], txn.sig.ss[i], es[i], diffs[i], pks[i], image);
      VerifierStep(c, ring, txn.sig, i);
    }
    var li := c.ring - 1;
    var e0 := ComputeE3(c, m, txn.sig.rs[li], txn.sig.ss[li], es[li], diffs[li], pks[li], image);
    VerifierStep(c, ring, txn.sig, li);
    ok := txn.sig.e == e0;
  }

  lemma VerifierStep(c: Suite, ring: Ring, sig: OZRS, i: nat)
    requires Sized(c, ring) && i < c.ring == |sig.rs| == |sig.ss|
    ensures VerifierChallenge(c, ring, sig, i + 1)
         == Link(c, ring, sig.rs, sig.ss, i, VerifierChallenge(c, ring, sig, i))
  {
    hide ComputeE3;
    ForwardSplit(c, ring, sig.rs, sig.ss, 0, sig.e, i, 1);
    WalkAt(c, 0, i);
  }

  // --- Completeness ---

  /** The signer's own link leads back to the challenge it opened with. */
  lemma OwnLinkCloses(c: Suite, m: Digest, e1: Digest, sk: nat, z: nat, k1: nat, k2: nat, diff: Point, pk: Point)
    requires pk == ScalarBaseMult(sk) && diff == ScalarBaseMult(z)
    ensures ComputeE3(c, m, TimeTravel(z, k1, e1), TimeTravel(sk, k2, c.hash(e1)), e1, diff, pk, c.Preimage(pk, sk))
         == Opening(c, m, k1, k2, pk)
  {
    AnswerCloses(G, z, k1, Int(e1));
    AnswerCloses(G, sk, k2, Int(c.hash(e1)));
    AnswerCloses(c.ImageBase(pk), sk, k2, Int(c.hash(e1)));
    hide PedersenDiffPK2, ScalarMult;
  }

  /**
   Completeness: when the signer knows the key at its index and the difference
   there is a multiple z of G, the ring closes and the verifier's challenge at
   every index is the signer's, for every ring size, index, nonce and decoy.
   */
  lemma SignatureCloses(c: Suite, ring: Ring, sk: nat, z: nat, idx: nat, nonces: SignNonces)
    requires Sized(c, ring) && idx < c.ring == |nonces.rs| == |nonces.ss|
    requires ring.pks[idx] == ScalarBaseMult(sk) && ring.diffs[idx] == ScalarBaseMult(z)
    requires ring.image == c.Preimage(ring.pks[idx], sk)
    ensures
      var sig := Signature(c, ring, sk, z, idx, nonces);
      && VerifierChallenge(c, ring, sig, c.ring) == sig.e
      && forall i :: 0 <= i < c.ring ==>
           VerifierChallenge(c, ring, sig, i) == SignerChallenge(c, ring, idx, nonces, LinksTo(c, idx, i))
  {
    hide ComputeE3, Opening, ScalarBaseMult, TimeTravel;
    var sig := Signature(c, ring, sk, z, idx, nonces);
    var start, home := Next(c, idx), c.ring - 1 - idx;
    var e := Opening(c, ring.m, nonces.k1, nonces.k2, ring.pks[idx]);
    RingClosesAtSigner(c, ring, sk, z, idx, nonces);
    // Index 0 is reached after 'home' links; from there on the two walks coincide
    WalkAt(c, start, home);
    ForwardAvoids(c, ring, nonces.rs, nonces.ss, idx, sig.rs[idx], sig.ss[idx], start, e, home);
    ClosedEverywhere(c, ring, sig.rs, sig.ss, start, e, home);
    forall i | 0 <= i < c.ring
      ensures VerifierChallenge(c, ring, sig, i) == SignerChallenge(c, ring, idx, nonces, LinksTo(c, idx, i))
    {
      var links := LinksTo(c, idx, i);
      ForwardSplit(c, ring, sig.rs, sig.ss, start, e, home, i);
      ForwardAvoids(c, ring, nonces.rs, nonces.ss, idx, sig.rs[idx], sig.ss[idx], start, e, links);
      if i > idx {
        ForwardSplit(c, ring, sig.rs, sig.ss, start, e, c.ring, links);
        WalkAt(c, start, c.ring);
      }
    }
  }

  lemma RingClosesAtSigner(c: Suite, ring: Ring, sk: nat, z: nat, idx: nat, nonces: SignNonces)
    requires Sized(c, ring) && idx < c.ring == |nonces.rs| == |nonces.ss|
    requires ring.pks[idx] == ScalarBaseMult(sk) && ring.diffs[idx] == ScalarBaseMult(z)
    requires ring.image == c.Preimage(ring.pks[idx], sk)
    ensures
      var sig := Signature(c, ring, sk, z, idx, nonces);
      var e := Opening(c, ring.m, nonces.k1, nonces.k2, ring.pks[idx]);
      Forward(c, ring, sig.rs, sig.ss, Next(c, idx), e, c.ring) == e
  {
    hide ComputeE3, Opening, ScalarBaseMult, TimeTravel;
    var sig := Signature(c, ring, sk, z, idx, nonces);
    var n: nat, start := c.ring, Next(c, idx);
    var e := Opening(c, ring.m, nonces.k1, nonces.k2, ring.pks[idx]);
    ForwardAvoids(c, ring, nonces.rs, nonces.ss, idx, sig.rs[idx], sig.ss[idx], start, e, n - 1);
    WalkAt(c, start, n - 1);
    ForwardSplit(c, ring, sig.rs, sig.ss, start, e, n - 1, 1);
    OwnLinkCloses(c, ring.m, SignerChallenge(c, ring, idx, nonces, n - 1), sk, z, nonces.k1, nonces.k2,
                  ring.diffs[idx], ring.pks[idx]);
  }

  /** Signing then verifying succeeds whenever the signer's key and difference are as claimed. */
  lemma SignedBodyAccepts(c: Suite, body: TxnBody, pks: seq<Point>, ics: seq<Point>, sk: nat, yi: nat, idx: nat,
                          yOut: nat, nonces: SignNonces)
    requires c.ring <= |pks| && c.ring <= |ics|
    requires idx < c.ring == |nonces.rs| == |nonces.ss|
    requires pks[idx] == ScalarBaseMult(sk)
    requires Differences(body, ics)[idx] == ScalarBaseMult(ZeroSumKey(yi, yOut))
    ensures Accepts(c, Txn(body, SignedBody(c, body, pks, ics, sk, yi, idx, yOut, nonces)), pks, ics)
  {
    hide ScalarBaseMult, SignerChallenge, TimeTravel, Differences, ZeroSumKey;
    var ring := RingOf(c, body, pks, ics, c.Preimage(pks[idx], sk));
    SignatureCloses(c, ring, sk, ZeroSumKey(yi, yOut), idx, nonces);
  }
}
