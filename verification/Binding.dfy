/**
 What follows from acceptance: a signature is bound to the body it signs and to its
 last link, a range proof to its keys and answers, each up to two explicit byte strings
 with one hash; and two acceptances under different challenges give away what the
 signer claims to know.
 */
module Binding {
  import opened Bytes
  import opened Curve
  import opened Primitives
  import opened RangeProofs
  import opened RingSignature
  import opened Balance
  import opened RangeBinding

  /** Two different byte strings with one hash. */
  predicate Collide(c: Suite, x: seq<Byte>, y: seq<Byte>) {
    x != y && c.hash(x) == c.hash(y)
  }

  /** Points are encoded one to one, in one length. */
  ghost predicate EncodesPoints(c: Suite) {
    && (forall p, q :: c.encode(p) == c.encode(q) ==> p == q)
    && (forall p, q :: |c.encode(p)| == |c.encode(q)|)
  }

  lemma SplitEqual(a: seq<Byte>, b: seq<Byte>, x: seq<Byte>, y: seq<Byte>)
    requires |a| == |b| && a + x == b + y
    ensures a == b && x == y
  {
    assert a == (a + x)[..|a|] && b == (b + y)[..|b|];
    assert x == (a + x)[|a|..] && y == (b + y)[|b|..];
  }

  // --- The ring signature ---

  /** The bytes that a link is hashed from: the message, then the three points. */
  function LinkBytes(c: Suite, m: Digest, points: (Point, Point, Point)): seq<Byte> {
    m + (c.encode(points.0) + (c.encode(points.1) + c.encode(points.2)))
  }

  lemma LinkHashes(c: Suite, m: Digest, points: (Point, Point, Point))
    ensures LinkHash(c, m, points) == c.hash(LinkBytes(c, m, points))
  {
    assert m + c.encode(points.0) + c.encode(points.1) + c.encode(points.2) == LinkBytes(c, m, points);
  }

  /**
   A signature is accepted if and only if there is a round of challenges that starts and
   ends at its own, each the hash of the message and of the three points of its link.
   */
  lemma AcceptsMeansARound(c: Suite, txn: Txn, pks: seq<Point>, ics: seq<Point>)
    requires c.ring <= |pks| && c.ring <= |ics| && |txn.sig.rs| == |txn.sig.ss| == c.ring
    ensures Accepts(c, txn, pks, ics)
       <==> exists es: seq<Digest> ::
              |es| == c.ring + 1 && es[0] == es[c.ring] == txn.sig.e && Round(c, txn, pks, ics, es)
  {
    hide Forward, LinkBytes, LinkPoints, Differences;
    var ring := RingOf(c, txn.body, pks, ics, txn.sig.preimage);
    var es := seq(c.ring + 1, i requires 0 <= i <= c.ring => VerifierChallenge(c, ring, txn.sig, i));
    assert es[0] == txn.sig.e by {
      StartsAtOwn(c, ring, txn.sig);
    }
    forall i | 0 <= i < c.ring ensures RoundStep(c, txn, pks, ics, i, es[i], es[i + 1]) {
      VerifierStep(c, ring, txn.sig, i);
      StepIsRoundStep(c, txn, pks, ics, i, es[i]);
    }
    if fs: seq<Digest> :| |fs| == c.ring + 1 && fs[0] == fs[c.ring] == txn.sig.e && Round(c, txn, pks, ics, fs) {
      RoundIsWalk(c, txn, pks, ics, fs, c.ring);
    }
  }

  lemma StartsAtOwn(c: Suite, ring: Ring, sig: OZRS)
    requires Sized(c, ring) && c.ring == |sig.rs| == |sig.ss|
    ensures VerifierChallenge(c, ring, sig, 0) == sig.e
  {
  }

  ghost predicate Round(c: Suite, txn: Txn, pks: seq<Point>, ics: seq<Point>, es: seq<Digest>)
    requires c.ring <= |pks| && c.ring <= |ics| && |txn.sig.rs| == |txn.sig.ss| == c.ring && |es| == c.ring + 1
  {
    forall i :: 0 <= i < c.ring ==> RoundStep(c, txn, pks, ics, i, es[i], es[i + 1])
  }

  /** One link, written out: H(H(body) | rG - eD | sG - H(e)X | s Hp(X) - H(e)I). */
  ghost predicate RoundStep(c: Suite, txn: Txn, pks: seq<Point>, ics: seq<Point>, i: nat, e: Digest, next: Digest)
    requires i < c.ring <= |pks| && c.ring <= |ics| && |txn.sig.rs| == |txn.sig.ss| == c.ring
  {
    var r, s, e2 := txn.sig.rs[i], txn.sig.ss[i], c.hash(e);
    var diff := Add(ics[i], Neg(OutputTotal(txn.body)));
    next == c.hash(c.hash(c.bodyJson(txn.body))
                   + (c.encode(Add(ScalarBaseMult(r), Neg(ScalarMult(diff, Int(e)))))
                      + (c.encode(Add(ScalarBaseMult(s), Neg(ScalarMult(pks[i], Int(e2)))))
                         + c.encode(Add(ScalarMult(c.ImageBase(pks[i]), s),
                                        Neg(ScalarMult(txn.sig.preimage, Int(e2))))))))
  }

  lemma StepIsRoundStep(c: Suite, txn: Txn, pks: seq<Point>, ics: seq<Point>, i: nat, e: Digest)
    requires i < c.ring <= |pks| && c.ring <= |ics| && |txn.sig.rs| == |txn.sig.ss| == c.ring
    ensures RoundStep(c, txn, pks, ics, i, e,
                      Link(c, RingOf(c, txn.body, pks, ics, txn.sig.preimage), txn.sig.rs, txn.sig.ss, i, e))
  {
    hide Add, Neg, ScalarMult, OutputTotal, Int, Suite.ImageBase;
    var ring := RingOf(c, txn.body, pks, ics, txn.sig.preimage);
    LinkHashes(c, ring.m, LinkPoints(c, txn.sig.rs[i], txn.sig.ss[i], e, ring.diffs[i], pks[i], ring.image));
  }

  lemma {:induction false} RoundIsWalk(c: Suite, txn: Txn, pks: seq<Point>, ics: seq<Point>, es: seq<Digest>, n: nat)
    requires c.ring <= |pks| && c.ring <= |ics| && |txn.sig.rs| == |txn.sig.ss| == c.ring && |es| == c.ring + 1
    requires es[0] == txn.sig.e && Round(c, txn, pks, ics, es) && n <= c.ring
    ensures VerifierChallenge(c, RingOf(c, txn.body, pks, ics, txn.sig.preimage), txn.sig, n) == es[n]
  {
    hide Forward, Link;
    var ring := RingOf(c, txn.body, pks, ics, txn.sig.preimage);
    if n == 0 {
      StartsAtOwn(c, ring, txn.sig);
    } else {
      RoundIsWalk(c, txn, pks, ics, es, n - 1);
      VerifierStep(c, ring, txn.sig, n - 1);
      StepIsRoundStep(c, txn, pks, ics, n - 1, es[n - 1]);
      assert RoundStep(c, txn, pks, ics, n - 1, es[n - 1], es[n]);
      OneNext(c, txn, pks, ics, n - 1, es[n - 1], es[n], VerifierChallenge(c, ring, txn.sig, n));
    }
  }

  lemma OneNext(c: Suite, txn: Txn, pks: seq<Point>, ics: seq<Point>, i: nat, e: Digest, x: Digest, y: Digest)
    requires i < c.ring <= |pks| && c.ring <= |ics| && |txn.sig.rs| == |txn.sig.ss| == c.ring
    requires RoundStep(c, txn, pks, ics, i, e, x) && RoundStep(c, txn, pks, ics, i, e, y)
    ensures x == y
  {
  }

  /** The three points of the last link of an accepted signature, and the bytes its challenge is the hash of. */
  function LastPoints(c: Suite, txn: Txn, pks: seq<Point>, ics: seq<Point>): (Point, Point, Point)
    requires c.ring <= |pks| && c.ring <= |ics| && |txn.sig.rs| == |txn.sig.ss| == c.ring
  {
    var ring, n := RingOf(c, txn.body, pks, ics, txn.sig.preimage), c.ring - 1;
    LinkPoints(c, txn.sig.rs[n], txn.sig.ss[n], VerifierChallenge(c, ring, txn.sig, n), ring.diffs[n], ring.pks[n],
               ring.image)
  }

  function LastBytes(c: Suite, txn: Txn, pks: seq<Point>, ics: seq<Point>): seq<Byte>
    requires c.ring <= |pks| && c.ring <= |ics| && |txn.sig.rs| == |txn.sig.ss| == c.ring
  {
    LinkBytes(c, c.hash(c.bodyJson(txn.body)), LastPoints(c, txn, pks, ics))
  }

  lemma AcceptedHashes(c: Suite, txn: Txn, pks: seq<Point>, ics: seq<Point>)
    requires c.ring <= |pks| && c.ring <= |ics| && Accepts(c, txn, pks, ics)
    ensures txn.sig.e == c.hash(LastBytes(c, txn, pks, ics))
  {
    hide Forward, LinkPoints, LinkHash, LinkBytes;
    var ring := RingOf(c, txn.body, pks, ics, txn.sig.preimage);
    VerifierStep(c, ring, txn.sig, c.ring - 1);
    LinkHashes(c, ring.m, LastPoints(c, txn, pks, ics));
  }

  /**
   A signature is bound to its body: accepted with two bodies, whatever the keys and
   commitments, it gives two byte strings with one hash, unless the bodies have one.
   */
  lemma BodyBound(c: Suite, txn: Txn, pks: seq<Point>, ics: seq<Point>, other: Txn, pks': seq<Point>, ics': seq<Point>)
    requires c.ring <= |pks| && c.ring <= |ics| && Accepts(c, txn, pks, ics)
    requires c.ring <= |pks'| && c.ring <= |ics'| && Accepts(c, other, pks', ics')
    requires txn.sig.e == other.sig.e && txn.body != other.body
    ensures Collide(c, LastBytes(c, txn, pks, ics), LastBytes(c, other, pks', ics'))
         || Collide(c, c.bodyJson(txn.body), c.bodyJson(other.body))
         || c.bodyJson(txn.body) == c.bodyJson(other.body)
  {
    hide VerifierChallenge, LastPoints;
    AcceptedHashes(c, txn, pks, ics);
    AcceptedHashes(c, other, pks', ics');
    var p, q := LastPoints(c, txn, pks, ics), LastPoints(c, other, pks', ics');
    if LastBytes(c, txn, pks, ics) == LastBytes(c, other, pks', ics') {
      SplitEqual(c.hash(c.bodyJson(txn.body)), c.hash(c.bodyJson(other.body)),
                 c.encode(p.0) + (c.encode(p.1) + c.encode(p.2)), c.encode(q.0) + (c.encode(q.1) + c.encode(q.2)));
    }
  }

  /** Accepted with one challenge, two signatures have the same points in their last link, or give a collision. */
  lemma LastPointsBound(c: Suite, txn: Txn, pks: seq<Point>, ics: seq<Point>, other: Txn, pks': seq<Point>,
                        ics': seq<Point>)
    requires EncodesPoints(c)
    requires c.ring <= |pks| && c.ring <= |ics| && Accepts(c, txn, pks, ics)
    requires c.ring <= |pks'| && c.ring <= |ics'| && Accepts(c, other, pks', ics')
    requires txn.sig.e == other.sig.e
    ensures LastPoints(c, txn, pks, ics) == LastPoints(c, other, pks', ics')
         || Collide(c, LastBytes(c, txn, pks, ics), LastBytes(c, other, pks', ics'))
  {
    hide VerifierChallenge, LastPoints;
    AcceptedHashes(c, txn, pks, ics);
    AcceptedHashes(c, other, pks', ics');
    if LastBytes(c, txn, pks, ics) == LastBytes(c, other, pks', ics') {
      LinkBytesSplit(c, c.hash(c.bodyJson(txn.body)), LastPoints(c, txn, pks, ics),
                     c.hash(c.bodyJson(other.body)), LastPoints(c, other, pks', ics'));
    }
  }

  lemma LinkBytesSplit(c: Suite, m: Digest, p: (Point, Point, Point), n: Digest, q: (Point, Point, Point))
    requires EncodesPoints(c) && LinkBytes(c, m, p) == LinkBytes(c, n, q)
    ensures m == n && p == q
  {
    var p12, q12 := c.encode(p.1) + c.encode(p.2), c.encode(q.1) + c.encode(q.2);
    SplitEqual(m, n, c.encode(p.0) + p12, c.encode(q.0) + q12);
    SplitEqual(c.encode(p.0), c.encode(q.0), p12, q12);
    SplitEqual(c.encode(p.1), c.encode(q.1), c.encode(p.2), c.encode(q.2));
  }

  /** The challenge that reaches the last link. */
  function LastChallenge(c: Suite, txn: Txn, pks: seq<Point>, ics: seq<Point>): Digest
    requires c.ring <= |pks| && c.ring <= |ics| && |txn.sig.rs| == |txn.sig.ss| == c.ring
  {
    VerifierChallenge(c, RingOf(c, txn.body, pks, ics, txn.sig.preimage), txn.sig, c.ring - 1)
  }

  /**
   From acceptance to extraction: a body accepted twice with one first challenge and one
   image, but with last challenges whose differences have inverses, gives away the
   multiplier of the last difference and the one key behind its public key and the image,
   or a collision.
   */
  lemma AcceptedTwiceExtracts(c: Suite, txn: Txn, other: Txn, pks: seq<Point>, ics: seq<Point>, u: nat, w: nat)
    requires EncodesPoints(c) && c.ring <= |pks| && c.ring <= |ics|
    requires Accepts(c, txn, pks, ics) && Accepts(c, other, pks, ics)
    requires txn.body == other.body && txn.sig.e == other.sig.e && txn.sig.preimage == other.sig.preimage
    requires
      var e, e' := LastChallenge(c, txn, pks, ics), LastChallenge(c, other, pks, ics);
      Inverts(u, Int(e), Int(e')) && Inverts(w, Int(c.hash(e)), Int(c.hash(e')))
    ensures
      var n, x := c.ring - 1, Solved(txn.sig.ss[c.ring - 1], other.sig.ss[c.ring - 1], w);
      || Collide(c, LastBytes(c, txn, pks, ics), LastBytes(c, other, pks, ics))
      || (&& Add(ics[n], Neg(OutputTotal(txn.body))) == ScalarBaseMult(Solved(txn.sig.rs[n], other.sig.rs[n], u))
          && pks[n] == ScalarBaseMult(x) && txn.sig.preimage == c.Preimage(pks[n], x))
  {
    hide Inverts, Solved, LinkPoints, LinkBytes, Add, Neg, ScalarMult, OutputTotal, Int, VerifierChallenge,
         EncodesPoints, Suite.Preimage;
    var n := c.ring - 1;
    LastPointsBound(c, txn, pks, ics, other, pks, ics);
    if !Collide(c, LastBytes(c, txn, pks, ics), LastBytes(c, other, pks, ics)) {
      var ring := RingOf(c, txn.body, pks, ics, txn.sig.preimage);
      Extraction(c, txn.sig.rs[n], txn.sig.ss[n], LastChallenge(c, txn, pks, ics), other.sig.rs[n], other.sig.ss[n],
                 LastChallenge(c, other, pks, ics), ring.diffs[n], pks[n], txn.sig.preimage, u, w);
    }
  }

  /** A key has one image, whichever logarithm of the key it is built from. */
  lemma OneImage(c: Suite, pk: Point, x: nat)
    requires pk == ScalarBaseMult(x)
    ensures c.Preimage(pk, x) == ScalarMult(pk, Int(c.hash(c.encode(pk))))
  {
    hide ScalarMult, Int;
    MultCommutes(G, Int(c.hash(c.encode(pk))), x);
  }

  // --- The range proof ---

  function KeysHash(c: Suite, proof: RangeProof): Digest {
    c.hash(PairBytes(c, proof.pks))
  }

  /** The bytes that the shared challenge of a proof is to be the hash of. */
  function ProofBytes(c: Suite, proof: RangeProof): seq<Byte>
    requires |proof.ss| == |proof.pks|
  {
    KeysHash(c, proof) + PointBytes(c, VerifierPoints(c, KeysHash(c, proof), proof))
  }

  /** The point a bit leads to, written out: s' G - H(m | sG - eP) P'. */
  ghost predicate BitLeadsTo(c: Suite, proof: RangeProof, i: nat, point: Point)
    requires i < |proof.ss| == |proof.pks|
  {
    var first := Add(ScalarBaseMult(proof.ss[i].0), Neg(ScalarMult(proof.pks[i].0, Int(proof.e))));
    var e := c.hash(KeysHash(c, proof) + c.encode(first));
    point == Add(ScalarBaseMult(proof.ss[i].1), Neg(ScalarMult(proof.pks[i].1, Int(e))))
  }

  /**
   A proof is accepted if and only if its challenge is the hash of its keys' hash and, bit
   by bit, the points that its answers lead to.
   */
  lemma VerifiesMeansPoints(c: Suite, proof: RangeProof)
    requires |proof.ss| == |proof.pks| == c.bits
    ensures Verifies(c, proof)
       <==> exists points: seq<Point> :: |points| == c.bits && AllLeadTo(c, proof, points)
              && proof.e == c.hash(KeysHash(c, proof) + PointBytes(c, points))
  {
    hide PointBytes, PairBytes;
    var points := VerifierPoints(c, KeysHash(c, proof), proof);
    PointsSized(c, proof);
    forall i | 0 <= i < c.bits ensures BitLeadsTo(c, proof, i, points[i]) {
      BitPointLeads(c, proof, i);
    }
    if other: seq<Point> :| |other| == c.bits && AllLeadTo(c, proof, other)
                            && proof.e == c.hash(KeysHash(c, proof) + PointBytes(c, other)) {
      forall i | 0 <= i < c.bits ensures other[i] == points[i] {
        assert BitLeadsTo(c, proof, i, other[i]) && BitLeadsTo(c, proof, i, points[i]);
      }
      assert other == points;
    }
  }

  ghost predicate AllLeadTo(c: Suite, proof: RangeProof, points: seq<Point>)
    requires |proof.ss| == |proof.pks| == |points|
  {
    forall i :: 0 <= i < |points| ==> BitLeadsTo(c, proof, i, points[i])
  }

  lemma BitPointLeads(c: Suite, proof: RangeProof, i: nat)
    requires i < |proof.ss| == |proof.pks|
    ensures BitLeadsTo(c, proof, i, VerifierPoints(c, KeysHash(c, proof), proof)[i])
  {
    hide Add, Neg, ScalarMult, Int, PairBytes;
  }

  lemma {:induction false} PairBytesSplit(c: Suite, p: seq<(Point, Point)>, q: seq<(Point, Point)>)
    requires EncodesPoints(c) && |p| == |q|
    ensures |PairBytes(c, p)| == |PairBytes(c, q)|
    ensures PairBytes(c, p) == PairBytes(c, q) ==> p == q
  {
    if p != [] {
      var n := |p| - 1;
      PairBytesSplit(c, p[..n], q[..n]);
      if PairBytes(c, p) == PairBytes(c, q) {
        SplitEqual(PairBytes(c, p[..n]) + c.encode(p[n].0), PairBytes(c, q[..n]) + c.encode(q[n].0),
                   c.encode(p[n].1), c.encode(q[n].1));
        SplitEqual(PairBytes(c, p[..n]), PairBytes(c, q[..n]), c.encode(p[n].0), c.encode(q[n].0));
        assert p == p[..n] + [p[n]] && q == q[..n] + [q[n]];
      }
    }
  }

  /** A proof is bound to every one of its keys. */
  lemma KeysBound(c: Suite, proof: RangeProof, other: RangeProof)
    requires EncodesPoints(c) && Verifies(c, proof) && Verifies(c, other) && proof.e == other.e
    ensures Collide(c, ProofBytes(c, proof), ProofBytes(c, other))
         || Collide(c, PairBytes(c, proof.pks), PairBytes(c, other.pks)) || proof.pks == other.pks
  {
    hide VerifierPoints, PointBytes, PairBytes, EncodesPoints;
    RangePointsBound(c, proof, other);
    PairBytesSplit(c, proof.pks, other.pks);
  }

  lemma {:induction false} PointBytesSplit(c: Suite, p: seq<Point>, q: seq<Point>)
    requires EncodesPoints(c) && |p| == |q| && PointBytes(c, p) == PointBytes(c, q)
    ensures p == q
  {
    if p != [] {
      var n := |p| - 1;
      PointBytesLength(c, p[..n], q[..n]);
      SplitEqual(PointBytes(c, p[..n]), PointBytes(c, q[..n]), c.encode(p[n]), c.encode(q[n]));
      PointBytesSplit(c, p[..n], q[..n]);
      assert p == p[..n] + [p[n]] && q == q[..n] + [q[n]];
    }
  }

  lemma {:induction false} PointBytesLength(c: Suite, p: seq<Point>, q: seq<Point>)
    requires EncodesPoints(c) && |p| == |q|
    ensures |PointBytes(c, p)| == |PointBytes(c, q)|
  {
    if p != [] {
      PointBytesLength(c, p[..|p| - 1], q[..|q| - 1]);
    }
  }

  /** A range proof is bound to every point it leads to: accepted with one challenge, two proofs reach the same ones. */
  lemma RangePointsBound(c: Suite, proof: RangeProof, other: RangeProof)
    requires EncodesPoints(c) && Verifies(c, proof) && Verifies(c, other) && proof.e == other.e
    ensures Collide(c, ProofBytes(c, proof), ProofBytes(c, other))
         || (KeysHash(c, proof) == KeysHash(c, other)
             && VerifierPoints(c, KeysHash(c, proof), proof) == VerifierPoints(c, KeysHash(c, other), other))
  {
    hide VerifierPoints, PointBytes, PairBytes;
    var p := VerifierPoints(c, KeysHash(c, proof), proof);
    var q := VerifierPoints(c, KeysHash(c, other), other);
    PointsSized(c, proof);
    PointsSized(c, other);
    if ProofBytes(c, proof) == ProofBytes(c, other) {
      SplitEqual(KeysHash(c, proof), KeysHash(c, other), PointBytes(c, p), PointBytes(c, q));
      PointBytesSplit(c, p, q);
    }
  }

  lemma PointsSized(c: Suite, proof: RangeProof)
    requires |proof.ss| == |proof.pks|
    ensures |VerifierPoints(c, KeysHash(c, proof), proof)| == |proof.pks|
  {
  }

  /** The challenge of the second link of a bit, and the point that link leads to. */
  function SecondChallenge(c: Suite, proof: RangeProof, i: nat): Digest
    requires i < |proof.ss| && i < |proof.pks|
  {
    c.HashPt(KeysHash(c, proof), PedersenDiffPK(proof.ss[i].0, Int(proof.e), proof.pks[i].0))
  }

  lemma BitPointAt(c: Suite, proof: RangeProof, i: nat)
    requires i < |proof.ss| == |proof.pks|
    ensures VerifierPoints(c, KeysHash(c, proof), proof)[i]
         == PedersenDiffPK(proof.ss[i].1, Int(SecondChallenge(c, proof, i)), proof.pks[i].1)
  {
    hide PedersenDiffPK, Int, Suite.HashPt, PairBytes;
  }

  /**
   Proofs accepted with the same keys, challenge and first answer at a bit have the same
   second answer there modulo the order, or give a collision.
   */
  lemma SecondAnswerBound(c: Suite, proof: RangeProof, other: RangeProof, i: nat)
    requires EncodesPoints(c) && Verifies(c, proof) && Verifies(c, other)
    requires proof.pks == other.pks && proof.e == other.e && i < c.bits && proof.ss[i].0 == other.ss[i].0
    ensures Collide(c, ProofBytes(c, proof), ProofBytes(c, other))
         || proof.ss[i].1 % ORDER == other.ss[i].1 % ORDER
  {
    hide ProofBytes, VerifierPoints, PedersenDiffPK, Int, Suite.HashPt, PairBytes, EncodesPoints;
    RangePointsBound(c, proof, other);
    BitPointAt(c, proof, i);
    BitPointAt(c, other, i);
    SameDifference(proof.ss[i].1, other.ss[i].1, Int(SecondChallenge(c, proof, i)), proof.pks[i].1);
  }

  lemma SameDifference(s: nat, t: nat, e: nat, pk: Point)
    ensures PedersenDiffPK(s, e, pk) == PedersenDiffPK(t, e, pk) <==> s % ORDER == t % ORDER
  {
    hide ScalarMult;
    BaseAt(s);
    BaseAt(t);
    var w := Neg(ScalarMult(pk, e));
    AddCancels(Point(s % ORDER, 0), Point(t % ORDER, 0), w);
  }

  lemma AddCancels(p: Point, q: Point, w: Point)
    ensures Add(p, w) == Add(q, w) <==> p == q
  {
  }

  /**
   From acceptance to the key: proofs accepted with the same keys and challenge, whose
   second links at a bit run under challenges whose difference has an inverse, open the
   second key of that bit, or give a collision.
   */
  lemma SecondKeyOpens(c: Suite, proof: RangeProof, other: RangeProof, i: nat, u: nat)
    requires EncodesPoints(c) && Verifies(c, proof) && Verifies(c, other)
    requires proof.pks == other.pks && proof.e == other.e && i < c.bits
    requires Inverts(u, Int(SecondChallenge(c, proof, i)), Int(SecondChallenge(c, other, i)))
    ensures Collide(c, ProofBytes(c, proof), ProofBytes(c, other))
         || BitOpens(proof.pks[i], Solved(proof.ss[i].1, other.ss[i].1, u))
  {
    hide ProofBytes, VerifierPoints, PedersenDiffPK, Int, Suite.HashPt, PairBytes, EncodesPoints, Inverts, Solved,
         SecondChallenge, ScalarMult;
    RangePointsBound(c, proof, other);
    BitPointAt(c, proof, i);
    BitPointAt(c, other, i);
    if !Collide(c, ProofBytes(c, proof), ProofBytes(c, other)) {
      LinkOpens(c, proof.ss[i].1, SecondChallenge(c, proof, i), other.ss[i].1, SecondChallenge(c, other, i),
                proof.pks[i].1, u);
    }
  }

  /**
   If instead one second challenge is reached from first answers that differ modulo the
   order, the point before it gives the collision.
   */
  lemma FirstAnswerBound(c: Suite, proof: RangeProof, other: RangeProof, i: nat)
    requires EncodesPoints(c) && i < |proof.ss| == |proof.pks| && i < |other.ss| == |other.pks|
    requires proof.pks == other.pks && proof.e == other.e
    requires SecondChallenge(c, proof, i) == SecondChallenge(c, other, i)
    ensures
      var m, p, q := KeysHash(c, proof), PedersenDiffPK(proof.ss[i].0, Int(proof.e), proof.pks[i].0),
                     PedersenDiffPK(other.ss[i].0, Int(proof.e), proof.pks[i].0);
      Collide(c, m + c.encode(p), m + c.encode(q)) || proof.ss[i].0 % ORDER == other.ss[i].0 % ORDER
  {
    hide PedersenDiffPK, Int, PairBytes;
    var m, p, q := KeysHash(c, proof), PedersenDiffPK(proof.ss[i].0, Int(proof.e), proof.pks[i].0),
                   PedersenDiffPK(other.ss[i].0, Int(proof.e), proof.pks[i].0);
    SameDifference(proof.ss[i].0, other.ss[i].0, Int(proof.e), proof.pks[i].0);
    if m + c.encode(p) == m + c.encode(q) {
      SplitEqual(m, m, c.encode(p), c.encode(q));
    }
  }
}
