/**
 The curve group and Pedersen commitments.

 A point is written by its coordinates over the two generators, Point(a, b)
 standing for a*G + b*H, with both coordinates taken modulo the order of P-256.
 A scalar multiple is what it means: the point added to itself that many times.
 */
module Curve {
  import opened Arithmetic

  /** The order of the P-256 base point. */
  const ORDER: nat := 0xFFFFFFFF00000000FFFFFFFFFFFFFFFFBCE6FAADA7179E84F3B9CAC2FC632551

  type Residue = x: int | 0 <= x < ORDER

  datatype Point = Point(g: Residue, h: Residue)

  const G := Point(1, 0)
  const H := Point(0, 1)
  const IDENTITY := Point(0, 0)

  function AddR(a: Residue, b: Residue): Residue {
    if a + b >= ORDER then a + b - ORDER else a + b
  }

  function NegR(a: Residue): Residue {
    if a == 0 then 0 else ORDER - a
  }

  function MultR(a: Residue, k: nat): Residue {
    if k == 0 then 0 else AddR(MultR(a, k - 1), a)
  }

  function Add(p: Point, q: Point): Point {
    Point(AddR(p.g, q.g), AddR(p.h, q.h))
  }

  function Neg(p: Point): Point {
    Point(NegR(p.g), NegR(p.h))
  }

  function ScalarMult(p: Point, k: nat): Point {
    Point(MultR(p.g, k), MultR(p.h, k))
  }

  function ScalarBaseMult(k: nat): Point {
    ScalarMult(G, k)
  }

  /** blind*G + amt*pk. */
  function PedersenSumPK(blind: nat, amt: nat, pk: Point): Point {
    Add(ScalarBaseMult(blind), ScalarMult(pk, amt))
  }

  /** blind*base - amt*pk. */
  function PedersenDiffPK2(blind: nat, amt: nat, base: Point, pk: Point): Point {
    Add(ScalarMult(base, blind), Neg(ScalarMult(pk, amt)))
  }

  function PedersenSum(blind: nat, amt: nat): Point {
    PedersenSumPK(blind, amt, H)
  }

  function PedersenDiffPK(blind: nat, amt: nat, pk: Point): Point {
    PedersenDiffPK2(blind, amt, G, pk)
  }

  // --- Laws of multiplication ---

  lemma AddRLaws(a: Residue, b: Residue, c: Residue)
    ensures AddR(AddR(a, b), c) == AddR(a, AddR(b, c))
    ensures AddR(AddR(a, b), c) == AddR(AddR(a, c), b)
    ensures AddR(a, b) == AddR(b, a)
    ensures AddR(a, 0) == a
  {
  }

  lemma {:induction false} MultRAdd(a: Residue, k: nat, l: nat)
    ensures MultR(a, k + l) == AddR(MultR(a, k), MultR(a, l))
  {
    hide AddR;
    AddRLaws(MultR(a, k), 0, 0);
    if l > 0 {
      MultRAdd(a, k, l - 1);
      AddRLaws(MultR(a, k), MultR(a, l - 1), a);
    }
  }

  lemma {:induction false} MultRMult(a: Residue, k: nat, l: nat)
    ensures MultR(MultR(a, k), l) == MultR(a, k * l)
  {
    if l == 0 {
      assert k * l == 0;
    } else {
      MultRMult(a, k, l - 1);
      assert k * l == k * (l - 1) + k;
      MultRAdd(a, k * (l - 1), k);
    }
  }

  /** A multiple of a residue is its product with the scalar, reduced. */
  lemma {:induction false} MultRIsProduct(a: Residue, k: nat)
    ensures MultR(a, k) == (k * a) % ORDER
  {
    if k == 0 {
      assert k * a == 0;
    } else {
      MultRIsProduct(a, k - 1);
      assert k * a == (k - 1) * a + a;
      ReduceSum((k - 1) * a, a);
    }
  }

  lemma ReduceSum(x: int, a: Residue)
    ensures (x + a) % ORDER == AddR(x % ORDER, a)
  {
  }

  lemma {:induction false} MultRZero(k: nat)
    ensures MultR(0, k) == 0
  {
    if k > 0 {
      MultRZero(k - 1);
    }
  }

  lemma MultAdd(p: Point, k: nat, l: nat)
    ensures ScalarMult(p, k + l) == Add(ScalarMult(p, k), ScalarMult(p, l))
  {
    MultRAdd(p.g, k, l);
    MultRAdd(p.h, k, l);
  }

  lemma MultMult(p: Point, k: nat, l: nat)
    ensures ScalarMult(ScalarMult(p, k), l) == ScalarMult(p, k * l)
  {
    MultRMult(p.g, k, l);
    MultRMult(p.h, k, l);
  }

  /** What makes a shared secret shared: k(lP) is l(kP). */
  lemma MultCommutes(p: Point, k: nat, l: nat)
    ensures ScalarMult(ScalarMult(p, k), l) == ScalarMult(ScalarMult(p, l), k)
  {
    MultMult(p, k, l);
    MultMult(p, l, k);
    assert k * l == l * k;
  }

  lemma BaseAt(k: nat)
    ensures ScalarBaseMult(k) == Point(k % ORDER, 0)
    ensures ScalarMult(H, k) == Point(0, k % ORDER)
  {
    MultRIsProduct(1, k);
    MultRZero(k);
    assert k * 1 == k;
  }

  /** A commitment has the blinding factor and the amount for its coordinates. */
  lemma PedersenSumAt(blind: nat, amt: nat)
    ensures PedersenSum(blind, amt) == Point(blind % ORDER, amt % ORDER)
  {
    BaseAt(blind);
    BaseAt(amt);
  }

  lemma PedersenSumZero()
    ensures PedersenSum(0, 0) == IDENTITY
  {
  }

  lemma PedersenSumAdd(b1: nat, a1: nat, b2: nat, a2: nat)
    ensures Add(PedersenSum(b1, a1), PedersenSum(b2, a2)) == PedersenSum(b1 + b2, a1 + a2)
  {
    hide PedersenSum;
    PedersenSumAt(b1, a1);
    PedersenSumAt(b2, a2);
    PedersenSumAt(b1 + b2, a1 + a2);
    AddRemainders(b1, b2);
    AddRemainders(a1, a2);
  }

  lemma AddRemainders(x: int, y: int)
    ensures AddR(x % ORDER, y % ORDER) == (x + y) % ORDER
  {
  }

  lemma SubtractRemainders(x: int, y: int)
    ensures AddR(x % ORDER, NegR(y % ORDER)) == (x - y) % ORDER
    ensures (x - y) % ORDER == 0 <==> x % ORDER == y % ORDER
  {
  }

  /** The answer e*b + k cancels the challenge e on the key b*base, whatever the base is. */
  lemma AnswerCloses(base: Point, b: nat, k: nat, e: nat)
    ensures PedersenDiffPK2(e * b + k, e, base, ScalarMult(base, b)) == ScalarMult(base, k)
  {
    MultMult(base, b, e);
    assert b * e == e * b;
    MultAdd(base, e * b, k);
  }

  // --- Extraction ---

  /** The difference of two integers, reduced. */
  function Reduced(x: int, y: int): Residue {
    (x - y) % ORDER
  }

  /** u is an inverse of the difference of two challenges. */
  predicate Inverts(u: nat, d: nat, e: nat) {
    MultR(Reduced(d, e), u) == 1
  }

  /** The scalar that two answers give away. */
  function Solved(s: nat, t: nat, u: nat): nat {
    MultR(Reduced(s, t), u)
  }

  /**
   Two answers s and t that reach the same point under challenges d and e, distinct
   modulo the order, fix the key as a known multiple of the base.
   */
  lemma Extract(base: Point, pk: Point, s: nat, d: nat, t: nat, e: nat, u: nat)
    requires PedersenDiffPK2(s, d, base, pk) == PedersenDiffPK2(t, e, base, pk)
    requires Inverts(u, d, e)
    ensures pk == ScalarMult(base, Solved(s, t, u))
  {
    hide Inverts, Solved, MultR, AddR, NegR;
    ExtractR(base.g, pk.g, s, d, t, e, u);
    ExtractR(base.h, pk.h, s, d, t, e, u);
  }

  lemma ExtractR(b: Residue, p: Residue, s: nat, d: nat, t: nat, e: nat, u: nat)
    requires AddR(MultR(b, s), NegR(MultR(p, d))) == AddR(MultR(b, t), NegR(MultR(p, e)))
    requires Inverts(u, d, e)
    ensures p == MultR(b, Solved(s, t, u))
  {
    hide MultR, AddR, NegR;
    MultRIsProduct(b, s);
    MultRIsProduct(b, t);
    MultRIsProduct(p, d);
    MultRIsProduct(p, e);
    var k := EqualDifferences(s * b, d * p, t * b, e * p);
    var x := Solved(s, t, u);
    MultRIsProduct(Reduced(d, e), u);
    MultRIsProduct(Reduced(s, t), u);
    MultRIsProduct(b, x);
    ExtractProduct(b, p, s, d, t, e, u, x, k, ORDER);
  }

  lemma ProductReduces(x: int, u: int, n: nat)
    requires n > 0
    ensures (x * u) % n == (u * (x % n)) % n
  {
    var q, r := x / n, x % n;
    assert x * u == (q * n + r) * u == (q * u) * n + u * r;
    ModEqual(x * u, u * r, q * u, n);
  }

  lemma ExtractProduct(b: int, p: int, s: int, d: int, t: int, e: int, u: int, x: int, k: int, n: nat)
    requires n > 0
    requires s * b - d * p - (t * b - e * p) == k * n
    requires (u * ((d - e) % n)) % n == 1 && x == (u * ((s - t) % n)) % n
    ensures (x * b) % n == p % n
  {
    ProductReduces(d - e, u, n);
    ProductReduces(s - t, u, n);
    var q := ((d - e) * u) / n;
    var w := ((s - t) * u) / n;
    ExtractPolynomial(s, t, d, e, u, b, p, x, w, q, k, n);
    ModEqual(x * b, p, k * u + q * p - w * b, n);
  }

  lemma ExtractPolynomial(s: int, t: int, d: int, e: int, u: int, b: int, p: int, x: int, w: int, q: int, k: int,
                          n: int)
    requires (s - t) * u == w * n + x && (d - e) * u == q * n + 1
    requires s * b - d * p - (t * b - e * p) == k * n
    ensures x * b - p == (k * u + q * p - w * b) * n
  {
    calc {
      x * b - p;
      ((s - t) * u - w * n) * b - ((d - e) * u - q * n) * p;
      (s * b - d * p - (t * b - e * p)) * u + (q * p - w * b) * n;
      (k * n) * u + (q * p - w * b) * n;
    }
  }

  /** Equal differences of residues are equal differences of integers up to the order. */
  lemma EqualDifferences(a: int, b: int, c: int, d: int) returns (k: int)
    requires AddR(a % ORDER, NegR(b % ORDER)) == AddR(c % ORDER, NegR(d % ORDER))
    ensures a - b - (c - d) == k * ORDER
  {
    k := (a - b - (c - d)) / ORDER;
  }

  // --- The second generator as the code has it ---

  /** A known multiple of the first, where the design asks for an independent point. */
  const CODE_H := ScalarBaseMult(CODE_FACTOR)

  const CODE_FACTOR: nat := 11235

  lemma CodeCommitAt(blind: nat, amt: nat)
    ensures PedersenSumPK(blind, amt, CODE_H) == Point((blind + CODE_FACTOR * amt) % ORDER, 0)
  {
    MultMult(G, CODE_FACTOR, amt);
    BaseAt(blind);
    BaseAt(CODE_FACTOR * amt);
    AddRemainders(blind, CODE_FACTOR * amt);
    assert CODE_FACTOR * amt == amt * CODE_FACTOR;
  }

  /** Over it every difference of commitments is a multiple of G, balanced or not. */
  lemma CodeDifferences(y: nat, v: nat, b: nat, a: nat)
    ensures Add(PedersenSumPK(y, v, CODE_H), Neg(PedersenSumPK(b, a, CODE_H)))
         == ScalarBaseMult((y - b + CODE_FACTOR * (v - a)) % ORDER)
  {
    hide PedersenSumPK, ScalarBaseMult, MultR;
    CodeCommitAt(y, v);
    CodeCommitAt(b, a);
    var z: nat := (y - b + CODE_FACTOR * (v - a)) % ORDER;
    BaseAt(z);
    SubtractRemainders(y + CODE_FACTOR * v, b + CODE_FACTOR * a);
  }

  /** And every commitment opens to every amount. */
  lemma CodeCommitOpensToAnything(y: nat, v: nat, w: nat)
    ensures PedersenSumPK(y, v, CODE_H) == PedersenSumPK((y + CODE_FACTOR * (v - w)) % ORDER, w, CODE_H)
  {
    hide PedersenSumPK;
    var z: nat := (y + CODE_FACTOR * (v - w)) % ORDER;
    CodeCommitAt(y, v);
    CodeCommitAt(z, w);
    ModEqual(z + CODE_FACTOR * w, y + CODE_FACTOR * v, -((y + CODE_FACTOR * (v - w)) / ORDER), ORDER);
  }
}
