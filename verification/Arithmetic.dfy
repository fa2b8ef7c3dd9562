/** Facts about remainders, powers of two and sums that the other modules rest on. */
module Arithmetic {

  function Pow2(k: nat): (p: nat)
    ensures p >= 1
  {
    if k == 0 then 1 else 2 * Pow2(k - 1)
  }

  /** The sum of the first k elements. */
  function SumTo(xs: seq<int>, k: nat): int
    requires k <= |xs|
  {
    if k == 0 then 0 else SumTo(xs, k - 1) + xs[k - 1]
  }

  function Sum(xs: seq<int>): int {
    SumTo(xs, |xs|)
  }

  lemma {:induction false} SumPrefix(xs: seq<int>, ys: seq<int>, k: nat)
    requires k <= |xs|
    ensures SumTo(xs + ys, k) == SumTo(xs, k)
  {
    if k > 0 {
      SumPrefix(xs, ys, k - 1);
    }
  }

  lemma SumOfTwo(a: int, b: int)
    ensures Sum([a, b]) == a + b
  {
    assert SumTo([a, b], 2) == SumTo([a, b], 1) + b == SumTo([a, b], 0) + a + b;
  }

  lemma SumAppend(xs: seq<int>, x: int)
    ensures Sum(xs + [x]) == Sum(xs) + x
  {
    SumPrefix(xs, [x], |xs|);
  }

  lemma {:induction false} SumConcat(xs: seq<int>, ys: seq<int>)
    ensures Sum(xs + ys) == Sum(xs) + Sum(ys)
  {
    if ys == [] {
      assert xs + ys == xs;
    } else {
      var k := |ys| - 1;
      SumConcat(xs, ys[..k]);
      assert xs + ys == (xs + ys[..k]) + [ys[k]];
      SumAppend(xs + ys[..k], ys[k]);
      assert ys == ys[..k] + [ys[k]];
      SumAppend(ys[..k], ys[k]);
    }
  }

  lemma {:induction false} SumBound(xs: seq<int>, bound: nat, k: nat)
    requires k <= |xs|
    requires forall i :: 0 <= i < k ==> 0 <= xs[i] < bound
    ensures 0 <= SumTo(xs, k) <= k * bound
  {
    if k > 0 {
      SumBound(xs, bound, k - 1);
      assert k * bound == (k - 1) * bound + bound;
    }
  }

  lemma ModUnique(a: int, q: int, r: int, n: nat)
    requires 0 <= r < n
    requires a == q * n + r
    ensures a % n == r
    ensures a / n == q
  {
    var d := q - a / n;
    assert d >= 1 ==> d * n >= n;
    assert d <= -1 ==> d * n <= 0 - n;
    assert d * n == a % n - r;
  }

  /** Integers that differ by a multiple of n have the same remainder. */
  lemma ModEqual(a: int, b: int, k: int, n: nat)
    requires n > 0
    requires a - b == k * n
    ensures a % n == b % n
  {
    assert a == (b / n + k) * n + b % n;
    ModUnique(a, b / n + k, b % n, n);
  }

  lemma SmallRemainder(a: nat, n: nat)
    requires n > 0
    ensures a % n == a <==> a < n
  {
    if a < n {
      ModUnique(a, 0, a, n);
    }
  }

  lemma DoubleRemainder(a: nat, p: nat)
    requires p > 0
    ensures a % (2 * p) == 2 * ((a / 2) % p) + a % 2
  {
    var q, r := (a / 2) / p, (a / 2) % p;
    assert a == 2 * (q * p + r) + a % 2;
    assert 2 * (q * p) == q * (2 * p);
    ModUnique(a, q, 2 * r + a % 2, 2 * p);
  }

  lemma PowSplit(a: nat, b: nat)
    ensures Pow2(a + b) == Pow2(a) * Pow2(b)
  {
    if a > 0 {
      PowSplit(a - 1, b);
    }
  }

  lemma PowMonotone(a: nat, b: nat)
    requires a < b
    ensures Pow2(a) < Pow2(b)
  {
    if a + 1 < b {
      PowMonotone(a, b - 1);
    }
  }

  // --- Inverses modulo a prime ---

  ghost predicate Divides(d: int, a: int) {
    exists k: int :: a == k * d
  }

  ghost predicate Prime(n: nat) {
    n > 1 && forall d: nat :: Divides(d, n) ==> d == 1 || d == n
  }

  /** Bezout's identity: some combination of a and b divides them both. */
  lemma Bezout(a: nat, b: nat) returns (x: int, y: int, d: nat)
    requires a > 0
    ensures d == a * x + b * y
    ensures 0 < d <= a && Divides(d, a) && Divides(d, b)
    decreases b
  {
    if b == 0 {
      x, y, d := 1, 0, a;
      assert a == 1 * d && b == 0 * d;
    } else if a % b == 0 {
      x, y, d := 0, 1, b;
      assert b == 1 * d && a == (a / b) * d;
      assert a / b >= 1;
    } else {
      var u, v, e := Bezout(b, a % b);
      x, y, d := v, u - (a / b) * v, e;
      var p: int :| b == p * d;
      var q: int :| a % b == q * d;
      assert a == (a / b) * b + a % b;
      BezoutStep(a / b, a % b, b, u, v, p, q, d);
      DividesBound(d, a, (a / b) * p + q);
    }
  }

  lemma BezoutStep(t: int, r: int, b: int, u: int, v: int, p: int, q: int, d: int)
    requires b == p * d && r == q * d
    ensures t * b + r == (t * p + q) * d
    ensures (t * b + r) * v + b * (u - t * v) == b * u + r * v
  {
    assert t * b == (t * p) * d;
    assert (t * b) * v == b * (t * v);
  }

  lemma DividesBound(d: nat, a: nat, k: int)
    requires a > 0 && a == k * d
    ensures d <= a
  {
    assert k >= 1 ==> k * d >= d;
    assert k <= 0 ==> k * d <= 0;
  }

  /** Modulo a prime, every integer that is not a multiple of it has an inverse. */
  lemma Inverse(a: int, n: nat) returns (b: int)
    requires Prime(n)
    requires a % n != 0
    ensures (a * b) % n == 1
  {
    var r := a % n;
    var x, y, d := Bezout(r, n);
    assert d <= r < n;
    b := x;
    assert a * b - 1 == (a / n * b - y) * n by {
      assert a == (a / n) * n + r;
      assert a * b == (a / n) * n * b + r * b;
    }
    ModEqual(a * b, 1, a / n * b - y, n);
    ModUnique(1, 0, 1, n);
  }
}
