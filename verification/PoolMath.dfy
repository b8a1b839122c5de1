/** Arithmetic of the constant-product pool: the Newton root, LP minting and burning, and the swap. */
module PoolMath {
  import opened Base
  import opened Arith

  const BPS := 10_000
  const PRECISION := 1_000_000_000_000

  // ---------- integer square root ----------

  ghost predicate IsRoot(n: int, r: int) {
    0 <= r && r * r <= n < (r + 1) * (r + 1)
  }

  lemma {:induction false} RootExists(n: int)
    requires n >= 0
    ensures exists r :: IsRoot(n, r)
  {
    if n == 0 {
      assert IsRoot(0, 0);
    } else {
      RootExists(n - 1);
      var r :| IsRoot(n - 1, r);
      if n < (r + 1) * (r + 1) {
        assert IsRoot(n, r);
      } else {
        assert (r + 2) * (r + 2) == (r + 1) * (r + 1) + 2 * r + 3;
        assert IsRoot(n, r + 1);
      }
    }
  }

  lemma RootUnique(n: int, r: int, q: int)
    requires IsRoot(n, r) && IsRoot(n, q)
    ensures r == q
  {}

  lemma Squares(a: int, b: int)
    requires 0 <= a <= b
    ensures a * a <= b * b
  {}

  /** The floor of the square root; 0 for non-positive arguments, as the contract answers. */
  ghost function Root(n: int): (r: int)
    ensures n > 0 ==> IsRoot(n, r)
    ensures n <= 0 ==> r == 0
  {
    if n <= 0 then 0 else RootExists(n); var r :| IsRoot(n, r); r
  }

  lemma AmGm(a: int, b: int)
    ensures 4 * (a * b) <= (a + b) * (a + b)
  {
    var d := a - b;
    assert d * d >= 0;
    assert (a + b) * (a + b) == d * d + 4 * (a * b);
  }

  /** Newton's step from any positive iterate never lands below the root. */
  lemma NewtonStep(n: int, x: int)
    requires 0 < x && 0 <= n
    ensures var y := (x + n / x) / 2; n < (y + 1) * (y + 1)
  {
    var q := n / x;
    Floor(n, x);
    var y := (x + q) / 2;
    var m := y + 1;
    assert n < x * (q + 1) by { assert q * x + x == x * (q + 1); }
    AmGm(x, q + 1);
    Squares(x + q + 1, 2 * m);
    Double(m);
  }

  lemma Double(m: int)
    ensures (2 * m) * (2 * m) == 4 * (m * m)
  {}

  method Isqrt(n: int) returns (r: int)
    ensures r == Root(n)
    ensures n >= 0 ==> r * r <= n < (r + 1) * (r + 1)
  {
    if n <= 0 {
      return 0;
    }
    var x := n;
    var y := (x + 1) / 2;
    assert n / n == 1 by { FloorUnique(n, n, 1); }
    NewtonStep(n, n);
    Squares(1, n + 1);
    assert n < (n + 1) * (n + 1);
    while y < x
      invariant 0 < x <= n && 0 < y
      invariant y == (x + n / x) / 2
      invariant n < (x + 1) * (x + 1)
      decreases x
    {
      NewtonStep(n, x);
      x := y;
      FloorGalois(n, x, 1);
      y := (x + n / x) / 2;
    }
    FloorGalois(n, x, x);
    RootUnique(n, x, Root(n));
    r := x;
  }
}
