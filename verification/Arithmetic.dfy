/** The few facts about products, quotients and remainders that the solver does not find alone. */
module Arithmetic {

  lemma Distribute(m: int, n: int, d: int)
    ensures (m - n) * d == m * d - n * d
    ensures (m + n) * d == m * d + n * d
  {
  }

  lemma MulGrows(m: int, d: nat)
    requires m >= 1
    ensures m * d >= d
  {
    Distribute(m, 1, d);
    assert (m - 1) * d >= 0;
  }

  lemma Euclid(x: nat, d: nat)
    requires d > 0
    ensures x == (x / d) * d + x % d && 0 <= x % d < d && x / d >= 0
  {
  }

  /** Quotient and remainder are determined by x == q * d + r with 0 <= r < d. */
  lemma DivModUnique(x: nat, d: nat, q: int, r: nat)
    requires r < d && x == q * d + r
    ensures x % d == r && x / d == q
  {
    Euclid(x, d);
    var q', r' := x / d, x % d;
    Distribute(q, q', d);
    Distribute(q', q, d);
    if q' < q {
      MulGrows(q - q', d);
      assert false;
    }
    if q < q' {
      MulGrows(q' - q, d);
      assert false;
    }
  }

  /** Dividing by m first splits the quotient and the remainder by m * p at the lowest digit. */
  lemma SplitMod(x: nat, m: nat, p: nat)
    requires p > 0 && m > 0
    ensures m * p > 0 && x % (m * p) == m * ((x / m) % p) + x % m
  {
    var y := x / m;
    Euclid(x, m);
    Euclid(y, p);
    var q, r := y / p, y % p;
    MulGrows(m, p);
    var d := m * p;
    assert x == q * d + (m * r + x % m) by {
      calc {
        x;
        y * m + x % m;
        (q * p + r) * m + x % m;
        { Distribute(q * p, -r, m); }
        (q * p) * m + r * m + x % m;
        { assert (q * p) * m == q * (m * p); }
        q * d + (m * r + x % m);
      }
    }
    assert m * r + x % m < d by {
      assert m * r <= m * (p - 1) by { MulMono(r, p - 1, m); }
      Distribute(p, 1, m);
    }
    DivModUnique(x, d, q, m * r + x % m);
  }

  lemma MulMono(a: int, b: int, m: nat)
    requires a <= b
    ensures m * a <= m * b
  {
    if a < b {
      MulGrows(b - a, m);
      Distribute(b, a, m);
    }
  }

  /** A remainder modulo a multiple of d has the same remainder modulo d. */
  lemma ModMultiple(x: nat, d: nat, q: nat)
    requires d > 0 && q > 0
    ensures q * d > 0 && x % (q * d) % d == x % d
  {
    MulGrows(q, d);
    SplitMod(x, d, q);
    assert d * q == q * d;
    var high := (x / d) % q;
    Euclid(x, d);
    assert x % (q * d) == high * d + x % d;
    DivModUnique(x % (q * d), d, high, x % d);
  }

  /** Counting one on goes back to 0 at the modulus. */
  lemma ModNext(x: nat, m: nat)
    requires m > 0
    ensures (x + 1) % m == if x % m + 1 == m then 0 else x % m + 1
  {
    Euclid(x, m);
    if x % m + 1 == m {
      Distribute(x / m, -1, m);
      DivModUnique(x + 1, m, x / m + 1, 0);
    } else {
      DivModUnique(x + 1, m, x / m, x % m + 1);
    }
  }
}
