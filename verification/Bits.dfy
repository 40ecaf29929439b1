/**
  Bitwise operations on naturals, bit by bit, and the two masked computations the driver
  relies on: the power-of-two round-up of the block builder and the index arithmetic of the rings.
 */
module Bits {

  import opened Arithmetic

  const TWO_TO_THE_32: nat := 0x1_0000_0000

  function Pow2(k: nat): (p: nat)
    ensures p >= 1
  {
    if k == 0 then 1 else 2 * Pow2(k - 1)
  }

  ghost predicate IsPow2(a: nat) {
    exists k: nat :: Pow2(k) == a
  }

  /** x & y */
  function And(x: nat, y: nat): nat {
    if x == 0 || y == 0 then 0
    else 2 * And(x / 2, y / 2) + if x % 2 == 1 && y % 2 == 1 then 1 else 0
  }

  /** x & ~y */
  function AndNot(x: nat, y: nat): nat
    decreases x
  {
    if x == 0 then 0
    else 2 * AndNot(x / 2, y / 2) + if x % 2 == 1 && y % 2 == 0 then 1 else 0
  }

  /** Masking with 2^k - 1 is the remainder modulo 2^k. */
  lemma {:induction false} AndMaskIsMod(x: nat, k: nat)
    ensures And(x, Pow2(k) - 1) == x % Pow2(k)
    decreases k
  {
    if k == 0 {
      assert x % 1 == 0;
    } else {
      var p := Pow2(k - 1);
      AndMaskIsMod(x / 2, k - 1);
      SplitMod(x, 2, p);
      if x != 0 {
        assert (2 * p - 1) / 2 == p - 1 && (2 * p - 1) % 2 == 1;
      }
    }
  }

  /** Clearing the low k bits takes the remainder modulo 2^k away. */
  lemma {:induction false} AndNotMaskIsFloor(x: nat, k: nat)
    ensures AndNot(x, Pow2(k) - 1) == x - x % Pow2(k)
    decreases k
  {
    if k == 0 {
      AndNotZero(x);
    } else {
      var p := Pow2(k - 1);
      AndNotMaskIsFloor(x / 2, k - 1);
      SplitMod(x, 2, p);
      if x != 0 {
        assert (2 * p - 1) / 2 == p - 1 && (2 * p - 1) % 2 == 1;
      }
    }
  }

  lemma AndNotZero(x: nat)
    ensures AndNot(x, 0) == x
  {
  }

  /** Arithmetic round-up to a multiple of a. */
  function RoundUp(x: nat, a: nat): nat
    requires a > 0
  {
    if x % a == 0 then x else x - x % a + a
  }

  lemma RoundUpIsLeastMultiple(x: nat, a: nat)
    requires a > 0
    ensures x <= RoundUp(x, a) < x + a && RoundUp(x, a) % a == 0
    ensures (x + a - 1) - (x + a - 1) % a == RoundUp(x, a)
  {
    Euclid(x, a);
    var q, r := x / a, x % a;
    Distribute(q, -1, a);
    if r == 0 {
      DivModUnique(x + a - 1, a, q, a - 1);
    } else {
      DivModUnique(x + a - 1, a, q + 1, r - 1);
      DivModUnique(x - r + a, a, q + 1, 0);
    }
  }

  /**
    ALIGN_UP_BY, in its masked form (x + a - 1) & ~(a - 1). For a power of two it is the least
    multiple of a that is not below x.
   */
  function AlignUpBy(x: nat, a: nat): (r: nat)
    requires IsPow2(a)
    ensures x <= r < x + a && r % a == 0
  {
    AlignUpByIsRoundUp(x, a);
    AndNot(x + a - 1, a - 1)
  }

  /** The masked round-up equals the arithmetic one for every power of two. */
  lemma AlignUpByIsRoundUp(x: nat, a: nat)
    requires IsPow2(a)
    ensures AndNot(x + a - 1, a - 1) == RoundUp(x, a)
    ensures x <= RoundUp(x, a) < x + a && RoundUp(x, a) % a == 0
  {
    var k: nat :| Pow2(k) == a;
    AndNotMaskIsFloor(x + a - 1, k);
    RoundUpIsLeastMultiple(x, a);
  }

  /** i reduced into [0, n) when it is less than two turns. */
  function Wrap(i: nat, n: nat): (r: nat)
    requires i < 2 * n
    ensures r < n
  {
    if i < n then i else i - n
  }

  lemma WrapIsMod(i: nat, n: nat)
    requires i < 2 * n
    ensures Wrap(i, n) == i % n
  {
    if i < n {
      DivModUnique(i, n, 0, i);
    } else {
      DivModUnique(i, n, 1, i - n);
    }
  }

  lemma {:induction false} Pow2Sum(k: nat, m: nat)
    ensures Pow2(k + m) == Pow2(m) * Pow2(k)
    decreases m
  {
    if m > 0 {
      Pow2Sum(k, m - 1);
      assert Pow2(k + m) == 2 * Pow2(k + (m - 1));
      assert (2 * Pow2(m - 1)) * Pow2(k) == 2 * (Pow2(m - 1) * Pow2(k));
    }
  }

  lemma Pow2Of32()
    ensures Pow2(32) == TWO_TO_THE_32
  {
    assert Pow2(8) == 0x100;
    assert Pow2(16) == 0x1_0000;
    assert Pow2(24) == 0x100_0000;
  }

  /**
    (i + n) & mask on 32-bit operands is (i + n) modulo the ring size, although the 32-bit sum may
    have wrapped around first.
   */
  lemma MaskedIndexIsMod(x: nat, size: nat)
    requires IsPow2(size) && size <= TWO_TO_THE_32
    ensures And(x % TWO_TO_THE_32, size - 1) == x % size
  {
    var k: nat :| Pow2(k) == size;
    Pow2Of32();
    AndMaskIsMod(x % TWO_TO_THE_32, k);
    if k > 32 {
      Pow2Grows(32, k);
    }
    Pow2Sum(k, 32 - k);
    ModMultiple(x, size, Pow2(32 - k));
  }

  lemma {:induction false} Pow2Grows(k: nat, m: nat)
    requires k < m
    ensures Pow2(k) < Pow2(m)
    decreases m
  {
    if k + 1 < m {
      Pow2Grows(k, m - 1);
    }
  }
}
