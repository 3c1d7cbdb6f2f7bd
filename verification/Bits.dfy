/** Unsigned machine arithmetic written out on natural numbers: the bitwise operators of C by
    recursion on binary digits, and the facts about powers of two and alignment that the
    page-number and address macros of include/mm.h rely on. */
module Bits {

  function Pow2(k: nat): (r: nat)
    ensures r >= 1
  {
    if k == 0 then 1 else 2 * Pow2(k - 1)
  }

  /** a ^ b */
  function Xor(a: nat, b: nat): nat
    decreases a + b
  {
    if a == 0 && b == 0 then 0 else (if a % 2 == b % 2 then 0 else 1) + 2 * Xor(a / 2, b / 2)
  }

  /** a & b */
  function And(a: nat, b: nat): nat
  {
    if a == 0 then 0 else (if a % 2 == 1 && b % 2 == 1 then 1 else 0) + 2 * And(a / 2, b / 2)
  }

  /** a & ~b */
  function AndNot(a: nat, b: nat): nat
  {
    if a == 0 then 0 else (if a % 2 == 1 && b % 2 == 0 then 1 else 0) + 2 * AndNot(a / 2, b / 2)
  }

  /** The low k bits of p are zero. */
  predicate Aligned(p: nat, k: nat)
  {
    k == 0 || (p % 2 == 0 && Aligned(p / 2, k - 1))
  }

  lemma {:induction false} AlignedIsMultiple(p: nat, k: nat)
    ensures Aligned(p, k) <==> p % Pow2(k) == 0
  {
    if k > 0 {
      AlignedIsMultiple(p / 2, k - 1);
      HalfRemainder(p, Pow2(k - 1));
    }
  }

  /** The remainder by 2m is that of the half by m, with the last binary digit appended. */
  lemma HalfRemainder(p: nat, m: nat)
    requires m > 0
    ensures p % (2 * m) == 2 * (p / 2 % m) + p % 2
  {
    var q, r := p / 2 / m, p / 2 % m;
    assert p / 2 == m * q + r;
    Regroup(m, q);
    DivModUnique(p, 2 * m, q, 2 * r + p % 2);
  }

  lemma Regroup(m: int, q: int)
    ensures 2 * (m * q) == (2 * m) * q
  {
  }

  lemma DivModUnique(x: int, d: int, q: int, r: int)
    requires d > 0 && 0 <= r < d && x == d * q + r
    ensures x / d == q && x % d == r
  {
    var q', r' := x / d, x % d;
    assert d * (q - q') == r' - r;
    SmallMultiple(d, q - q');
  }

  lemma SmallMultiple(d: int, n: int)
    requires -d < d * n < d
    ensures n == 0
  {
  }

  lemma MulAtLeast(d: int, n: int)
    requires d >= 0 && n >= 1
    ensures n * d >= d
  {
  }

  lemma MulSplit(d: int, i: int, j: int)
    ensures (i + j) * d == i * d + j * d
  {
  }

  lemma {:induction false} Pow2Add(j: nat, k: nat)
    ensures Pow2(j + k) == Pow2(j) * Pow2(k)
  {
    if j > 0 { Pow2Add(j - 1, k); }
  }

  lemma {:induction false} Pow2Monotone(j: nat, k: nat)
    requires j <= k
    ensures Pow2(j) <= Pow2(k)
  {
    if j < k { Pow2Monotone(j, k - 1); }
  }

  lemma {:induction false} AlignedWeaken(p: nat, k: nat, j: nat)
    requires Aligned(p, k) && j <= k
    ensures Aligned(p, j)
  {
    if j > 0 { AlignedWeaken(p / 2, k - 1, j - 1); }
  }

  /** A multiple of 2^k below another multiple of 2^k leaves room for a block of that size. */
  lemma {:induction false} AlignedFits(p: nat, n: nat, k: nat)
    requires Aligned(p, k) && Aligned(n, k) && p < n
    ensures p + Pow2(k) <= n
  {
    if k > 0 { AlignedFits(p / 2, n / 2, k - 1); }
  }

  /** Aligned blocks that share a point are nested: the smaller one starts inside the larger one. */
  lemma {:induction false} AlignedNested(p: nat, k: nat, h: nat, j: nat, x: nat)
    requires Aligned(p, k) && Aligned(h, j) && j <= k
    requires p <= x < p + Pow2(k) && h <= x < h + Pow2(j)
    ensures p <= h && h + Pow2(j) <= p + Pow2(k)
  {
    if j > 0 { AlignedNested(p / 2, k - 1, h / 2, j - 1, x / 2); }
  }

  lemma {:induction false} XorZero(p: nat)
    ensures Xor(p, 0) == p
  {
    if p > 0 { XorZero(p / 2); }
  }

  lemma {:induction false} AndNotZero(p: nat)
    ensures AndNot(p, 0) == p
  {
    if p > 0 { AndNotZero(p / 2); }
  }

  /** Whatever p is, clearing bit k gives p itself or p with bit k flipped. */
  lemma {:induction false} ClearIsSelfOrFlip(p: nat, k: nat)
    ensures AndNot(p, Pow2(k)) == p || AndNot(p, Pow2(k)) == Xor(p, Pow2(k))
  {
    if k == 0 {
      XorZero(p / 2);
      AndNotZero(p / 2);
    } else {
      ClearIsSelfOrFlip(p / 2, k - 1);
    }
  }

  /** On a block of order k that starts an enclosing block of order k + 1, flipping bit k moves to
      the other half and clearing it changes nothing. */
  lemma {:induction false} LeftBuddy(p: nat, k: nat)
    requires Aligned(p, k + 1)
    ensures Xor(p, Pow2(k)) == p + Pow2(k)
    ensures AndNot(p, Pow2(k)) == p
    ensures Aligned(p, k) && Aligned(p + Pow2(k), k) && !Aligned(p + Pow2(k), k + 1)
  {
    assert p % 2 == 0 && Aligned(p / 2, k);
    if k == 0 {
      XorZero(p / 2);
      AndNotZero(p / 2);
    } else {
      LeftBuddy(p / 2, k - 1);
      var m := Pow2(k - 1);
      assert Pow2(k) == 2 * m && Pow2(k) / 2 == m && Pow2(k) % 2 == 0;
      assert (p + Pow2(k)) / 2 == p / 2 + m && (p + Pow2(k)) % 2 == 0;
      assert Xor(p, Pow2(k)) == 2 * Xor(p / 2, m);
    }
  }

  /** On the other half, both flipping and clearing bit k move back to the start. */
  lemma {:induction false} RightBuddy(p: nat, k: nat)
    requires Aligned(p, k) && !Aligned(p, k + 1)
    ensures p >= Pow2(k)
    ensures Xor(p, Pow2(k)) == p - Pow2(k)
    ensures AndNot(p, Pow2(k)) == p - Pow2(k)
    ensures Aligned(p - Pow2(k), k + 1)
  {
    if k == 0 {
      XorZero(p / 2);
      AndNotZero(p / 2);
      assert Aligned(p / 2, 0);
      assert p % 2 == 1;
      assert Aligned((p - 1) / 2, 0);
    } else {
      assert p % 2 == 0 && Aligned(p / 2, k - 1) && !Aligned(p / 2, k);
      RightBuddy(p / 2, k - 1);
      var m := Pow2(k - 1);
      assert Pow2(k) == 2 * m && Pow2(k) / 2 == m && Pow2(k) % 2 == 0;
      assert (p - Pow2(k)) / 2 == p / 2 - m && (p - Pow2(k)) % 2 == 0;
      assert Xor(p, Pow2(k)) == 2 * Xor(p / 2, m);
      assert AndNot(p, Pow2(k)) == 2 * AndNot(p / 2, m);
    }
  }

  lemma {:induction false} BuddyInvolution(p: nat, k: nat)
    requires Aligned(p, k)
    ensures Aligned(Xor(p, Pow2(k)), k)
    ensures Xor(p, Pow2(k)) != p
    ensures Xor(Xor(p, Pow2(k)), Pow2(k)) == p
  {
    if Aligned(p, k + 1) {
      LeftBuddy(p, k);
      RightBuddy(p + Pow2(k), k);
    } else {
      RightBuddy(p, k);
      LeftBuddy(p - Pow2(k), k);
    }
  }

  /** The number with exactly the bits k .. n - 1 set. */
  function Mask(k: nat, n: nat): (m: nat)
    requires k <= n
  {
    Pow2Monotone(k, n);
    Pow2(n) - Pow2(k)
  }

  /** x & Mask(k, n) rounds x down to a multiple of 2^k. */
  lemma {:induction false} MaskRoundsDown(x: nat, k: nat, n: nat)
    requires k <= n && x < Pow2(n)
    ensures And(x, Mask(k, n)) <= x < And(x, Mask(k, n)) + Pow2(k)
    ensures Aligned(And(x, Mask(k, n)), k)
    decreases n
  {
    if x == 0 {
      AlignedIsMultiple(0, k);
    } else if k == 0 {
      MaskAll(x, n);
    } else {
      MaskRoundsDown(x / 2, k - 1, n - 1);
      var a, m := And(x / 2, Mask(k - 1, n - 1)), Mask(k, n);
      assert m == 2 * Mask(k - 1, n - 1);
      assert m / 2 == Mask(k - 1, n - 1) && m % 2 == 0;
      assert And(x, m) == 2 * a;
      assert 2 * a / 2 == a;
    }
  }

  lemma {:induction false} MaskAll(x: nat, n: nat)
    requires x < Pow2(n)
    ensures And(x, Pow2(n) - 1) == x
    decreases n
  {
    if n > 0 && x > 0 {
      MaskAll(x / 2, n - 1);
      assert (Pow2(n) - 1) / 2 == Pow2(n - 1) - 1;
    }
  }
}
