/** The arithmetic of alignment masks in ext/spidermonkey/jsarena.h and jsarena.c. */
module ArenaMath {

  ghost predicate IsPow2(n: nat) {
    n == 1 || (n > 1 && n % 2 == 0 && IsPow2(n / 2))
  }

  /** x | y */
  function BitOr(x: nat, y: nat): nat {
    if x == 0 then y
    else if y == 0 then x
    else (if x % 2 == 1 || y % 2 == 1 then 1 else 0) + 2 * BitOr(x / 2, y / 2)
  }

  /** x & ~y */
  function AndNot(x: nat, y: nat): nat {
    if x == 0 then 0
    else (if x % 2 == 1 && y % 2 == 0 then 1 else 0) + 2 * AndNot(x / 2, y / 2)
  }

  function Max(x: nat, y: nat): nat { if x < y then y else x }

  /** What is left of `x` when `m` is taken away as often as it goes. */
  function Rem(x: int, m: nat): (r: nat)
    requires x >= 0 && m > 0
    ensures r < m && r <= x
    decreases x
  {
    if x < m then x else Rem(if m <= x then x - m else 0, m)
  }

  /** `x` is a multiple of `m`. */
  predicate Aligned(x: nat, m: nat)
    requires m > 0
  {
    Rem(x, m) == 0
  }

  /** The largest multiple of `m` up to `x`. */
  function AlignDown(x: nat, m: nat): nat
    requires m > 0
  {
    if x < m then 0 else x - Rem(x, m)
  }

  lemma {:induction false} RemUnique(x: nat, m: nat, q: nat, r: nat)
    requires r < m && x == q * m + r
    ensures Rem(x, m) == r
    decreases q
  {
    if q > 0 {
      assert x - m == (q - 1) * m + r;
      RemUnique(x - m, m, q - 1, r);
    }
  }

  lemma {:induction false} RemQuotient(x: nat, m: nat) returns (q: nat)
    requires m > 0
    ensures x == q * m + Rem(x, m)
    decreases x
  {
    if x < m {
      q := 0;
    } else {
      q := RemQuotient(x - m, m);
      q := q + 1;
    }
  }

  lemma MulStep(a: int, b: int, m: nat)
    ensures a < b ==> a * m + m <= b * m
  {
    if a < b {
      assert a * m + m == (a + 1) * m <= b * m;
    }
  }

  /** JS_ARENA_ALIGN for the mask m - 1. */
  function AlignUp(x: nat, m: nat): nat
    requires m > 0
  {
    AlignDown(if m > 1 then x + (m - 1) else x, m)
  }

  lemma {:induction false} AndNotZero(x: nat)
    ensures AndNot(x, 0) == x
  {
    if x != 0 {
      AndNotZero(x / 2);
    }
  }

  lemma HalfRem(x: nat, m: nat)
    requires m > 0
    ensures Rem(x, 2 * m) == 2 * Rem(x / 2, m) + x % 2
  {
    var q := RemQuotient(x / 2, m);
    var r := Rem(x / 2, m);
    assert 2 * (q * m) == q * (2 * m);
    RemUnique(x, 2 * m, q, 2 * r + x % 2);
  }

  /** Clearing the bits of a power-of-two mask rounds down. */
  lemma {:induction false} MaskRoundsDown(x: nat, m: nat)
    requires IsPow2(m)
    ensures AndNot(x, m - 1) == AlignDown(x, m)
    decreases m
  {
    if m == 1 {
      AndNotZero(x);
    } else if x != 0 {
      var h := m / 2;
      MaskRoundsDown(x / 2, h);
      HalfRem(x, h);
      assert (m - 1) % 2 == 1 && (m - 1) / 2 == h - 1;
    }
  }

  /** The two masks of a header base are nested, so their union is the larger one. */
  lemma {:induction false} UnionOfMasks(m: nat, p: nat)
    requires IsPow2(m) && IsPow2(p)
    ensures BitOr(m - 1, p - 1) == Max(m, p) - 1
    decreases m + p
  {
    if m > 1 && p > 1 {
      UnionOfMasks(m / 2, p / 2);
      assert (m - 1) / 2 == m / 2 - 1 && (p - 1) / 2 == p / 2 - 1;
    }
  }

  /** Of two powers of two the smaller divides the larger. */
  lemma {:induction false} Pow2Divides(m: nat, p: nat)
    requires IsPow2(m) && IsPow2(p) && m <= p
    ensures Aligned(p, m)
    decreases m
  {
    if m > 1 {
      Pow2Divides(m / 2, p / 2);
      HalfRem(p, m / 2);
    }
  }

  // ---- Multiples -------------------------------------------------------------------------

  lemma AlignedMul(q: nat, m: nat)
    requires m > 0
    ensures Aligned(q * m, m)
  {
    RemUnique(q * m, m, q, 0);
  }

  lemma AlignedAdd(x: nat, y: nat, m: nat)
    requires m > 0 && Aligned(x, m) && Aligned(y, m)
    ensures Aligned(x + y, m)
  {
    var q := RemQuotient(x, m);
    var r := RemQuotient(y, m);
    assert x + y == (q + r) * m;
    AlignedMul(q + r, m);
  }

  lemma AlignedSub(x: nat, y: nat, m: nat)
    requires m > 0 && Aligned(x, m) && Aligned(y, m) && y <= x
    ensures Aligned(x - y, m)
  {
    var q := RemQuotient(x, m);
    var r := RemQuotient(y, m);
    MulStep(q, r, m);
    assert x - y == (q - r) * m;
    AlignedMul(q - r, m);
  }

  lemma AlignedTrans(x: nat, h: nat, m: nat)
    requires m > 0 && h > 0 && Aligned(h, m) && Aligned(x, h)
    ensures Aligned(x, m)
  {
    var q := RemQuotient(x, h);
    var r := RemQuotient(h, m);
    assert x == q * (r * m);
    assert q * (r * m) == (q * r) * m;
    AlignedMul(q * r, m);
  }

  /** Distinct multiples are at least `m` apart. */
  lemma AlignedGap(x: nat, y: nat, m: nat)
    requires m > 0 && Aligned(x, m) && Aligned(y, m) && x < y
    ensures x + m <= y
  {
    AlignedSub(y, x, m);
  }

  lemma DownFacts(x: nat, m: nat)
    requires m > 0
    ensures AlignDown(x, m) <= x < AlignDown(x, m) + m
    ensures Aligned(AlignDown(x, m), m)
  {
    var q := RemQuotient(x, m);
    AlignedMul(q, m);
  }

  lemma UpFacts(x: nat, m: nat)
    requires m > 0
    ensures x <= AlignUp(x, m) < x + m
    ensures Aligned(AlignUp(x, m), m)
  {
    DownFacts(x + (m - 1), m);
  }

  lemma UpOfAligned(x: nat, m: nat)
    requires m > 0 && Aligned(x, m)
    ensures AlignUp(x, m) == x
  {
    UpFacts(x, m);
    if AlignUp(x, m) > x {
      AlignedGap(x, AlignUp(x, m), m);
    }
  }

  lemma UpMonotone(x: nat, y: nat, m: nat)
    requires m > 0 && x <= y
    ensures AlignUp(x, m) <= AlignUp(y, m)
  {
    UpFacts(x, m);
    UpFacts(y, m);
    if AlignUp(y, m) < AlignUp(x, m) {
      AlignedGap(AlignUp(y, m), AlignUp(x, m), m);
    }
  }
}
