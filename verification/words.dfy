/** Machine words, powers of two and rounding, as sanitizer_common defines them. */
module Words {

  /** One more than the largest 64-bit word. */
  const WORD := 0x1_0000_0000_0000_0000

  /** ASAN_SHADOW_GRANULARITY. */
  const GRANULE := 8

  function Min(a: int, b: int): int { if a < b then a else b }

  function Max(a: int, b: int): int { if a > b then a else b }

  /** `(x & (x - 1)) == 0`, which also accepts zero. */
  predicate IsPowerOfTwo(x: nat) {
    x <= 1 || (x % 2 == 0 && IsPowerOfTwo(x / 2))
  }

  function Pow2(k: nat): (r: nat)
    ensures r >= 1
  {
    if k == 0 then 1 else 2 * Pow2(k - 1)
  }

  /** Index of the only set bit. */
  function Log2(x: nat): (k: nat)
    requires x >= 1 && IsPowerOfTwo(x)
    ensures Pow2(k) == x
  {
    if x == 1 then 0 else 1 + Log2(x / 2)
  }

  lemma {:induction false} Pow2IsPowerOfTwo(k: nat)
    ensures IsPowerOfTwo(Pow2(k)) && Log2(Pow2(k)) == k
  {
    if k == 0 {
    } else {
      Pow2IsPowerOfTwo(k - 1);
      assert Pow2(k) / 2 == Pow2(k - 1);
    }
  }

  lemma {:induction false} Pow2Monotone(j: nat, k: nat)
    requires j <= k
    ensures Pow2(j) <= Pow2(k)
    ensures j < k ==> Pow2(j) < Pow2(k)
  {
    if j == k {
    } else {
      Pow2Monotone(j, k - 1);
    }
  }

  /** A power of two of at least 8 (16) is a multiple of 8 (16). */
  lemma PowerOfTwoMultiple(x: nat)
    requires IsPowerOfTwo(x) && x >= 8
    ensures x % 8 == 0
    ensures x == 8 || (x >= 16 && x % 16 == 0)
  {
    assert x == 2 * (x / 2) && IsPowerOfTwo(x / 2);
    assert x == 4 * (x / 4) && IsPowerOfTwo(x / 4);
    assert x == 8 * (x / 8) && IsPowerOfTwo(x / 8);
  }

  /** The power of two below `2 * x` that is above `x` does not exist. */
  lemma {:induction false} PowerOfTwoGap(x: nat, y: nat)
    requires IsPowerOfTwo(x) && IsPowerOfTwo(y) && 1 <= x < y
    ensures 2 * x <= y
    decreases x
  {
    if x <= 1 {
    } else {
      PowerOfTwoGap(x / 2, y / 2);
    }
  }

  /**
   * The remainder `p % b`. It is defined by repeated subtraction so that proofs about a symbolic
   * alignment stay linear.
   */
  function Rem(p: nat, b: nat): (r: nat)
    requires b > 0
    ensures r < b && r <= p
  {
    if p < b then p else Rem(p - b, b)
  }

  lemma {:induction false} RemIsModulo(p: nat, b: nat)
    requires b > 0
    ensures Rem(p, b) == p % b
  {
    if p < b {
      QuotientUnique(p, b, 0, p);
    } else {
      RemIsModulo(p - b, b);
      var q := (p - b) / b;
      assert p == (q + 1) * b + Rem(p - b, b);
      QuotientUnique(p, b, q + 1, Rem(p - b, b));
    }
  }

  lemma QuotientUnique(x: int, b: int, q: int, r: int)
    requires b > 0 && x == q * b + r && 0 <= r < b
    ensures x / b == q && x % b == r
  {
    var d := x / b - q;
    assert x == x / b * b + x % b;
    assert d * b == r - x % b;
    assert d >= 1 ==> d * b >= b;
    assert d <= -1 ==> d * b <= -b;
  }

  lemma SumOf8s(x: int, y: int)
    requires x % 8 == 0 && y % 8 == 0
    ensures (x + y) % 8 == 0
  {
    QuotientUnique(x + y, 8, x / 8 + y / 8, 0);
  }

  lemma SumOf16s(x: int, y: int)
    requires x % 16 == 0 && y % 16 == 0
    ensures (x + y) % 16 == 0
  {
    QuotientUnique(x + y, 16, x / 16 + y / 16, 0);
  }

  lemma SixteensAre8s(x: int)
    requires x % 16 == 0
    ensures x % 8 == 0 && x == 8 * (x / 8)
  {
    QuotientUnique(x, 8, 2 * (x / 16), 0);
  }

  predicate IsAligned(p: nat, boundary: nat)
    requires boundary > 0
  {
    Rem(p, boundary) == 0
  }

  /** `(p + boundary - 1) & ~(boundary - 1)` for a power-of-two boundary. */
  function RoundUpTo(p: nat, boundary: nat): nat
    requires boundary > 0
  {
    if IsAligned(p, boundary) then p else p + boundary - Rem(p, boundary)
  }

  /** `p & ~(boundary - 1)` for a power-of-two boundary. */
  function RoundDownTo(p: nat, boundary: nat): nat
    requires boundary > 0
  {
    p - Rem(p, boundary)
  }

  /** Rounding up and down to whole granules. */
  function GranulesUp(p: nat): (r: nat)
    ensures p <= r < p + 8 && r % 8 == 0
  {
    (p + 7) / 8 * 8
  }

  function GranulesDown(p: nat): (r: nat)
    ensures p - 8 < r <= p && r % 8 == 0
  {
    p / 8 * 8
  }

  lemma {:induction false} RoundDownToGreatest(p: nat, b: nat)
    requires b > 0
    ensures p - b < RoundDownTo(p, b) <= p
    ensures IsAligned(RoundDownTo(p, b), b)
  {
    if p < b {
    } else {
      RoundDownToGreatest(p - b, b);
    }
  }

  /** RoundUpTo gives the least multiple of the boundary that is not below its argument. */
  lemma RoundUpToLeast(p: nat, b: nat)
    requires b > 0
    ensures p <= RoundUpTo(p, b) < p + b
    ensures IsAligned(RoundUpTo(p, b), b)
    ensures IsAligned(p, b) <==> RoundUpTo(p, b) == p
  {
    RoundDownToGreatest(p, b);
  }

  /** Multiples of a multiple of 8. */
  lemma {:induction false} AlignedBy8(p: nat, b: nat)
    requires b > 0 && b % 8 == 0 && IsAligned(p, b)
    ensures p % 8 == 0
  {
    if p < b {
    } else {
      AlignedBy8(p - b, b);
      SumOf8s(p - b, b);
    }
  }

  /** Multiples of a multiple of 16. */
  lemma {:induction false} AlignedBy16(p: nat, b: nat)
    requires b > 0 && b % 16 == 0 && IsAligned(p, b)
    ensures p % 16 == 0
  {
    if p < b {
    } else {
      AlignedBy16(p - b, b);
      SumOf16s(p - b, b);
    }
  }

  /** Stepping past an aligned address by less than the boundary. */
  lemma {:induction false} RemAfter(p: nat, b: nat, d: nat)
    requires b > 0 && IsAligned(p, b) && d < b
    ensures Rem(p + d, b) == d
  {
    if p < b {
    } else {
      RemAfter(p - b, b, d);
    }
  }
}
