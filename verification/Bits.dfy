/** Bitwise operations on 32-bit words held as numbers, and what masks do to them. */
module Bits {

  const WORD_BITS: nat := 32
  const WORD_LIMIT: nat := 0x1_0000_0000
  const ALL_ONES: nat := 0xFFFF_FFFF

  function Pow2(k: nat): (r: nat)
    ensures r > 0
  {
    if k == 0 then 1 else 2 * Pow2(k - 1)
  }

  function Or(a: nat, b: nat): nat
    decreases a + b
  {
    if a == 0 && b == 0 then 0 else 2 * Or(a / 2, b / 2) + (if a % 2 == 1 || b % 2 == 1 then 1 else 0)
  }

  function And(a: nat, b: nat): nat
    decreases a + b
  {
    if a == 0 && b == 0 then 0 else 2 * And(a / 2, b / 2) + (if a % 2 == 1 && b % 2 == 1 then 1 else 0)
  }

  /** `!x` on `u32`. */
  function Not(x: nat): nat
    requires x < WORD_LIMIT
  {
    ALL_ONES - x
  }

  /** `x >> k`. */
  function Shr(x: nat, k: nat): nat
    decreases k
  {
    if k == 0 then x else Shr(x / 2, k - 1)
  }

  /** `x << k` on `u32` in a release build: the shift count is taken modulo 32 and the result is truncated. */
  function Shl(x: nat, k: nat): nat {
    x * Pow2(k % WORD_BITS) % WORD_LIMIT
  }

  /** Leading zeros of `x` in a word of `width` bits: `u32::leading_zeros`. */
  function LeadingZeros(x: nat, width: nat): (r: nat)
    requires x < Pow2(width)
    ensures r <= width
  {
    if width == 0 then 0 else if x >= Pow2(width - 1) then 0 else 1 + LeadingZeros(x, width - 1)
  }

  // ---------------------------------------------------------------------
  // Powers and shifts

  lemma {:induction false} Pow2Adds(j: nat, k: nat)
    ensures Pow2(j + k) == Pow2(j) * Pow2(k)
  {
    if j > 0 {
      Pow2Adds(j - 1, k);
      assert Pow2(j) * Pow2(k) == 2 * (Pow2(j - 1) * Pow2(k));
    }
  }

  lemma WordPowers()
    ensures Pow2(8) == 0x100 && Pow2(16) == 0x1_0000 && Pow2(24) == 0x100_0000 && Pow2(32) == WORD_LIMIT
  {
  }

  lemma {:induction false} Pow2Grows(j: nat, k: nat)
    requires j <= k
    ensures Pow2(j) <= Pow2(k)
    decreases k
  {
    if j < k {
      Pow2Grows(j, k - 1);
    }
  }

  /** Shifting right is dividing by a power of two. */
  lemma {:induction false} ShrDivides(x: nat, k: nat)
    ensures Shr(x, k) == x / Pow2(k)
    decreases k
  {
    if k > 0 {
      ShrDivides(x / 2, k - 1);
      DivTwice(x, Pow2(k - 1));
    }
  }

  lemma DivTwice(x: nat, d: nat)
    requires d > 0
    ensures x / 2 / d == x / (2 * d)
  {
    var q, r := x / 2 / d, x / 2 % d;
    assert x / 2 == q * d + r;
    assert x == q * (2 * d) + (2 * r + x % 2);
    DivisionIs(x, 2 * d, q, 2 * r + x % 2);
  }

  lemma DivisionIs(x: nat, d: nat, q: nat, r: nat)
    requires r < d && x == q * d + r
    ensures x / d == q && x % d == r
  {
    var s := x / d;
    assert s * d <= x < (s + 1) * d;
    if s < q {
      TimesGrows(s + 1, q, d);
    } else if q < s {
      TimesGrows(q + 1, s, d);
    }
  }

  lemma TimesGrows(a: nat, b: nat, d: nat)
    requires a <= b
    ensures a * d <= b * d
  {
  }

  lemma {:induction false} ShrAdds(x: nat, j: nat, k: nat)
    ensures Shr(Shr(x, j), k) == Shr(x, j + k)
    decreases j
  {
    if j > 0 {
      ShrAdds(x / 2, j - 1, k);
    }
  }

  /** A run of ones shifted right is a shorter run of ones. */
  lemma {:induction false} ShrOnes(n: nat, k: nat)
    requires k <= n
    ensures Shr(Pow2(n) - 1, k) == Pow2(n - k) - 1
    decreases k
  {
    if k > 0 {
      assert (Pow2(n) - 1) / 2 == Pow2(n - 1) - 1;
      ShrOnes(n - 1, k - 1);
    }
  }

  // ---------------------------------------------------------------------
  // Masks

  /** Setting the low `k` bits. */
  lemma {:induction false} OrLowMask(a: nat, k: nat)
    ensures Or(a, Pow2(k) - 1) == Shr(a, k) * Pow2(k) + Pow2(k) - 1
    decreases k
  {
    if k == 0 {
      OrZero(a);
    } else {
      var m := Pow2(k) - 1;
      assert m / 2 == Pow2(k - 1) - 1 && m % 2 == 1;
      OrLowMask(a / 2, k - 1);
      ShiftsBack(a, k);
    }
  }

  lemma {:induction false} OrZero(a: nat)
    ensures Or(a, 0) == a
  {
    if a > 0 {
      OrZero(a / 2);
    }
  }

  /** Or-ing into bits that are clear is adding. */
  lemma {:induction false} OrIntoClear(a: nat, b: nat, k: nat)
    requires b < Pow2(k)
    ensures Or(a * Pow2(k), b) == a * Pow2(k) + b
    decreases k
  {
    if k == 0 {
      OrZero(a);
    } else {
      var x := a * Pow2(k);
      assert x == 2 * (a * Pow2(k - 1));
      assert x / 2 == a * Pow2(k - 1) && x % 2 == 0;
      OrIntoClear(a, b / 2, k - 1);
    }
  }

  /** Clearing the low `k` bits of a number below `Pow2(k + m)`: the mask has `m` ones followed by `k` zeros. */
  lemma {:induction false} AndHighMask(a: nat, mask: nat, k: nat, m: nat)
    requires a < Pow2(k + m) && mask + Pow2(k) == Pow2(k + m)
    ensures And(a, mask) == Shr(a, k) * Pow2(k)
    decreases k
  {
    if k == 0 {
      AndOnes(a, m);
    } else {
      assert Pow2(k) == 2 * Pow2(k - 1) && Pow2(k + m) == 2 * Pow2(k - 1 + m);
      AndHighMask(a / 2, mask / 2, k - 1, m);
      ShiftsBack(a, k);
      hide Pow2, Shr;
      AndEven(a, mask);
    }
  }

  lemma AndEven(a: nat, b: nat)
    requires b % 2 == 0
    ensures And(a, b) == 2 * And(a / 2, b / 2)
  {
  }

  lemma ShiftsBack(a: nat, k: nat)
    requires k > 0
    ensures Shr(a, k) * Pow2(k) == 2 * (Shr(a / 2, k - 1) * Pow2(k - 1))
  {
  }

  lemma {:induction false} AndOnes(a: nat, m: nat)
    requires a < Pow2(m)
    ensures And(a, Pow2(m) - 1) == a
    decreases m
  {
    if m > 0 {
      var ones := Pow2(m) - 1;
      assert ones / 2 == Pow2(m - 1) - 1 && ones % 2 == 1;
      AndOnes(a / 2, m - 1);
    }
  }

  /** Keeping the low `m` bits. */
  lemma {:induction false} AndLowMask(a: nat, m: nat)
    ensures And(a, Pow2(m) - 1) == a % Pow2(m)
    decreases m
  {
    if m == 0 {
      AndZero(a);
    } else {
      var ones := Pow2(m) - 1;
      assert ones / 2 == Pow2(m - 1) - 1 && ones % 2 == 1;
      AndLowMask(a / 2, m - 1);
      ModTwice(a, Pow2(m - 1));
    }
  }

  lemma {:induction false} AndZero(a: nat)
    ensures And(a, 0) == 0
  {
    if a > 0 {
      AndZero(a / 2);
    }
  }

  lemma ModTwice(x: nat, d: nat)
    requires d > 0
    ensures 2 * (x / 2 % d) + x % 2 == x % (2 * d)
  {
    var q, r := x / 2 / d, x / 2 % d;
    assert x / 2 == q * d + r;
    assert x == q * (2 * d) + (2 * r + x % 2);
    DivisionIs(x, 2 * d, q, 2 * r + x % 2);
  }

  // ---------------------------------------------------------------------
  // Leading ones

  /** The number of ones at the top of a word: `(!x).leading_zeros()`. */
  function LeadingOnes(x: nat): (r: nat)
    requires x < WORD_LIMIT
    ensures r <= WORD_BITS
  {
    WordPowers();
    LeadingZeros(Not(x), WORD_BITS)
  }

  /** `r` leading zeros: the top `r` bits are zero and the next one, if any, is not. */
  lemma {:induction false} LeadingZerosAre(x: nat, width: nat)
    requires x < Pow2(width)
    ensures var r := LeadingZeros(x, width);
            x < Pow2(width - r) && (r < width ==> x >= Pow2(width - r - 1))
  {
    if width > 0 && x < Pow2(width - 1) {
      LeadingZerosAre(x, width - 1);
    }
  }

  /** `p` ones at the top of a word of `p + n` bits, in numbers. */
  lemma TopOnes(x: nat, p: nat, n: nat)
    requires x < Pow2(p + n)
    ensures Shr(x, n) == Pow2(p) - 1 <==> Pow2(p + n) - 1 - x < Pow2(n)
  {
    Pow2Adds(p, n);
    ShrDivides(x, n);
    hide Pow2, Shr;
    TopDigit(x, Pow2(p), Pow2(n));
  }

  lemma TopDigit(x: nat, a: nat, d: nat)
    requires a > 0 && d > 0 && x < a * d
    ensures x / d == a - 1 <==> a * d - 1 - x < d
  {
    var q, r := x / d, x % d;
    assert x == q * d + r;
    assert (a - 1) * d == a * d - d;
    if q < a - 1 {
      TimesGrows(q + 1, a - 1, d);
      assert (q + 1) * d == q * d + d;
    } else if q >= a {
      TimesGrows(a, q, d);
    }
  }

  /** Exactly the top `LeadingOnes(x)` bits are ones before the first zero. */
  lemma LeadingOnesAre(x: nat)
    requires x < WORD_LIMIT
    ensures var p := LeadingOnes(x);
            && Shr(x, WORD_BITS - p) == Pow2(p) - 1
            && (p < WORD_BITS ==> Shr(x, WORD_BITS - p - 1) != Pow2(p + 1) - 1)
  {
    WordPowers();
    LeadingZerosAre(Not(x), WORD_BITS);
    var p := LeadingOnes(x);
    TopOnes(x, p, WORD_BITS - p);
    if p < WORD_BITS {
      TopOnes(x, p + 1, WORD_BITS - p - 1);
    }
  }

  /** Ones at the top stay ones when fewer of them are looked at. */
  lemma FewerOnes(x: nat, p: nat, q: nat)
    requires q <= p <= WORD_BITS && x < WORD_LIMIT && Shr(x, WORD_BITS - p) == Pow2(p) - 1
    ensures Shr(x, WORD_BITS - q) == Pow2(q) - 1
  {
    ShrAdds(x, WORD_BITS - p, p - q);
    ShrOnes(p, p - q);
  }

  /** The word of `p` ones followed by zeros has `p` leading ones. */
  lemma LeadingOnesOfMask(p: nat, x: nat)
    requires p <= WORD_BITS && x == WORD_LIMIT - Pow2(WORD_BITS - p) && 0 <= x < WORD_LIMIT
    ensures LeadingOnes(x) == p
  {
    WordPowers();
    LeadingZerosOfOnes(WORD_BITS - p, WORD_BITS);
  }

  lemma {:induction false} LeadingZerosOfOnes(n: nat, width: nat)
    requires n <= width
    ensures Pow2(n) - 1 < Pow2(width) && LeadingZeros(Pow2(n) - 1, width) == width - n
    decreases width
  {
    Pow2Grows(n, width);
    if n < width {
      Pow2Grows(n, width - 1);
      LeadingZerosOfOnes(n, width - 1);
    }
  }
}
