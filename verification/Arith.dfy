/** Powers of two, alignment and rounding, as in sys_utils.h. */
module Arith {

  function Pow2(n: nat): (r: nat)
    ensures r > 0
  {
    if n == 0 then 1 else 2 * Pow2(n - 1)
  }

  /** `is_aligned(a, 1 << k)`: the k low bits of `a` are zero. */
  predicate Aligned(a: nat, k: nat)
  {
    k == 0 || (a % 2 == 0 && Aligned(a / 2, k - 1))
  }

  lemma {:induction false} Pow2Monotone(i: nat, j: nat)
    requires i < j
    ensures 2 * Pow2(i) <= Pow2(j)
    decreases j
  {
    if i < j - 1 { Pow2Monotone(i, j - 1); }
  }

  lemma Pow2Le(i: nat, j: nat)
    ensures i <= j ==> Pow2(i) <= Pow2(j)
  {
    if i < j { Pow2Monotone(i, j); }
  }

  /** Sums and differences of aligned addresses are aligned. */
  lemma {:induction false} AlignedSum(a: nat, b: nat, k: nat)
    requires Aligned(a, k)
    ensures Aligned(b, k) <==> Aligned(a + b, k)
    decreases k
  {
    if k > 0 {
      assert b % 2 == (a + b) % 2;
      if b % 2 == 0 {
        AlignedSum(a / 2, b / 2, k - 1);
        assert (a + b) / 2 == a / 2 + b / 2;
      }
    }
  }

  lemma {:induction false} AlignedDown(a: nat, k: nat, i: nat)
    requires Aligned(a, k) && i <= k
    ensures Aligned(a, i)
    decreases k
  {
    if i > 0 { AlignedDown(a / 2, k - 1, i - 1); }
  }

  /** A power of two is aligned exactly to the powers not above it. */
  lemma {:induction false} Pow2Aligned(j: nat, k: nat)
    ensures Aligned(Pow2(j), k) <==> k <= j
    decreases k
  {
    if k > 0 {
      if j > 0 {
        assert Pow2(j) / 2 == Pow2(j - 1);
        Pow2Aligned(j - 1, k - 1);
      }
    }
  }

  /** Only zero is aligned to more than itself. */
  lemma {:induction false} AlignedGap(a: nat, k: nat)
    requires Aligned(a, k)
    ensures a == 0 || a >= Pow2(k)
    decreases k
  {
    if k > 0 { AlignedGap(a / 2, k - 1); }
  }

  lemma {:induction false} AlignedZero(k: nat)
    ensures Aligned(0, k)
  {
    if k > 0 { AlignedZero(k - 1); }
  }

  // ---- division, remainder and product by repeated subtraction and addition ------------------

  function Quot(a: nat, b: nat): nat
    requires b > 0
  {
    if a < b then 0 else 1 + Quot(a - b, b)
  }

  function Rem(a: nat, b: nat): (r: nat)
    requires b > 0
    ensures r < b
  {
    if a < b then a else Rem(a - b, b)
  }

  function Times(i: nat, b: nat): nat {
    if i == 0 then 0 else b + Times(i - 1, b)
  }

  lemma {:induction false} QuotRem(a: nat, b: nat)
    requires b > 0
    ensures a == Times(Quot(a, b), b) + Rem(a, b)
  {
    if a >= b { QuotRem(a - b, b); }
  }

  lemma {:induction false} QuotUnique(a: nat, b: nat, q: nat, r: nat)
    requires r < b && a == Times(q, b) + r
    ensures Quot(a, b) == q && Rem(a, b) == r
    decreases q
  {
    if q > 0 { QuotUnique(a - b, b, q - 1, r); }
  }

  lemma {:induction false} TimesMono(i: nat, j: nat, b: nat)
    ensures i <= j ==> Times(i, b) <= Times(j, b)
    ensures i < j ==> Times(i, b) + b <= Times(j, b)
    decreases j
  {
    if i < j { TimesMono(i, j - 1, b); }
  }

  // ---- multiples -----------------------------------------------------------------------------

  /** `is_aligned(x, a)`. */
  predicate Multiple(x: nat, a: nat)
    requires a > 0
  {
    Rem(x, a) == 0
  }

  /** `round_up(x, a)`: the least multiple of `a` that is not below `x`, see `RoundUpLeast`. */
  function RoundUp(x: nat, a: nat): (r: nat)
    requires a > 0
    ensures x <= r < x + a && Multiple(r, a)
  {
    QuotRem(x, a);
    if Rem(x, a) == 0 then x else QuotUnique(x + a - Rem(x, a), a, Quot(x, a) + 1, 0); x + a - Rem(x, a)
  }

  /** `round_down(x, a)`. */
  function RoundDown(x: nat, a: nat): (r: nat)
    requires a > 0
    ensures r <= x < r + a && Multiple(r, a)
  {
    QuotRem(x, a);
    QuotUnique(x - Rem(x, a), a, Quot(x, a), 0);
    x - Rem(x, a)
  }

  lemma {:induction false} RoundUpLeast(x: nat, a: nat, y: nat)
    requires a > 0 && y >= x && Multiple(y, a)
    ensures RoundUp(x, a) <= y
  {
    var r := RoundUp(x, a);
    QuotRem(r, a);
    QuotRem(y, a);
    TimesMono(Quot(y, a), Quot(r, a), a);
    TimesMono(Quot(r, a), Quot(y, a), a);
  }

  /** Low zero bits mean divisibility by the power of two. */
  lemma {:induction false} AlignedIsMultiple(a: nat, k: nat)
    ensures Aligned(a, k) <==> Multiple(a, Pow2(k))
    decreases a
  {
    if a >= Pow2(k) {
      Pow2Aligned(k, k);
      AlignedSum(Pow2(k), a - Pow2(k), k);
      AlignedIsMultiple(a - Pow2(k), k);
    } else if a == 0 {
      AlignedZero(k);
    } else if Aligned(a, k) {
      AlignedGap(a, k);
    }
  }
}
