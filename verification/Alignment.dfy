/** ALIGN_VAL: rounding up with bit operations on 64-bit words. */
module Alignment {
  function Pow2(k: nat): (p: nat)
    ensures p >= 1
  {
    if k == 0 then 1 else 2 * Pow2(k - 1)
  }

  /** Bitwise "and". */
  function And(x: nat, y: nat): nat
    decreases x
  {
    if x == 0 then 0 else 2 * And(x / 2, y / 2) + (x % 2) * (y % 2)
  }

  const WORD := Pow2(64)

  /** ALIGN_VAL on words of a given size, wrap-around included. */
  function AlignIn(val: nat, align: nat, word: nat): nat
    requires 1 <= align <= word
  {
    And((val + (align - 1)) % word, word - 1 - (align - 1))
  }

  /** ALIGN_VAL on gsize. */
  function AlignVal(val: nat, align: nat): nat
    requires 1 <= align <= WORD
  {
    AlignIn(val, align, WORD)
  }

  /** The least multiple of `align` that is not below `val`. */
  function RoundUp(val: nat, align: nat): nat
    requires align >= 1
  {
    (val + align - 1) / align * align
  }

  lemma {:induction false} AndOnes(x: nat, n: nat)
    requires x < Pow2(n)
    ensures And(x, Pow2(n) - 1) == x
  {
    if x != 0 {
      assert (Pow2(n) - 1) / 2 == Pow2(n - 1) - 1;
      AndOnes(x / 2, n - 1);
    }
  }

  /** Masking the low `k` bits away rounds down to a multiple of 2^k. */
  lemma {:induction false} AndMask(x: nat, n: nat, k: nat)
    requires x < Pow2(n) && k <= n
    ensures Pow2(k) <= Pow2(n) && And(x, Pow2(n) - Pow2(k)) == x / Pow2(k) * Pow2(k)
  {
    if k == 0 {
      AndOnes(x, n);
    } else {
      AndMask(x / 2, n - 1, k - 1);
      var b := Pow2(k - 1);
      HalfMultiple(x, b);
      assert Pow2(n) - Pow2(k) == 2 * (Pow2(n - 1) - b);
    }
  }

  lemma HalfMultiple(x: nat, b: nat)
    requires b >= 1
    ensures x / (2 * b) * (2 * b) == 2 * (x / 2 / b * b)
  {
    var q := x / 2 / b;
    var r := x / 2 - q * b;
    assert 0 <= r < b;
    assert x == q * (2 * b) + (2 * r + x % 2);
    QuotientIs(x, 2 * b, q, 2 * r + x % 2);
  }

  lemma MulOrder(x: int, y: int, d: int)
    requires d > 0
    ensures x <= y ==> x * d <= y * d
  {
  }

  lemma QuotientIs(x: int, d: int, q: int, r: int)
    requires d > 0 && x == q * d + r && 0 <= r < d
    ensures x / d == q
  {
    MulOrder(q + 1, x / d, d);
    MulOrder(x / d + 1, q, d);
  }

  /** For powers of two and objects that fit the address space, the macro finds the least aligned offset. */
  lemma AlignIsLeast(val: nat, k: nat, w: nat)
    requires k <= 64 && val + Pow2(k) <= WORD
    ensures Pow2(k) <= WORD && AlignVal(val, Pow2(k)) == RoundUp(val, Pow2(k))
    ensures RoundUp(val, Pow2(k)) % Pow2(k) == 0 && val <= RoundUp(val, Pow2(k)) < val + Pow2(k)
    ensures val <= w && w % Pow2(k) == 0 ==> RoundUp(val, Pow2(k)) <= w
  {
    AlignIsRoundUp(val, k);
    LeastMultiple(val, Pow2(k), w);
  }

  lemma AlignIsRoundUp(val: nat, k: nat)
    requires k <= 64 && val + Pow2(k) <= WORD
    ensures AlignVal(val, Pow2(k)) == RoundUp(val, Pow2(k))
  {
    MaskedSum(val, k, 64);
  }

  /** The same for words of any width. */
  lemma MaskedSum(val: nat, k: nat, n: nat)
    requires k <= n && val + Pow2(k) <= Pow2(n)
    ensures Pow2(k) <= Pow2(n)
    ensures AlignIn(val, Pow2(k), Pow2(n)) == RoundUp(val, Pow2(k))
  {
    NoWrap(val + (Pow2(k) - 1), Pow2(n));
    AndMask(val + (Pow2(k) - 1), n, k);
    assert Pow2(n) - 1 - (Pow2(k) - 1) == Pow2(n) - Pow2(k);
  }

  lemma NoWrap(x: nat, word: nat)
    requires x < word
    ensures x % word == x
  {
  }

  lemma LeastMultiple(val: nat, a: nat, w: nat)
    requires a >= 1
    ensures RoundUp(val, a) % a == 0 && val <= RoundUp(val, a) < val + a
    ensures val <= w && w % a == 0 ==> RoundUp(val, a) <= w
  {
    var q := (val + a - 1) / a;
    QuotientIs(q * a, a, q, 0);
    MulOrder(w / a + 1, q, a);
    MulOrder(q, w / a, a);
  }
}
