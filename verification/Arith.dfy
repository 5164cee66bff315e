/** Powers of two and division by variable amounts. */
module Arith {
  function Pow2(j: nat): nat { if j == 0 then 1 else 2 * Pow2(j - 1) }

  lemma {:induction false} Pow2Sum(a: nat, b: nat)
    ensures Pow2(a + b) == Pow2(a) * Pow2(b)
  {
    if a != 0 {
      Pow2Sum(a - 1, b);
    }
  }

  lemma {:induction false} Pow2Monotone(a: nat, b: nat)
    requires a <= b
    ensures 1 <= Pow2(a) <= Pow2(b)
    decreases b
  {
    if b > 0 {
      Pow2Monotone(if a < b then a else a - 1, b - 1);
    }
  }

  lemma Pow2Positive(a: nat)
    ensures Pow2(a) >= 1
  {
    Pow2Monotone(0, a);
  }

  lemma MulNonNeg(a: nat, b: nat)
    ensures a * b >= 0
  {
  }

  lemma MulBig(d: int, x: int)
    requires d > 0 && x != 0
    ensures d * x >= d || d * x <= -d
  {
    if x > 0 {
      MulNonNeg(d, x - 1);
      assert d * x == d * (x - 1) + d;
    } else {
      MulNonNeg(d, -x - 1);
      assert d * x == -(d * (-x - 1)) - d;
    }
  }

  lemma MulZero(d: int, x: int)
    requires d > 0
    ensures d * x == 0 ==> x == 0
  {
    if x != 0 {
      MulBig(d, x);
    }
  }

  lemma ModUnique(n: int, d: int, q: int, r: int)
    requires d > 0 && n == d * q + r && 0 <= r < d
    ensures n % d == r
  {
    assert d * (n / d - q) == r - n % d;
    if n / d != q {
      MulBig(d, n / d - q);
    }
  }

  /** Two numbers in the same place of the same block are equal. */
  lemma SamePlace(j: int, k: int, d: int)
    requires d > 0 && j / d == k / d && j % d == k % d
    ensures j == k
  {
    assert j == d * (j / d) + j % d && k == d * (k / d) + k % d;
  }

  lemma DivUnique(n: int, d: int, q: int, r: int)
    requires d > 0 && n == d * q + r && 0 <= r < d
    ensures n / d == q && n % d == r
  {
    ModUnique(n, d, q, r);
    MulZero(d, n / d - q);
  }

  /** The numbers from k to the next multiple of d lie in k's block. */
  lemma BlockEnd(k: int, d: int)
    requires d > 0 && k >= 0
    ensures k < (k / d + 1) * d && 0 <= k / d && 0 <= k % d < d
    ensures forall j | k <= j < (k / d + 1) * d :: j / d == k / d
  {
    assert k == d * (k / d) + k % d;
    assert (k / d + 1) * d == d * (k / d) + d;
    forall j | k <= j < (k / d + 1) * d ensures j / d == k / d {
      DivUnique(j, d, k / d, j - d * (k / d));
    }
    if k / d < 0 {
      MulBig(d, k / d);
    }
  }

  /** k lies below m blocks of d exactly when its block number is below m. */
  lemma BlockBelow(k: int, d: int, m: int)
    requires d > 0 && k >= 0 && m >= 0
    ensures k < d * m <==> k / d < m
  {
    assert k == d * (k / d) + k % d;
    if k / d < m {
      MulNonNeg(d, m - 1 - k / d);
      assert d * m == d * (m - 1 - k / d) + d * (k / d) + d;
    } else {
      MulNonNeg(d, k / d - m);
      assert d * (k / d) == d * (k / d - m) + d * m;
    }
  }

  lemma DivDiv(k: int, d: int, m: int)
    requires d > 0 && m > 0 && k >= 0
    ensures d * m > 0 && k / (d * m) == k / d / m
  {
    var b := k / d;
    MulBig(d, m);
    assert k == d * b + k % d && b == m * (b / m) + b % m;
    assert k == (d * m) * (b / m) + (d * (b % m) + k % d);
    MulNonNeg(d, m - 1 - b % m);
    assert d * m == d * (m - 1 - b % m) + d * (b % m) + d;
    MulNonNeg(d, b % m);
    DivUnique(k, d * m, b / m, d * (b % m) + k % d);
  }

  /** Powers of two double from one exponent to the next. */
  lemma Pow2Order(j: nat, k: nat)
    ensures j < k ==> 2 * Pow2(j) <= Pow2(k)
    ensures k < j ==> 2 * Pow2(k) <= Pow2(j)
  {
    if j < k {
      Pow2Monotone(j + 1, k);
    } else if k < j {
      Pow2Monotone(k + 1, j);
    }
  }

  /** The next multiple of a; none lies between. */
  lemma AlignedStep(p: int, a: int)
    requires a > 0 && p >= 0 && p % a == 0
    ensures (p + a) % a == 0 && forall q | p < q < p + a :: q % a != 0
  {
    assert p == a * (p / a);
    ModUnique(p + a, a, p / a + 1, 0);
    forall q | p < q < p + a ensures q % a != 0 {
      ModUnique(q, a, p / a, q - p);
    }
  }
}
