/** Quotients and remainders by a variable divisor, and powers of two. */
module Arithmetic {

  lemma MultipleIsFar(d: int, n: nat)
    requires d != 0
    ensures d * n >= n || d * n + n <= 0
  {
  }

  /** Quotient and remainder are determined by their defining equation. */
  lemma DivIs(x: nat, q: nat, r: nat, n: nat)
    requires n > 0 && r < n && x == q * n + r
    ensures x / n == q && x % n == r
  {
    var d := x / n - q;
    assert x == (x / n) * n + x % n;
    assert d * n == r - x % n;
    if d != 0 {
      MultipleIsFar(d, n);
    }
  }

  lemma DivMod(x: nat, n: nat)
    requires n > 0
    ensures x == x / n * n + x % n && x % n < n
  {
  }

  lemma ModAdds(a: nat, b: nat, n: nat)
    requires n > 0
    ensures (a % n + b) % n == (a + b) % n
  {
    DivMod(a, n);
    DivMod(a % n + b, n);
    SumIs(a, b, a / n, a % n, (a % n + b) / n, (a % n + b) % n, n);
  }

  lemma SumIs(a: nat, b: nat, q: nat, r: nat, p: nat, s: nat, n: nat)
    requires n > 0 && a == q * n + r && r + b == p * n + s && s < n
    ensures (a + b) % n == s
  {
    MultiplesAdd(q, p, n);
    DivIs(a + b, q + p, s, n);
  }

  lemma MultiplesAdd(q: nat, p: nat, n: nat)
    ensures (q + p) * n == q * n + p * n
  {
  }

  /** Rounding up to the next multiple. */
  lemma PadsUp(total: nat, n: nat)
    requires n > 0
    ensures total % n > 0 ==> (total + (n - total % n)) % n == 0
    ensures (total + n - 1) / n * n == if total % n > 0 then total + (n - total % n) else total
  {
    DivMod(total, n);
    var q, r := total / n, total % n;
    MultiplesAdd(q, 1, n);
    if r > 0 {
      DivIs(total + n - 1, q + 1, r - 1, n);
      DivIs(total + (n - r), q + 1, 0, n);
    } else {
      DivIs(total + n - 1, q, n - 1, n);
    }
  }

  lemma CeilAdds(q: nat, length: nat, n: nat)
    requires n > 0
    ensures (q * n + length + n - 1) / n == q + (length + n - 1) / n
  {
    var x := length + n - 1;
    DivMod(x, n);
    MultiplesAdd(q, x / n, n);
    DivIs(q * n + x, q + x / n, x % n, n);
  }

  // ---- Powers of two ----

  function Pow2(k: nat): (r: nat)
    ensures r >= 1
  {
    if k == 0 then 1 else 2 * Pow2(k - 1)
  }

  /** The smallest exponent whose power of two is at least `n`. */
  function CeilLog2(n: nat): nat {
    if n <= 1 then 0 else 1 + CeilLog2((n + 1) / 2)
  }

  lemma {:induction false} CeilLog2IsLeast(n: nat)
    ensures n <= Pow2(CeilLog2(n))
    ensures n >= 2 ==> Pow2(CeilLog2(n) - 1) < n
  {
    if n < 2 {
    } else {
      CeilLog2IsLeast((n + 1) / 2);
    }
  }

  lemma {:induction false} Pow2Monotone(a: nat, b: nat)
    requires a <= b
    ensures Pow2(a) <= Pow2(b)
  {
    if a >= b {
    } else {
      Pow2Monotone(a, b - 1);
    }
  }

  lemma CeilLog2Unique(n: nat, k: nat)
    requires n <= Pow2(k) && (k > 0 ==> Pow2(k - 1) < n)
    ensures CeilLog2(n) == k
  {
    CeilLog2IsLeast(n);
    var c := CeilLog2(n);
    if c < k {
      Pow2Monotone(c, k - 1);
    } else if k < c {
      Pow2Monotone(k, c - 1);
    }
  }

  lemma DoubledProduct(x: nat, y: nat)
    ensures 2 * x * y == 2 * (x * y)
  {
  }

  lemma {:induction false} Pow2Sum(a: nat, b: nat)
    ensures Pow2(a + b) == Pow2(a) * Pow2(b)
  {
    if a == 0 {
    } else {
      Pow2Sum(a - 1, b);
      DoubledProduct(Pow2(a - 1), Pow2(b));
    }
  }
}
