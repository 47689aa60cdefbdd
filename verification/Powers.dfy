/** Powers of naturals, as the codecs and the limb arithmetic need them. */
module Powers {

  function Pow(b: nat, e: nat): nat {
    if e == 0 then 1 else b * Pow(b, e - 1)
  }

  function Pow2(e: nat): nat { Pow(2, e) }

  lemma {:induction false} PowPositive(b: nat, e: nat)
    requires b > 0
    ensures Pow(b, e) > 0
  {
    if e > 0 { PowPositive(b, e - 1); }
  }

  lemma {:induction false} PowNext(b: nat, e: nat)
    ensures Pow(b, e + 1) == b * Pow(b, e)
  {
  }

  lemma {:induction false} PowAdd(b: nat, m: nat, n: nat)
    ensures Pow(b, m + n) == Pow(b, m) * Pow(b, n)
  {
    if m > 0 {
      PowAdd(b, m - 1, n);
      Associates(b, Pow(b, m - 1), Pow(b, n));
    } else {
      assert Pow(b, 0) == 1;
    }
  }

  lemma {:induction false} Associates(a: nat, b: nat, c: nat)
    ensures a * (b * c) == (a * b) * c
  {
  }

  function MulAdd(v: nat, mult: nat, c: nat): nat { v * mult + c }

  lemma {:induction false} MulMonotone(a: nat, b: nat, c: nat, d: nat)
    requires a <= b && c <= d
    ensures a * c <= b * d
  {
    assert a * c <= b * c;
    assert b * c <= b * d;
  }

  lemma {:induction false} PowMonotone(b: nat, m: nat, n: nat)
    requires b > 0 && m <= n
    ensures Pow(b, m) <= Pow(b, n)
  {
    PowAdd(b, m, n - m);
    PowPositive(b, n - m);
    PowPositive(b, m);
    MulMonotone(1, Pow(b, n - m), Pow(b, m), Pow(b, m));
  }

  lemma {:induction false} PowBase(a: nat, b: nat, e: nat)
    requires a <= b
    ensures Pow(a, e) <= Pow(b, e)
  {
    if e > 0 {
      PowBase(a, b, e - 1);
      MulMonotone(a, b, Pow(a, e - 1), Pow(b, e - 1));
    }
  }

  lemma {:induction false} PowPow(b: nat, m: nat, n: nat)
    ensures Pow(Pow(b, m), n) == Pow(b, m * n)
  {
    if n > 0 {
      PowPow(b, m, n - 1);
      assert m * n == m + m * (n - 1);
      PowAdd(b, m, m * (n - 1));
    } else {
      assert m * n == 0;
    }
  }

  lemma {:induction false} PowStrict(a: nat, b: nat, e: nat)
    requires a < b && e > 0
    ensures Pow(a, e) < Pow(b, e)
  {
    PowBase(a, b, e - 1);
    PowPositive(b, e - 1);
    MulMonotone(a, a, Pow(a, e - 1), Pow(b, e - 1));
    MulMonotone(a + 1, b, Pow(b, e - 1), Pow(b, e - 1));
    assert (a + 1) * Pow(b, e - 1) == a * Pow(b, e - 1) + Pow(b, e - 1);
  }

  /** If `a^e <= b^f` for fixed exponents, then `a^m <= b^n` for every pair at least that steep. */
  lemma {:induction false} SteepPowers(a: nat, e: nat, b: nat, f: nat, m: nat, n: nat)
    requires b > 0 && e > 0 && Pow(a, e) <= Pow(b, f) && f * m <= e * n
    ensures Pow(a, m) <= Pow(b, n)
  {
    PowPow(a, e, m);
    PowPow(a, m, e);
    PowPow(b, f, m);
    PowPow(b, n, e);
    PowBase(Pow(a, e), Pow(b, f), m);
    PowMonotone(b, f * m, e * n);
    Commutes(e, m);
    Commutes(e, n);
    if Pow(a, m) > Pow(b, n) { PowStrict(Pow(b, n), Pow(a, m), e); }
  }

  lemma {:induction false} Commutes(m: nat, n: nat)
    ensures m * n == n * m
  {
  }

  lemma {:induction false} Pow2Positive(e: nat)
    ensures Pow2(e) > 0
  {
    PowPositive(2, e);
  }

  lemma {:induction false} Pow2Add(m: nat, n: nat)
    ensures Pow2(m + n) == Pow2(m) * Pow2(n)
  {
    PowAdd(2, m, n);
  }

  lemma {:induction false} Pow2Monotone(m: nat, n: nat)
    requires m <= n
    ensures Pow2(m) <= Pow2(n)
  {
    PowMonotone(2, m, n);
  }

  // ----- Division -----

  function Floor(n: nat, d: nat): nat
    requires d > 0
  {
    n / d
  }

  function Rest(n: nat, d: nat): nat
    requires d > 0
  {
    n % d
  }

  lemma {:induction false} DivAntitone(n: nat, c: nat, d: nat)
    requires 0 < c <= d
    ensures n / c >= n / d
  {
    DivBounds(n, d);
    MulMonotone(n / d, n / d, c, d);
    DivAtLeast(n, c, n / d);
  }

  lemma {:induction false} DivIs(n: nat, d: nat, q: nat, r: nat)
    requires d > 0 && n == q * d + r && r < d
    ensures n / d == q && n % d == r
  {
    DivBounds(n, d);
    QuotientUnique(n / d, n % d, q, r, d);
  }

  lemma {:induction false} QuotientUnique(k: nat, s: nat, q: nat, r: nat, d: nat)
    requires k * d + s == q * d + r && s < d && r < d
    ensures k == q && s == r
  {
    if k < q {
      OneMore(k, d);
      MulMonotone(k + 1, q, d, d);
    } else if k > q {
      OneMore(q, d);
      MulMonotone(q + 1, k, d, d);
    }
  }

  lemma {:induction false} OneMore(k: nat, d: nat)
    ensures (k + 1) * d == k * d + d
  {
  }

  lemma {:induction false} DivBounds(n: nat, d: nat)
    requires d > 0
    ensures n == (n / d) * d + n % d && n % d < d
  {
  }

  lemma {:induction false} DivAtMost(n: nat, d: nat, q: nat)
    requires d > 0 && n < (q + 1) * d
    ensures n / d <= q
  {
    DivBounds(n, d);
    if n / d > q { MulMonotone(q + 1, n / d, d, d); }
  }

  lemma {:induction false} DivAtLeast(n: nat, d: nat, q: nat)
    requires d > 0 && q * d <= n
    ensures q <= n / d
  {
    DivBounds(n, d);
    QuotientAtLeast(n / d, n % d, q, d);
  }

  lemma {:induction false} QuotientAtLeast(k: nat, s: nat, q: nat, d: nat)
    requires q * d <= k * d + s && s < d
    ensures q <= k
  {
    OneMore(k, d);
    if k < q { MulMonotone(k + 1, q, d, d); }
  }

  lemma {:induction false} DivMonotone(m: nat, n: nat, d: nat)
    requires d > 0 && m <= n
    ensures m / d <= n / d
  {
    DivBounds(m, d);
    DivAtLeast(n, d, m / d);
  }
}
