/** Little-endian sequences of 32-bit limbs and the natural numbers they stand for. */
module Limbs {
  import opened Powers

  const BASE := 0x1_0000_0000
  const UINT64_LIMIT := 0x1_0000_0000_0000_0000

  type Limb = x: nat | x < BASE

  function Weight(i: nat): (w: nat)
    ensures w > 0
  {
    PowPositive(BASE, i);
    Pow(BASE, i)
  }

  function Value(s: seq<Limb>): nat {
    if s == [] then 0 else Value(s[..|s| - 1]) + s[|s| - 1] * Weight(|s| - 1)
  }

  lemma {:induction false} ValueSnoc(s: seq<Limb>, x: Limb)
    ensures Value(s + [x]) == Value(s) + x * Weight(|s|)
  {
    assert (s + [x])[..|s|] == s;
  }

  lemma {:induction false} ValuePrefix(s: seq<Limb>, i: nat)
    requires i < |s|
    ensures Value(s[..i + 1]) == Value(s[..i]) + s[i] * Weight(i)
  {
    assert s[..i + 1] == s[..i] + [s[i]];
    ValueSnoc(s[..i], s[i]);
  }

  lemma {:induction false} BoundStep(v: nat, x: Limb, w: nat)
    requires v < w
    ensures v + x * w < BASE * w
  {
    MulMonotone(x, BASE - 1, w, w);
  }

  lemma {:induction false} Distribute(a: nat, b: nat, c: nat, d: nat)
    ensures a * (b + c * d) == a * b + c * (a * d)
  {
    assert a * (b + c * d) == a * b + a * (c * d);
    assert a * (c * d) == c * (a * d);
  }

  lemma {:induction false} ValueBound(s: seq<Limb>)
    ensures Value(s) < Weight(|s|)
  {
    if s != [] {
      var n := |s| - 1;
      ValueBound(s[..n]);
      BoundStep(Value(s[..n]), s[n], Weight(n));
    }
  }

  lemma {:induction false} WeightAdd(i: nat, j: nat)
    ensures Weight(i + j) == Weight(i) * Weight(j)
  {
    PowAdd(BASE, i, j);
  }

  lemma {:induction false} WeightMonotone(i: nat, j: nat)
    requires i <= j
    ensures Weight(i) <= Weight(j)
  {
    PowMonotone(BASE, i, j);
  }

  lemma {:induction false} WeightNext(i: nat)
    ensures Weight(0) == 1 && Weight(i + 1) == BASE * Weight(i)
  {
  }

  lemma {:induction false} ValueConcat(a: seq<Limb>, b: seq<Limb>)
    ensures Value(a + b) == Value(a) + Weight(|a|) * Value(b)
  {
    if b == [] {
      assert a + b == a;
    } else {
      var n := |b| - 1;
      ValueConcat(a, b[..n]);
      assert a + b == (a + b[..n]) + [b[n]];
      ValueSnoc(a + b[..n], b[n]);
      PowAdd(BASE, |a|, n);
      Distribute(Weight(|a|), Value(b[..n]), b[n], Weight(n));
    }
  }

  lemma {:induction false} ValueUpdate(s: seq<Limb>, i: nat, x: Limb)
    requires i < |s|
    ensures Value(s[i := x]) + s[i] * Weight(i) == Value(s) + x * Weight(i)
  {
    var n := |s| - 1;
    if i == n {
      assert s[i := x][..n] == s[..n];
    } else {
      ValueUpdate(s[..n], i, x);
      assert s[i := x][..n] == s[..n][i := x];
    }
  }

  lemma {:induction false} ValueZero(s: seq<Limb>)
    requires forall i :: 0 <= i < |s| ==> s[i] == 0
    ensures Value(s) == 0
  {
    if s != [] { ValueZero(s[..|s| - 1]); }
  }

  lemma {:induction false} ValueTail(s: seq<Limb>, k: nat)
    requires k <= |s| && forall i :: k <= i < |s| ==> s[i] == 0
    ensures Value(s) == Value(s[..k])
  {
    if k == |s| {
      assert s[..k] == s;
    } else {
      ValueTail(s[..|s| - 1], k);
      assert s[..|s| - 1][..k] == s[..k];
    }
  }

  lemma {:induction false} Pow2Of32()
    ensures Pow2(8) == 0x100 && Pow2(16) == 0x1_0000 && Pow2(32) == BASE
  {
    PowAdd(2, 4, 4);
    PowAdd(2, 8, 8);
    PowAdd(2, 16, 16);
  }

  lemma {:induction false} WeightIsPow2(i: nat)
    ensures Weight(i) == Pow2(32 * i)
  {
    Pow2Of32();
    PowPow(2, 32, i);
  }

  // ----- Bitwise or -----

  function Or(x: nat, y: nat): nat {
    if x == 0 then y
    else if y == 0 then x
    else 2 * Or(x / 2, y / 2) + (if x % 2 == 1 || y % 2 == 1 then 1 else 0)
  }

  /** Or of numbers without a common bit is their sum. */
  lemma {:induction false} OrDisjoint(m: nat, y: nat, k: nat)
    requires y < Pow2(k)
    ensures Or(m * Pow2(k), y) == m * Pow2(k) + y
  {
    if m > 0 && y > 0 {
      var half := m * Pow2(k - 1);
      assert m * Pow2(k) == 2 * half by { assert Pow2(k) == 2 * Pow2(k - 1); }
      PowPositive(2, k);
      assert m * Pow2(k) > 0;
      OrDisjoint(m, y / 2, k - 1);
    }
  }

  lemma {:induction false} OrBound(x: nat, y: nat, k: nat)
    requires x < Pow2(k) && y < Pow2(k)
    ensures Or(x, y) < Pow2(k)
  {
    if x > 0 && y > 0 { OrBound(x / 2, y / 2, k - 1); }
  }

  lemma {:induction false} OrCommutes(x: nat, y: nat)
    ensures Or(x, y) == Or(y, x)
  {
    if x > 0 && y > 0 { OrCommutes(x / 2, y / 2); }
  }

  lemma {:induction false} HalfParts(x: nat, p: nat)
    requires p > 0
    ensures (x / 2) / p == x / (2 * p) && 2 * ((x / 2) % p) + x % 2 == x % (2 * p)
  {
    var h := x / 2;
    DivBounds(h, p);
    assert x == (h / p) * (2 * p) + (2 * (h % p) + x % 2);
    DivIs(x, 2 * p, h / p, 2 * (h % p) + x % 2);
  }

  lemma {:induction false} Doubled(m: nat, p: nat)
    ensures m * (2 * p) == 2 * (m * p)
  {
  }

  lemma {:induction false} OrDouble(x: nat, y: nat)
    ensures Or(x, 2 * y) == 2 * Or(x / 2, y) + x % 2
  {
  }

  /** Or of the high parts and of the low parts. */
  lemma {:induction false} OrSplit(x: nat, m: nat, k: nat)
    ensures Pow2(k) > 0 && Or(x, m * Pow2(k)) == Or(x / Pow2(k), m) * Pow2(k) + x % Pow2(k)
  {
    hide Or;
    Pow2Positive(k);
    if k > 0 {
      var p := Pow2(k - 1);
      Pow2Positive(k - 1);
      assert Pow2(k) == 2 * p;
      hide Pow2;
      OrSplit(x / 2, m, k - 1);
      OrDouble(x, m * p);
      HalfParts(x, p);
      Doubled(m, p);
      Doubled(Or(x / (2 * p), m), p);
    }
  }

  function OrLimb(x: Limb, y: Limb): Limb {
    Pow2Of32();
    OrBound(x, y, 32);
    Or(x, y)
  }

  // ----- Splitting a limb by a shift -----

  lemma {:induction false} QuotientAtMost(x: nat, d: nat)
    requires d > 0
    ensures x / d <= x
  {
    assert x < (x + 1) * d by { MulMonotone(x + 1, x + 1, 1, d); }
    DivAtMost(x, d, x);
  }

  /** The bits a left shift by `sh` pushes out of the limb: `x >> (32 - sh)`. */
  function Carried(x: Limb, sh: nat): Limb
    requires sh <= 32
  {
    PowPositive(2, 32 - sh);
    QuotientAtMost(x, Pow2(32 - sh));
    x / Pow2(32 - sh)
  }

  /** The limb a left shift by `sh` leaves: `x << sh` in 32 bits. */
  function Shifted(x: Limb, sh: nat): Limb {
    (x * Pow2(sh)) % BASE
  }

  lemma {:induction false} SplitLimb(x: Limb, sh: nat)
    requires sh <= 32
    ensures Pow2(32 - sh) > 0
    ensures x * Pow2(sh) == Carried(x, sh) * BASE + Shifted(x, sh)
    ensures Carried(x, sh) < Pow2(sh)
    ensures Shifted(x, sh) == (x % Pow2(32 - sh)) * Pow2(sh)
  {
    var p, q := Pow2(sh), Pow2(32 - sh);
    PowPositive(2, sh);
    PowPositive(2, 32 - sh);
    Pow2Of32();
    PowAdd(2, 32 - sh, sh);
    SplitProduct(x, p, q);
  }

  lemma {:induction false} SplitProduct(x: nat, p: nat, q: nat)
    requires p > 0 && q > 0 && x < q * p
    ensures x * p == (x / q) * (q * p) + (x * p) % (q * p)
    ensures x / q < p
    ensures (x * p) % (q * p) == (x % q) * p
  {
    var hi, m := x / q, x % q;
    DivBounds(x, q);
    assert (hi * q + m) * p == hi * (q * p) + m * p;
    MulMonotone(m + 1, q, p, p);
    assert (m + 1) * p == m * p + p;
    DivIs(x * p, q * p, hi, m * p);
    assert x < ((p - 1) + 1) * q;
    DivAtMost(x, q, p - 1);
  }
}
