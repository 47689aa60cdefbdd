/** The heights that skip links lead to (src/chain.cpp), and how few of them GetAncestor follows. */
module SkipHeights {
  import opened Powers

  /** Bitwise and. */
  function And(x: nat, y: nat): nat {
    if x == 0 || y == 0 then 0 else 2 * And(x / 2, y / 2) + (if x % 2 == 1 && y % 2 == 1 then 1 else 0)
  }

  lemma {:induction false} AndBelow(x: nat, y: nat)
    ensures And(x, y) <= x && And(x, y) <= y
  {
    if x > 0 && y > 0 { AndBelow(x / 2, y / 2); }
  }

  /** `n & (n - 1)`; at zero the C++ expression is `0 & -1`. */
  function InvertLowestOne(n: nat): nat { if n == 0 then 0 else And(n, n - 1) }

  lemma {:induction false} AndSame(x: nat)
    ensures And(x, x) == x
  {
    if x > 0 { AndSame(x / 2); }
  }

  lemma {:induction false} InvertEven(h: nat)
    ensures InvertLowestOne(2 * h) == 2 * InvertLowestOne(h)
  {
    if h > 0 { assert (2 * h - 1) / 2 == h - 1; }
  }

  lemma {:induction false} InvertOdd(m: nat)
    ensures InvertLowestOne(2 * m + 1) == 2 * m
  {
    AndSame(m);
  }

  lemma {:induction false} InvertBelow(n: nat)
    ensures InvertLowestOne(n) <= n && (n > 0 ==> InvertLowestOne(n) < n)
  {
    if n > 0 { AndBelow(n, n - 1); }
  }

  lemma {:induction false} InvertIsEven(n: nat)
    ensures InvertLowestOne(n) % 2 == 0
  {
    if n % 2 == 0 { InvertEven(n / 2); } else { InvertOdd(n / 2); }
  }

  function GetSkipHeight(height: nat): (r: nat)
    ensures height > 0 ==> r < height
  {
    if height < 2 then 0
    else if height % 2 == 1 then
      InvertBelow(height - 1);
      InvertBelow(InvertLowestOne(height - 1));
      InvertLowestOne(InvertLowestOne(height - 1)) + 1
    else
      InvertBelow(height);
      InvertLowestOne(height)
  }

  // ----- Multiples of powers of two -----

  function Scaled(a: nat, k: nat): nat { a * Pow2(k) }

  lemma {:induction false} ScaledNext(a: nat, k: nat)
    ensures Scaled(a + 1, k) == Scaled(a, k) + Pow2(k) && Pow2(k) > 0
  {
    OneMore(a, Pow2(k));
    Pow2Positive(k);
  }

  lemma {:induction false} ScaledTwice(a: nat, k: nat)
    ensures Scaled(2 * a, k) == Scaled(a, k + 1) == 2 * Scaled(a, k)
  {
    assert 2 * a * Pow2(k) == 2 * (a * Pow2(k)) == a * (2 * Pow2(k));
  }

  lemma {:induction false} ScaledMonotone(a: nat, b: nat, k: nat)
    requires a <= b
    ensures Scaled(a, k) <= Scaled(b, k)
  {
    MulMonotone(a, b, Pow2(k), Pow2(k));
  }

  lemma {:induction false} ScaledZero(a: nat, k: nat)
    ensures Scaled(a, 0) == a && Scaled(0, k) == 0 && Scaled(1, k) == Pow2(k)
    ensures a > 0 ==> Scaled(a, k) >= Pow2(k) > 0
  {
    Pow2Positive(k);
    if a > 0 { ScaledMonotone(1, a, k); }
  }

  /** A multiple of 2^k strictly between neighbouring multiples of 2^n has k below n. */
  lemma {:induction false} Between(a: nat, k: nat, m: nat, n: nat)
    requires Scaled(m, n) < Scaled(a, k) < Scaled(m + 1, n)
    ensures k < n
    decreases k
  {
    hide Scaled;
    if k > n {
      ScaledTwice(a, k - 1);
      Between(2 * a, k - 1, m, n);
    } else if k == n {
      if a <= m { ScaledMonotone(a, m, k); } else { ScaledMonotone(m + 1, a, k); }
    }
  }

  lemma {:induction false} InvertScaled(a: nat, k: nat)
    ensures InvertLowestOne(Scaled(a, k)) == Scaled(InvertLowestOne(a), k)
  {
    if k == 0 {
      ScaledZero(a, 0);
      ScaledZero(InvertLowestOne(a), 0);
    } else {
      hide Scaled, InvertLowestOne;
      ScaledTwice(a, k - 1);
      ScaledTwice(InvertLowestOne(a), k - 1);
      InvertScaled(a, k - 1);
      InvertEven(Scaled(a, k - 1));
    }
  }

  /** The lowest one bit is cleared and nothing else changes. */
  lemma {:induction false} ClearsLowestOne(m: nat, k: nat)
    ensures InvertLowestOne(Scaled(2 * m + 1, k)) == Scaled(2 * m, k)
  {
    hide Scaled, InvertLowestOne;
    InvertScaled(2 * m + 1, k);
    InvertOdd(m);
  }

  /** Every positive number is an odd one times a power of two. */
  lemma {:induction false} LowestOne(n: nat) returns (c: nat, k: nat)
    requires n > 0
    ensures n == Scaled(c, k) && c % 2 == 1 && InvertLowestOne(n) == Scaled(c - 1, k)
  {
    hide Scaled, InvertLowestOne;
    if n % 2 == 1 {
      c, k := n, 0;
      ScaledZero(n, 0);
      ScaledZero(n - 1, 0);
      InvertOdd(n / 2);
    } else {
      c, k := LowestOne(n / 2);
      ScaledTwice(c, k);
      ScaledTwice(c - 1, k);
      InvertEven(n / 2);
      k := k + 1;
    }
  }

  lemma {:induction false} SkipOfEven(a: nat, k: nat)
    requires a > 0 && k > 0
    ensures GetSkipHeight(Scaled(a, k)) == Scaled(InvertLowestOne(a), k)
  {
    hide InvertLowestOne, Scaled;
    ScaledTwice(a, k - 1);
    ScaledZero(a, k - 1);
    InvertScaled(a, k);
  }

  lemma {:induction false} SkipOfOdd(a: nat, k: nat)
    requires a > 0 && k > 0
    ensures GetSkipHeight(Scaled(a, k) + 1) == Scaled(InvertLowestOne(InvertLowestOne(a)), k) + 1
  {
    hide InvertLowestOne, Scaled;
    ScaledTwice(a, k - 1);
    ScaledZero(a, k - 1);
    InvertScaled(a, k);
    InvertScaled(InvertLowestOne(a), k);
  }

  // ----- The walk of GetAncestor, on heights -----

  /** Where GetAncestor goes from height `h`: along the skip link, unless that passes the target `t` or the next
      block's skip link is the better one. */
  function NextHeight(h: nat, t: nat): (r: nat)
    requires t < h
    ensures t <= r < h
  {
    var skip, skipPrev := GetSkipHeight(h), GetSkipHeight(h - 1);
    if skip == t || (skip > t && !(skipPrev + 2 < skip && skipPrev >= t)) then skip else h - 1
  }

  ghost function StepsTo(h: nat, t: nat): nat
    requires t <= h
  {
    if h == t then 0 else 1 + StepsTo(NextHeight(h, t), t)
  }

  lemma {:induction false} StepsNext(h: nat, t: nat)
    requires t < h
    ensures StepsTo(h, t) == 1 + StepsTo(NextHeight(h, t), t)
  {
  }

  lemma {:induction false} NextIs(h: nat, t: nat)
    requires t < h
    ensures GetSkipHeight(h) < t ==> NextHeight(h, t) == h - 1
    ensures GetSkipHeight(h) >= t && !(GetSkipHeight(h - 1) + 2 < GetSkipHeight(h) && GetSkipHeight(h - 1) >= t) ==>
            NextHeight(h, t) == GetSkipHeight(h)
    ensures NextHeight(h, t) == h - 1 || NextHeight(h, t) == GetSkipHeight(h) >= t
    ensures GetSkipHeight(h) > t && GetSkipHeight(h - 1) + 2 < GetSkipHeight(h) && GetSkipHeight(h - 1) >= t ==>
            NextHeight(h, t) == h - 1
  {
  }

  lemma {:induction false} AtMostOneStep(h: nat, t: nat)
    requires t <= h <= t + 1
    ensures StepsTo(h, t) <= 1
  {
  }

  /** The bound from a multiple of 2^k to a target less than 2^k below. */
  function Near(k: nat): nat {
    if k <= 1 then k else if k <= 3 then 2 * k - 1 else 2 + (k - 1) / 2 + Near(k - 1)
  }

  /** The bound from an odd height above a multiple of 2^a, within an interval of 2^k. */
  function Descent(k: nat, a: nat): nat
    requires k > 0
  {
    (if a < k then (k - a) / 2 else 0) + 1 + Near(k - 1)
  }

  lemma {:induction false} NearMonotone(j: nat, k: nat)
    requires j <= k
    ensures Near(j) <= Near(k)
  {
    if j < k { NearMonotone(j, k - 1); }
  }

  lemma {:induction false} NearAtLeast(k: nat)
    ensures k >= 1 ==> Near(k) >= 1
    ensures k >= 3 ==> Near(k) >= 5
  {
    if k >= 3 { NearMonotone(3, k); } else if k >= 1 { NearMonotone(1, k); }
  }

  /** Just below an odd multiple of 2^a there is no skip link worth going back for. */
  lemma {:induction false} NoBetterSkip(m: nat, a: nat, t: nat)
    requires m > 0 && a > 0 && t > Scaled(InvertLowestOne(m), a + 1) + 1
    ensures Scaled(2 * m + 1, a) > 0
    ensures var g := Scaled(2 * m + 1, a);
            !(GetSkipHeight(g - 1) + 2 < GetSkipHeight(g) && GetSkipHeight(g - 1) >= t)
  {
    hide GetSkipHeight, InvertLowestOne, Scaled;
    var g, b := Scaled(2 * m + 1, a), 2 * m + 1;
    ScaledZero(b, a);
    if a == 1 {
      ScaledTwice(b, 0);
      ScaledZero(b, 0);
      ScaledTwice(2 * m, 0);
      ScaledZero(2 * m, 0);
      SkipOfOdd(2 * m, 1);
      InvertEven(m);
      InvertEven(InvertLowestOne(m));
      InvertBelow(InvertLowestOne(m));
      ScaledTwice(InvertLowestOne(InvertLowestOne(m)), 1);
      ScaledMonotone(InvertLowestOne(InvertLowestOne(m)), InvertLowestOne(m), 2);
    } else if a == 2 {
      FourTimes(b);
      var i := InvertLowestOne(m);
      SkipOfOdd(2 * b - 1, 1);
      InvertOdd(b - 1);
      InvertEven(2 * m);
      InvertEven(m);
      ScaledTwice(2 * i, 1);
      ScaledTwice(i, 2);
    } else {
      SevenBack(b, a);
      SkipOfEven(b, a);
      InvertOdd(m);
      ScaledNext(2 * m, a);
      EightAtMost(a);
    }
  }

  lemma {:induction false} FourTimes(b: nat)
    requires b > 0
    ensures Scaled(b, 2) == 4 * b && Scaled(2 * b - 1, 1) == 4 * b - 2
  {
    ScaledTwice(b, 1);
    ScaledTwice(b, 0);
    ScaledZero(b, 0);
    ScaledTwice(2 * b - 1, 0);
    ScaledZero(2 * b - 1, 0);
  }

  lemma {:induction false} EightAtMost(a: nat)
    requires a >= 3
    ensures Pow2(a) >= 8
  {
    Pow2Monotone(3, a);
    assert Pow2(3) == 8;
  }

  /** One below a multiple of eight, the skip link leads seven back from the multiple. */
  lemma {:induction false} SevenBack(b: nat, a: nat)
    requires b > 0 && a >= 3
    ensures Scaled(b, a) >= 8 && GetSkipHeight(Scaled(b, a) - 1) == Scaled(b, a) - 7
  {
    hide GetSkipHeight, InvertLowestOne, Scaled;
    var w := Scaled(b, a - 3);
    ScaledZero(b, a - 3);
    ScaledTwice(b, a - 3);
    ScaledTwice(b, a - 2);
    ScaledTwice(b, a - 1);
    var x := 4 * w - 1;
    FourTimes(2 * w);
    SkipOfOdd(x, 1);
    InvertOdd(2 * w - 1);
    InvertEven(2 * w - 1);
    InvertOdd(w - 1);
    ScaledTwice(4 * w - 4, 0);
    ScaledZero(4 * w - 4, 0);
  }

  /** From a multiple of 2^k to a target less than 2^k below. */
  lemma {:induction false} NearSteps(a: nat, k: nat, t: nat)
    requires a > 0 && Scaled(a - 1, k) < t <= Scaled(a, k)
    ensures StepsTo(Scaled(a, k), t) <= Near(k)
    decreases k, 1, 0
  {
    hide Scaled, GetSkipHeight, InvertLowestOne, NextHeight, StepsTo;
    var h := Scaled(a, k);
    ScaledNext(a - 1, k);
    if t == h {
      AtMostOneStep(h, t);
      NoSteps(t);
    } else {
      ScaledZero(a, 0);
      ScaledZero(a - 1, 0);
      assert k > 0;
      SkipOfEven(a, k);
      InvertBelow(a);
      ScaledMonotone(InvertLowestOne(a), a - 1, k);
      NextIs(h, t);
      StepsNext(h, t);
      if k == 1 {
        assert Pow2(1) == 2;
        NoSteps(t);
      } else if k == 3 {
        EightTimes(a - 1);
        EightTimes(a);
        EightSteps(a, t);
      } else {
        var b := OddBelow(a, k);
        DescentSteps(b, 1, t, k, a - 1);
      }
    }
  }

  /** The skip heights below a multiple of eight. */
  lemma {:induction false} SkipsOfEight(a: nat)
    requires a > 0
    ensures Scaled(a, 3) == 8 * a && GetSkipHeight(8 * a) <= 8 * a - 8
    ensures GetSkipHeight(8 * a - 1) == 8 * a - 7 && GetSkipHeight(8 * a - 2) == 8 * a - 4
    ensures GetSkipHeight(8 * a - 3) <= 8 * a - 7 && GetSkipHeight(8 * a - 5) <= 8 * a - 7
    ensures GetSkipHeight(8 * a - 4) == 8 * a - 8 && GetSkipHeight(8 * a - 6) == 8 * a - 8
  {
    hide Scaled, GetSkipHeight, InvertLowestOne;
    EightTimes(a);
    SkipOfEven(a, 3);
    InvertBelow(a);
    EightTimes(InvertLowestOne(a));
    SevenBack(a, 3);
    Doubled(4 * a - 1);
    SkipOfEven(4 * a - 1, 1);
    InvertOdd(2 * a - 1);
    Doubled(4 * a - 2);
    SkipOfOdd(4 * a - 2, 1);
    InvertEven(2 * a - 1);
    InvertOdd(a - 1);
    InvertBelow(4 * a - 4);
    ScaledMonotone(InvertLowestOne(4 * a - 4), 4 * a - 4, 1);
    Doubled(4 * a - 4);
    Doubled(4 * a - 3);
    SkipOfOdd(4 * a - 3, 1);
    InvertOdd(2 * a - 2);
    SkipOfEven(4 * a - 3, 1);
    FourTimes(2 * a - 1);
    Quadrupled(2 * a - 2);
    SkipOfEven(2 * a - 1, 2);
  }

  lemma {:induction false} Doubled(b: nat)
    ensures Scaled(b, 1) == 2 * b
  {
    ScaledTwice(b, 0);
    ScaledZero(b, 0);
  }

  lemma {:induction false} Quadrupled(b: nat)
    ensures Scaled(b, 2) == 4 * b
  {
    ScaledTwice(b, 1);
    Doubled(b);
  }

  lemma {:induction false} EightTimes(b: nat)
    ensures Scaled(b, 3) == 8 * b
  {
    ScaledTwice(b, 2);
    Quadrupled(b);
  }

  /** From a multiple of eight to a target less than eight below. */
  lemma {:induction false} EightSteps(a: nat, t: nat)
    requires a > 0 && 8 * (a - 1) < t < 8 * a
    ensures StepsTo(Scaled(a, 3), t) <= 5
  {
    hide Scaled, GetSkipHeight, InvertLowestOne, NextHeight, StepsTo;
    SkipsOfEight(a);
    NoSteps(t);
    Follow(8 * a, t, 8 * a - 1);
    if t < 8 * a - 1 {
      if t == 8 * a - 7 {
        Follow(8 * a - 1, t, t);
      } else {
        Follow(8 * a - 1, t, 8 * a - 2);
        SixSteps(a, t);
      }
    }
  }

  lemma {:induction false} SixSteps(a: nat, t: nat)
    requires a > 0 && 8 * a - 7 < t <= 8 * a - 2
    ensures StepsTo(8 * a - 2, t) <= 3
  {
    hide Scaled, GetSkipHeight, InvertLowestOne, NextHeight, StepsTo;
    SkipsOfEight(a);
    NoSteps(t);
    if t == 8 * a - 3 {
      Follow(8 * a - 2, t, t);
    } else if t <= 8 * a - 4 {
      Follow(8 * a - 2, t, 8 * a - 4);
      if t < 8 * a - 4 { Follow(8 * a - 4, t, 8 * a - 5); }
      if t < 8 * a - 5 { Follow(8 * a - 5, t, 8 * a - 6); }
    }
  }

  /** One step to where the skip link leads or, if that is past the target, to the block before. */
  lemma {:induction false} Follow(h: nat, t: nat, to: nat)
    requires t < h && (GetSkipHeight(h) < t ==> to == h - 1)
    requires GetSkipHeight(h) >= t ==> to == GetSkipHeight(h) && (GetSkipHeight(h - 1) < t || to == t)
    ensures t <= to && StepsTo(h, t) == 1 + StepsTo(to, t)
  {
    hide GetSkipHeight, InvertLowestOne;
    StepsNext(h, t);
  }

  lemma {:induction false} NoSteps(t: nat)
    ensures StepsTo(t, t) == 0
  {
  }

  lemma {:induction false} OddBelow(a: nat, k: nat) returns (b: nat)
    requires a > 0 && k > 0
    ensures Scaled(a, k) == Scaled(b, 1) + 2
  {
    ScaledTwice(a, k - 1);
    ScaledZero(a, k - 1);
    b := Scaled(a, k - 1) - 1;
    ScaledTwice(b, 0);
    ScaledZero(b, 0);
  }

  /** From an odd height to a target that no multiple of 2^k separates from it. */
  lemma {:induction false} DescentSteps(b: nat, a: nat, t: nat, k: nat, m: nat)
    requires a > 0 && k > 0 && t <= Scaled(b, a) + 1
    requires Scaled(m, k) <= t && Scaled(b, a) < Scaled(m + 1, k)
    ensures StepsTo(Scaled(b, a) + 1, t) <= Descent(k, a)
    ensures a >= k ==> StepsTo(Scaled(b, a) + 1, t) <= 1
    decreases k, 0, b
  {
    hide Scaled, GetSkipHeight, InvertLowestOne, NextHeight, StepsTo, Near;
    var p := Scaled(b, a) + 1;
    if p <= t + 1 {
      AtMostOneStep(p, t);
    } else {
      Between(b, a, m, k);
      ScaledZero(b, a);
      if b % 2 == 0 {
        ScaledTwice(b / 2, a);
        DescentSteps(b / 2, a + 1, t, k, m);
      } else if b == 1 {
        FirstOdd(a, t, k);
      } else {
        ScaledTwice(b / 2, a);
        var i := InvertLowestOne(b / 2);
        InvertIsEven(b / 2);
        InvertBelow(b / 2);
        ScaledTwice(i / 2, a + 1);
        OddSkip(b / 2, a, t);
        if Scaled(i, a + 1) + 1 >= t {
          ScaledMonotone(i, b / 2, a + 1);
          StepsNext(p, t);
          NearAtLeast(k - 1);
          DescentSteps(i / 2, a + 2, t, k, m);
        } else {
          TurnSteps(b / 2, a, t, k, m);
        }
      }
    }
  }

  /** At an odd height, the skip link is followed unless it passes the target. */
  lemma {:induction false} OddSkip(m: nat, a: nat, t: nat)
    requires m > 0 && a > 0 && t < Scaled(2 * m + 1, a) + 1
    ensures var p, skip := Scaled(2 * m + 1, a) + 1, Scaled(InvertLowestOne(m), a + 1) + 1;
            NextHeight(p, t) == if skip >= t then skip else p - 1
  {
    hide Scaled, GetSkipHeight, InvertLowestOne, NextHeight;
    var b, i := 2 * m + 1, InvertLowestOne(m);
    SkipOfOdd(b, a);
    SkipOfEven(b, a);
    InvertOdd(m);
    InvertEven(m);
    ScaledTwice(i, a);
    ScaledTwice(m, a);
    InvertBelow(m);
    ScaledNext(i, a + 1);
    ScaledMonotone(i + 1, m, a + 1);
    NextIs(Scaled(b, a) + 1, t);
  }

  /** The odd height above 2^a itself. */
  lemma {:induction false} FirstOdd(a: nat, t: nat, k: nat)
    requires 0 < a < k && t < Scaled(1, a)
    ensures StepsTo(Scaled(1, a) + 1, t) <= Descent(k, a)
    decreases k, 0, 0
  {
    hide Scaled, GetSkipHeight, InvertLowestOne, NextHeight, StepsTo;
    var p := Scaled(1, a) + 1;
    InvertOdd(0);
    InvertEven(0);
    SkipOfOdd(1, a);
    SkipOfEven(1, a);
    ScaledZero(0, a);
    NextIs(p, t);
    StepsNext(p, t);
    if t <= 1 {
      AtMostOneStep(1, t);
    } else {
      NearSteps(1, a, t);
      NearMonotone(a, k - 1);
    }
  }

  /** From an odd height whose skip link passes the target. */
  lemma {:induction false} TurnSteps(n: nat, a: nat, t: nat, k: nat, m: nat)
    requires n > 0 && 0 < a < k && t < Scaled(2 * n + 1, a)
    requires Scaled(m, k) <= t && Scaled(2 * n + 1, a) < Scaled(m + 1, k)
    requires Scaled(InvertLowestOne(n), a + 1) + 1 < t
    ensures StepsTo(Scaled(2 * n + 1, a) + 1, t) <= Descent(k, a)
    decreases k, 0, 2
  {
    hide Scaled, GetSkipHeight, InvertLowestOne, NextHeight, StepsTo, Near;
    OddSkip(n, a, t);
    StepsNext(Scaled(2 * n + 1, a) + 1, t);
    MultipleSteps(n, a, t, k, m);
  }

  /** From an odd multiple of 2^a, it is at most one step to a multiple of a power of two that is near the target. */
  lemma {:induction false} MultipleSteps(n: nat, a: nat, t: nat, k: nat, m: nat)
    requires n > 0 && 0 < a < k && t < Scaled(2 * n + 1, a)
    requires Scaled(m, k) <= t && Scaled(2 * n + 1, a) < Scaled(m + 1, k)
    requires Scaled(InvertLowestOne(n), a + 1) + 1 < t
    ensures StepsTo(Scaled(2 * n + 1, a), t) <= (k - a) / 2 + Near(k - 1)
    ensures StepsTo(Scaled(2 * n + 1, a), t) <= 1 + Near(k - 1)
    decreases k, 0, 1
  {
    hide Scaled, GetSkipHeight, InvertLowestOne, NextHeight, StepsTo, Near;
    var g := Scaled(2 * n + 1, a);
    if Scaled(2 * n, a) < t {
      NearSteps(2 * n + 1, a, t);
      NearMonotone(a, k - 1);
    } else {
      NoBetterSkip(n, a, t);
      SkipOfEven(2 * n + 1, a);
      InvertOdd(n);
      NextIs(g, t);
      StepsNext(g, t);
      ScaledTwice(n, a);
      LastStretch(n, a + 1, t, k, m, g);
      NearAtLeast(k - 1);
    }
  }

  lemma {:induction false} LastStretch(n: nat, a: nat, t: nat, k: nat, m: nat, g: nat)
    requires n > 0 && k > 0 && Scaled(InvertLowestOne(n), a) < t <= Scaled(n, a) < g
    requires Scaled(m, k) <= t && g < Scaled(m + 1, k)
    ensures StepsTo(Scaled(n, a), t) <= Near(k - 1)
    ensures StepsTo(Scaled(n, a), t) == 0 || a < k
    decreases k, 0, 0
  {
    hide Scaled, GetSkipHeight, InvertLowestOne, NextHeight, StepsTo, Near;
    var c, j := LowestOne(n);
    ScaledScaled(c, j, a);
    ScaledScaled(c - 1, j, a);
    if t == Scaled(n, a) {
      NoSteps(t);
    } else {
      Between(c, j + a, m, k);
      NearSteps(c, j + a, t);
      NearMonotone(j + a, k - 1);
    }
  }

  lemma {:induction false} ScaledScaled(c: nat, j: nat, a: nat)
    ensures Scaled(Scaled(c, j), a) == Scaled(c, j + a)
  {
    Pow2Add(j, a);
    assert (c * Pow2(j)) * Pow2(a) == c * (Pow2(j) * Pow2(a));
  }

  /** From a multiple of 2^k with k > 2: skip links to multiples of ever larger powers of two. */
  lemma {:induction false} ClimbSteps(a: nat, k: nat, t: nat, n: nat)
    requires k >= 3 && n > 0 && t <= Scaled(a, k) < Pow2(n)
    ensures StepsTo(Scaled(a, k), t) == 0 || (k < n && StepsTo(Scaled(a, k), t) <= n - 1 - k + Near(n - 1))
    decreases a
  {
    hide Scaled, GetSkipHeight, InvertLowestOne, NextHeight, StepsTo, Near;
    var h := Scaled(a, k);
    if t == h {
      NoSteps(t);
    } else {
      Inside(a, k, n);
      NearAtLeast(n - 1);
      if a % 2 == 0 {
        ScaledTwice(a / 2, k);
        ClimbSteps(a / 2, k + 1, t, n);
      } else if Scaled(a - 1, k) < t {
        NearSteps(a, k, t);
        NearMonotone(k, n - 1);
      } else {
        SkipOfEven(a, k);
        InvertOdd(a / 2);
        SevenBack(a, k);
        ScaledNext(a - 1, k);
        EightAtMost(k);
        NextIs(h, t);
        StepsNext(h, t);
        ScaledTwice(a / 2, k);
        ClimbSteps(a / 2, k + 1, t, n);
      }
    }
  }

  lemma {:induction false} Inside(a: nat, k: nat, n: nat)
    requires 0 < Scaled(a, k) < Pow2(n)
    ensures a > 0 && k < n
  {
    ScaledZero(0, n);
    ScaledNext(0, n);
    ScaledZero(0, k);
    Between(a, k, 0, n);
  }

  /** From an odd multiple of two: one step to an odd height, or two to a multiple near the target. */
  lemma {:induction false} TwoSteps(a: nat, t: nat, n: nat)
    requires a % 2 == 1 && t < Scaled(a, 1) < Pow2(n)
    ensures n > 1 && StepsTo(Scaled(a, 1), t) <= 1 + Descent(n, 1)
  {
    hide Scaled, GetSkipHeight, InvertLowestOne, NextHeight, StepsTo, Near;
    var h, u := Scaled(a, 1), a - 1;
    Inside(a, 1, n);
    Doubled(a);
    Doubled(u);
    ScaledZero(0, n);
    ScaledNext(0, n);
    StepsNext(h, t);
    SkipOfEven(a, 1);
    InvertOdd(a / 2);
    NextIs(h, t);
    if NextHeight(h, t) == h - 1 {
      DescentSteps(u, 1, t, n, 0);
    } else if t == Scaled(u, 1) {
      NoSteps(t);
    } else {
      SkipOfOdd(u, 1);
      TwiceInverted(u);
      Doubled(InvertLowestOne(InvertLowestOne(u)));
      TwoBits(u, t, n);
    }
  }

  lemma {:induction false} TwiceInverted(u: nat)
    requires u > 0 && u % 2 == 0
    ensures InvertLowestOne(InvertLowestOne(u)) + 2 <= u
  {
    InvertBelow(u);
    InvertIsEven(u);
    InvertBelow(InvertLowestOne(u));
  }

  /** From a multiple of four to a target that is above what is left without the two lowest one bits. */
  lemma {:induction false} TwoBits(u: nat, t: nat, n: nat)
    requires u > 0 && n > 0 && Scaled(InvertLowestOne(InvertLowestOne(u)), 1) + 1 < t < Scaled(u, 1) < Pow2(n)
    ensures StepsTo(Scaled(u, 1), t) <= 1 + Near(n - 1)
  {
    hide Scaled, GetSkipHeight, InvertLowestOne, NextHeight, StepsTo, Near;
    var c, j := LowestOne(u);
    var m := c / 2;
    ScaledScaled(c, j, 1);
    Inside(c, j + 1, n);
    ScaledZero(0, n);
    ScaledNext(0, n);
    if m == 0 {
      ScaledZero(0, j + 1);
      NearSteps(1, j + 1, t);
      NearMonotone(j + 1, n - 1);
    } else {
      InvertScaled(2 * m, j);
      InvertEven(m);
      ScaledScaled(2 * InvertLowestOne(m), j, 1);
      ScaledTwice(InvertLowestOne(m), j + 1);
      MultipleSteps(m, j + 1, t, n, 0);
    }
  }

  /** From an odd multiple of four: one step to an odd height, or to a multiple near the target. */
  lemma {:induction false} FourSteps(a: nat, t: nat, n: nat)
    requires a % 2 == 1 && t < Scaled(a, 2) < Pow2(n)
    ensures n > 2 && StepsTo(Scaled(a, 2), t) <= 1 + Descent(n, 1)
  {
    hide Scaled, GetSkipHeight, InvertLowestOne, NextHeight, StepsTo, Near;
    var h, u := Scaled(a, 2), a - 1;
    Inside(a, 2, n);
    Quadrupled(a);
    Quadrupled(u);
    ScaledZero(0, n);
    ScaledNext(0, n);
    StepsNext(h, t);
    SkipOfEven(a, 2);
    InvertOdd(a / 2);
    NextIs(h, t);
    if NextHeight(h, t) == h - 1 {
      var b := OddBelow(a, 2);
      DescentSteps(b, 1, t, n, 0);
    } else if t == Scaled(u, 2) {
      NoSteps(t);
    } else {
      SkipOfOdd(2 * a - 1, 1);
      Doubled(2 * a - 1);
      InvertOdd(u);
      InvertEven(u);
      Quadrupled(InvertLowestOne(u));
      Doubled(2 * InvertLowestOne(u));
      InvertBelow(u);
      InvertIsEven(u);
      LastStretch(u, 2, t, n, 0, h);
    }
  }

  /** The most steps from any height below 2^n. */
  function Most(n: nat): nat
    requires n > 0
  {
    var descend, climb := 1 + Descent(n, 1), n - 4 + Near(n - 1);
    if climb > descend then climb else descend
  }

  lemma {:induction false} AllSteps(h: nat, t: nat, n: nat)
    requires n > 0 && t <= h < Pow2(n)
    ensures StepsTo(h, t) <= Most(n)
  {
    hide Scaled, StepsTo, Near;
    if t == h {
      NoSteps(t);
    } else if h % 2 == 1 {
      Doubled(h / 2);
      ScaledZero(0, n);
      ScaledNext(0, n);
      DescentSteps(h / 2, 1, t, n, 0);
    } else {
      var c, k := LowestOne(h);
      if k == 0 {
        ScaledZero(c, 0);
        assert false;
      } else if k == 1 {
        TwoSteps(c, t, n);
      } else if k == 2 {
        FourSteps(c, t, n);
      } else {
        ClimbSteps(c, k, t, n);
      }
    }
  }

  function Square(n: int): int { n * n }

  lemma {:induction false} SquareIs(n: int)
    ensures n * (n + 8) == Square(n) + 8 * n
  {
  }

  lemma {:induction false} SquareNext(j: int)
    ensures Square(j + 1) == Square(j) + 2 * j + 1
  {
  }

  lemma {:induction false} NearIs(k: nat)
    requires k >= 3
    ensures 4 * Near(k) <= Square(k) + 6 * k - 8 + k % 2
  {
    hide Square;
    if k == 3 {
      SquareSmall();
    } else {
      NearIs(k - 1);
      SquareNext(k - 1);
    }
  }

  lemma {:induction false} SquareSmall()
    ensures Square(1) == 1 && Square(2) == 4 && Square(3) == 9 && Square(18) == 324
  {
  }

  lemma {:induction false} MostIs(n: nat)
    requires n > 0
    ensures 4 * Most(n) <= Square(n) + 8 * n
    ensures n >= 11 ==> 4 * Most(n) <= Square(n) + 8 * n - 28
  {
    hide Square;
    SquareSmall();
    if n > 3 {
      hide Near;
      NearIs(n - 1);
      SquareNext(n - 1);
    }
  }

  /** Below 2^n blocks, an ancestor is at most n * (n + 8) / 4 links away. */
  lemma {:induction false} FewSteps(h: nat, t: nat, n: nat)
    requires n > 0 && t <= h < Pow2(n)
    ensures 4 * StepsTo(h, t) <= n * (n + 8)
    ensures n >= 11 ==> 4 * StepsTo(h, t) <= n * (n + 8) - 28
  {
    hide StepsTo, Most, Square;
    AllSteps(h, t, n);
    MostIs(n);
    SquareIs(n);
  }

  /** The number that the comment on GetSkipHeight gives for 2^18 blocks. */
  lemma {:induction false} AtMost110(h: nat, t: nat)
    requires t <= h <= Pow2(18)
    ensures StepsTo(h, t) <= 110
  {
    hide StepsTo, Scaled, GetSkipHeight, Near;
    if h < Pow2(18) {
      FewSteps(h, t, 18);
    } else {
      ScaledZero(0, 18);
      ScaledZero(1, 18);
      SkipOfEven(1, 18);
      SevenBack(1, 18);
      InvertOdd(0);
      if 0 < t {
        NearSteps(1, 18, t);
        NearIs(18);
        SquareSmall();
      } else {
        NextIs(h, t);
        StepsNext(h, t);
        NoSteps(t);
      }
    }
  }
}
