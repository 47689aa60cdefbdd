/** What the checksum of Bech32 detects (src/bech32.cpp): the generator has three consecutive powers of a primitive
    element of the field of 1024 elements as roots, so no change of up to three values goes unnoticed.
 */
module Bech32Errors {
  import opened Bech32
  import F = Gf1024

  // ----- States as polynomials, evaluated in the field -----

  function Wide(v: bv5): bv10 { v as bv10 }

  /** The constant coefficient of a state. */
  function Digit(s: bv32): bv10 { Wide((s & 31) as bv5) }

  /** The other coefficients. */
  function Drop(s: bv32): bv32 { s >> 5 }

  /** The value at `b` of the polynomial whose lowest `n` coefficients are packed in `s`. */
  function Eval(b: bv10, s: bv32, n: nat): bv10
    decreases n
  {
    if n == 0 then 0 else F.Xor(F.Mul(b, Eval(b, Drop(s), n - 1)), Digit(s))
  }

  /** The powers of `e` at which the code evaluates. */
  predicate Root(j: nat) { 997 <= j <= 999 }

  function At(j: nat, s: bv32): bv10 { Eval(F.Power(j), s, 6) }

  lemma {:induction false} MaskLinear(a: bv32, b: bv32)
    ensures Xor(a, b) & 31 == (a & 31) ^ (b & 31) && a & 31 < 32 && b & 31 < 32
    ensures Drop(Xor(a, b)) == Xor(Drop(a), Drop(b))
  {
  }

  lemma {:induction false} NarrowLinear(a: bv32, b: bv32)
    requires a < 32 && b < 32
    ensures a ^ b < 32 && Wide((a ^ b) as bv5) == F.Xor(Wide(a as bv5), Wide(b as bv5))
  {
  }

  lemma {:induction false} DigitLinear(a: bv32, b: bv32)
    ensures Digit(Xor(a, b)) == F.Xor(Digit(a), Digit(b))
  {
    hide Xor, Wide, F.Xor;
    MaskLinear(a, b);
    NarrowLinear(a & 31, b & 31);
  }

  lemma {:induction false} MulSecond(j: nat, a: bv10, b: bv10)
    ensures F.Mul(F.Power(j), F.Xor(a, b)) == F.Xor(F.Mul(F.Power(j), a), F.Mul(F.Power(j), b))
    ensures F.Mul(F.Power(j), 0) == 0
  {
    hide F.Mul, F.Power, F.Times, F.Xor;
    F.TimesIsMul(j, a);
    F.TimesIsMul(j, b);
    F.TimesIsMul(j, F.Xor(a, b));
    F.TimesLinear(j, a, b);
    F.TimesIsMul(j, 0);
    F.TimesNonzero(j, 0);
  }

  lemma {:induction false} EvalLinear(j: nat, a: bv32, b: bv32, n: nat)
    ensures Eval(F.Power(j), Xor(a, b), n) == F.Xor(Eval(F.Power(j), a, n), Eval(F.Power(j), b, n))
    decreases n
  {
    hide F.Mul, F.Power, F.Xor, Xor, Digit, Drop;
    if n == 0 {
      F.XorZero(0, 0);
    } else {
      var p, q := Eval(F.Power(j), Drop(a), n - 1), Eval(F.Power(j), Drop(b), n - 1);
      EvalLinear(j, Drop(a), Drop(b), n - 1);
      DigitLinear(a, b);
      MaskLinear(a, b);
      MulSecond(j, p, q);
      F.Shuffle(F.Mul(F.Power(j), p), F.Mul(F.Power(j), q), Digit(a), Digit(b));
    }
  }

  lemma {:induction false} NoDigits()
    ensures Drop(0) == 0 && Digit(0) == 0
  {
  }

  lemma {:induction false} EvalZero(j: nat, n: nat)
    ensures Eval(F.Power(j), 0, n) == 0
  {
    hide F.Mul, F.Power, Digit, Drop;
    if n > 0 {
      EvalZero(j, n - 1);
      NoDigits();
      MulSecond(j, 0, 0);
      F.XorZero(0, 0);
    }
  }

  lemma {:induction false} BoundShift(s: bv32, n: nat)
    requires n <= 5 && s < Bound(n + 1)
    ensures Drop(s) < Bound(n)
  {
  }

  lemma {:induction false} BelowFirst(s: bv32)
    requires s < Bound(0)
    ensures s == 0
  {
  }

  /** A coefficient that is zero adds nothing. */
  lemma {:induction false} EvalShort(j: nat, s: bv32, n: nat)
    requires n <= 5 && s < Bound(n)
    ensures Eval(F.Power(j), s, n + 1) == Eval(F.Power(j), s, n)
    decreases n
  {
    hide F.Mul, F.Power, F.Xor, Digit, Bound, Drop;
    if n == 0 {
      BelowFirst(s);
      EvalZero(j, 1);
    } else {
      BoundShift(s, n - 1);
      EvalShort(j, Drop(s), n - 1);
    }
  }

  lemma {:induction false} ShiftedDigits(c: bv32)
    ensures Drop(Shifted(c)) == c & 0x1ffffff && Digit(Shifted(c)) == 0 && c & 0x1ffffff < 0x200_0000
  {
  }

  lemma {:induction false} TopAndRest(c: bv32)
    requires c < 0x4000_0000
    ensures c == Xor(c & 0x1ffffff, (c >> 25) << 25) && c >> 25 < 32
  {
  }

  lemma {:induction false} BoundFive()
    ensures Bound(5) == 0x200_0000
  {
  }

  /** Shifting up by one coefficient is multiplying. */
  lemma {:induction false} EvalShifted(j: nat, c: bv32)
    ensures At(j, Shifted(c)) == F.Mul(F.Power(j), Eval(F.Power(j), c & 0x1ffffff, 6))
  {
    hide F.Mul, F.Power, F.Xor, Digit, Drop, Shifted, Bound;
    var low := c & 0x1ffffff;
    ShiftedDigits(c);
    BoundFive();
    EvalShort(j, low, 5);
    assert Eval(F.Power(j), Shifted(c), 6) == F.Xor(F.Mul(F.Power(j), Eval(F.Power(j), low, 5)), 0);
    F.XorZero(F.Mul(F.Power(j), Eval(F.Power(j), low, 5)), 0);
  }

  lemma {:induction false} SmallState(v: bv5)
    ensures Drop(v as bv32) == 0 && Digit(v as bv32) == Wide(v)
  {
  }

  lemma {:induction false} EvalSmall(j: nat, v: bv5)
    ensures At(j, v as bv32) == Wide(v)
  {
    hide F.Mul, F.Power, F.Xor, Digit, Drop, Wide;
    SmallState(v);
    EvalZero(j, 5);
    MulSecond(j, 0, 0);
    F.XorZero(Wide(v), 0);
  }

  // ----- The roots of the generator -----

  /** The polynomial x^6 + g(x), scaled by `t`, is zero at the `j`-th power of `e`. */
  predicate Vanishes(j: nat, t: bv32) {
    At(j, Generator(t)) == F.Mul(F.Power(j), At(j, t << 25))
  }

  lemma {:induction false} RaiseLinear(a: bv32, b: bv32)
    ensures Xor(a, b) << 25 == Xor(a << 25, b << 25)
  {
  }

  lemma {:induction false} VanishesXor(j: nat, a: bv32, b: bv32)
    requires Vanishes(j, a) && Vanishes(j, b)
    ensures Vanishes(j, Xor(a, b))
  {
    hide F.Mul, F.Power, F.Xor, Xor, Generator, Eval;
    GeneratorLinear(a, b);
    RaiseLinear(a, b);
    EvalLinear(j, Generator(a), Generator(b), 6);
    EvalLinear(j, a << 25, b << 25, 6);
    MulSecond(j, At(j, a << 25), At(j, b << 25));
  }

  /** Every coefficient multiplied by x, the element 2 of the field of 32. */
  function ScaleX(s: bv32): bv32 {
    ((s & 0x1ef7bdef) << 1) ^ (((s >> 4) & 0x2108421) * 9)
  }

  lemma {:induction false} ScaleDigits(s: bv32)
    requires s < 0x4000_0000
    ensures Drop(ScaleX(s)) == ScaleX(Drop(s)) && Drop(s) < 0x4000_0000
    ensures Digit(ScaleX(s)) == F.TimesX(Digit(s))
  {
  }

  lemma {:induction false} EvalScaled(j: nat, s: bv32, n: nat)
    requires s < 0x4000_0000
    ensures Eval(F.Power(j), ScaleX(s), n) == F.TimesX(Eval(F.Power(j), s, n))
    decreases n
  {
    hide F.Mul, F.Power, F.Xor, F.TimesX, Digit, Drop, ScaleX;
    if n == 0 {
      NoX();
    } else {
      var q := Eval(F.Power(j), Drop(s), n - 1);
      ScaleDigits(s);
      EvalScaled(j, Drop(s), n - 1);
      MulX(j, q);
      F.XLinear(F.Mul(F.Power(j), q), Digit(s));
    }
  }

  lemma {:induction false} NoX()
    ensures F.TimesX(0) == 0
  {
  }

  lemma {:induction false} MulX(j: nat, v: bv10)
    ensures F.Mul(F.Power(j), F.TimesX(v)) == F.TimesX(F.Mul(F.Power(j), v))
  {
    hide F.Mul, F.Power, F.TimesX, F.Times;
    F.TimesIsMul(j, v);
    F.TimesIsMul(j, F.TimesX(v));
    F.TimesOfX(j, v);
  }

  lemma {:induction false} UnitScaled(t: bv32)
    requires t == 1 || t == 2 || t == 4 || t == 8
    ensures Generator(t << 1) == ScaleX(Generator(t)) && Generator(t) < 0x4000_0000
    ensures (t << 1) << 25 == ScaleX(t << 25) && t << 25 < 0x4000_0000
  {
  }

  lemma {:induction false} VanishesNext(j: nat, t: bv32)
    requires t == 1 || t == 2 || t == 4 || t == 8
    requires Vanishes(j, t)
    ensures Vanishes(j, t << 1)
  {
    hide F.Mul, F.Power, F.TimesX, Generator, Eval, ScaleX;
    UnitScaled(t);
    EvalScaled(j, Generator(t), 6);
    EvalScaled(j, t << 25, 6);
    MulX(j, At(j, t << 25));
  }

  lemma {:induction false} GeneratorDigits()
    ensures Generator(1) == 0x3b6a57b2 && (1 as bv32) << 25 == 0x200_0000
    ensures Digit(0x3b6a57b2) == 18 && Drop(0x3b6a57b2) == 0x1db52bd
    ensures Digit(0x1db52bd) == 29 && Drop(0x1db52bd) == 0xeda95 && Digit(0xeda95) == 21 && Drop(0xeda95) == 0x76d4
    ensures Digit(0x76d4) == 20 && Drop(0x76d4) == 0x3b6 && Digit(0x3b6) == 22 && Drop(0x3b6) == 29
    ensures Digit(29) == 29 && Drop(29) == 0
  {
  }

  lemma {:induction false} TopDigit()
    ensures Digit(0x200_0000) == 0 && Drop(0x200_0000) == 0x10_0000
    ensures Digit(0x10_0000) == 0 && Drop(0x10_0000) == 0x8000 && Digit(0x8000) == 0 && Drop(0x8000) == 0x400
    ensures Digit(0x400) == 0 && Drop(0x400) == 32 && Digit(32) == 0 && Drop(32) == 1 && Digit(1) == 1 && Drop(1) == 0
  {
  }

  function Horner(b: bv10, s: bv10, d: bv10): bv10 { F.Xor(F.Mul(b, s), d) }

  /** x^6 + g(x) = x^6 + {29}x^5 + {22}x^4 + {20}x^3 + {21}x^2 + {29}x + {18} is zero at `b`. */
  predicate IsRoot(b: bv10) {
    Horner(b, Horner(b, Horner(b, Horner(b, Horner(b, 29, 22), 20), 21), 29), 18)
    == F.Mul(b, F.Mul(b, F.Mul(b, F.Mul(b, F.Mul(b, F.Mul(b, 1))))))
  }

  lemma {:induction false} Times997(v: bv10)
    ensures F.Mul(0x1bd, v)
            == F.Select(v, 0x1bd, 0x353, 0x3af, 0x27e, 0x1f5) ^ F.Select(v >> 5, 0x065, 0x0ca, 0x194, 0x301, 0x322)
  {
    hide F.Mul, F.Select;
    F.ProductIs(v, 0x1bd, 0x353, 0x3af, 0x27e, 0x1f5, 0x065, 0x0ca, 0x194, 0x301, 0x322);
  }

  lemma {:induction false} Root997Horner()
    ensures Horner(0x1bd, 0x01d, 22) == 0x18f
    ensures Horner(0x1bd, 0x18f, 20) == 0x1be
    ensures Horner(0x1bd, 0x1be, 21) == 0x192
    ensures Horner(0x1bd, 0x192, 29) == 0x02e
    ensures Horner(0x1bd, 0x02e, 18) == 0x2f5
  {
    hide F.Mul;
    Times997(0x01d);
    Times997(0x18f);
    Times997(0x1be);
    Times997(0x192);
    Times997(0x02e);
  }

  lemma {:induction false} Root997Power()
    ensures F.Mul(0x1bd, 0x001) == 0x1bd && F.Mul(0x1bd, 0x1bd) == 0x369 && F.Mul(0x1bd, 0x369) == 0x34f
    ensures F.Mul(0x1bd, 0x34f) == 0x3d6 && F.Mul(0x1bd, 0x3d6) == 0x074 && F.Mul(0x1bd, 0x074) == 0x2f5
  {
    hide F.Mul;
    Times997(0x001);
    Times997(0x1bd);
    Times997(0x369);
    Times997(0x34f);
    Times997(0x3d6);
    Times997(0x074);
  }

  lemma {:induction false} Times998(v: bv10)
    ensures F.Mul(0x065, v)
            == F.Select(v, 0x065, 0x0ca, 0x194, 0x301, 0x322) ^ F.Select(v >> 5, 0x3d0, 0x2a9, 0x072, 0x0cd, 0x19a)
  {
    hide F.Mul, F.Select;
    F.ProductIs(v, 0x065, 0x0ca, 0x194, 0x301, 0x322, 0x3d0, 0x2a9, 0x072, 0x0cd, 0x19a);
  }

  lemma {:induction false} Root998Horner()
    ensures Horner(0x065, 0x01d, 22) == 0x1c4
    ensures Horner(0x065, 0x1c4, 20) == 0x396
    ensures Horner(0x065, 0x396, 21) == 0x34c
    ensures Horner(0x065, 0x34c, 29) == 0x176
    ensures Horner(0x065, 0x176, 18) == 0x3da
  {
    hide F.Mul;
    Times998(0x01d);
    Times998(0x1c4);
    Times998(0x396);
    Times998(0x34c);
    Times998(0x176);
  }

  lemma {:induction false} Root998Power()
    ensures F.Mul(0x065, 0x001) == 0x065 && F.Mul(0x065, 0x065) == 0x088 && F.Mul(0x065, 0x088) == 0x373
    ensures F.Mul(0x065, 0x373) == 0x3a3 && F.Mul(0x065, 0x3a3) == 0x25a && F.Mul(0x065, 0x25a) == 0x3da
  {
    hide F.Mul;
    Times998(0x001);
    Times998(0x065);
    Times998(0x088);
    Times998(0x373);
    Times998(0x3a3);
    Times998(0x25a);
  }

  lemma {:induction false} Times999(v: bv10)
    ensures F.Mul(0x3d0, v)
            == F.Select(v, 0x3d0, 0x2a9, 0x072, 0x0cd, 0x19a) ^ F.Select(v >> 5, 0x104, 0x208, 0x130, 0x249, 0x1b2)
  {
    hide F.Mul, F.Select;
    F.ProductIs(v, 0x3d0, 0x2a9, 0x072, 0x0cd, 0x19a, 0x104, 0x208, 0x130, 0x249, 0x1b2);
  }

  lemma {:induction false} Root999Horner()
    ensures Horner(0x3d0, 0x01d, 22) == 0x2e3
    ensures Horner(0x3d0, 0x2e3, 20) == 0x2e3
    ensures Horner(0x3d0, 0x2e3, 21) == 0x2e2
    ensures Horner(0x3d0, 0x2e2, 29) == 0x13a
    ensures Horner(0x3d0, 0x13a, 18) == 0x0a1
  {
    hide F.Mul;
    Times999(0x01d);
    Times999(0x2e3);
    Times999(0x2e3);
    Times999(0x2e2);
    Times999(0x13a);
  }

  lemma {:induction false} Root999Power()
    ensures F.Mul(0x3d0, 0x001) == 0x3d0 && F.Mul(0x3d0, 0x3d0) == 0x159 && F.Mul(0x3d0, 0x159) == 0x2c6
    ensures F.Mul(0x3d0, 0x2c6) == 0x051 && F.Mul(0x3d0, 0x051) == 0x042 && F.Mul(0x3d0, 0x042) == 0x0a1
  {
    hide F.Mul;
    Times999(0x001);
    Times999(0x3d0);
    Times999(0x159);
    Times999(0x2c6);
    Times999(0x051);
    Times999(0x042);
  }

  lemma {:induction false} AreRoots()
    ensures IsRoot(0x1bd) && IsRoot(0x065) && IsRoot(0x3d0)
  {
    hide Horner, F.Mul;
    Root997Horner();
    Root997Power();
    Root998Horner();
    Root998Power();
    Root999Horner();
    Root999Power();
  }

  lemma {:induction false} GeneratorAt(j: nat)
    ensures At(j, 0x3b6a57b2) ==
            var b := F.Power(j);
            Horner(b, Horner(b, Horner(b, Horner(b, Horner(b, 29, 22), 20), 21), 29), 18)
  {
    hide F.Mul, F.Power, F.Xor, Digit, Drop;
    GeneratorDigits();
    EvalUnfold(F.Power(j), 0x3b6a57b2, 5);
    EvalUnfold(F.Power(j), 0x1db52bd, 4);
    EvalUnfold(F.Power(j), 0xeda95, 3);
    EvalUnfold(F.Power(j), 0x76d4, 2);
    EvalUnfold(F.Power(j), 0x3b6, 1);
    EvalLast(j, 29);
  }

  lemma {:induction false} EvalUnfold(b: bv10, s: bv32, n: nat)
    ensures Eval(b, s, n + 1) == Horner(b, Eval(b, Drop(s), n), Digit(s))
  {
  }

  lemma {:induction false} EvalLast(j: nat, s: bv32)
    ensures Eval(F.Power(j), s, 1) == Digit(s)
  {
    hide F.Mul, F.Power, Digit, Drop;
    MulSecond(j, 0, 0);
    assert Eval(F.Power(j), Drop(s), 0) == 0;
    F.XorZero(Digit(s), 0);
  }

  lemma {:induction false} TopAt(j: nat)
    ensures At(j, 0x200_0000) ==
            var b := F.Power(j);
            F.Mul(b, F.Mul(b, F.Mul(b, F.Mul(b, F.Mul(b, 1)))))
  {
    hide F.Mul, F.Power, F.Xor, Digit, Drop;
    TopDigit();
    EvalNoDigit(F.Power(j), 0x200_0000, 5);
    EvalNoDigit(F.Power(j), 0x10_0000, 4);
    EvalNoDigit(F.Power(j), 0x8000, 3);
    EvalNoDigit(F.Power(j), 0x400, 2);
    EvalNoDigit(F.Power(j), 32, 1);
    EvalLast(j, 1);
  }

  lemma {:induction false} EvalNoDigit(b: bv10, s: bv32, n: nat)
    requires Digit(s) == 0
    ensures Eval(b, s, n + 1) == F.Mul(b, Eval(b, Drop(s), n))
  {
    hide F.Mul;
    F.XorZero(F.Mul(b, Eval(b, Drop(s), n)), 0);
  }

  lemma {:induction false} VanishesOne(j: nat)
    requires Root(j)
    ensures Vanishes(j, 1)
  {
    hide F.Mul, F.Power, Generator, Eval, Horner;
    F.Powers997();
    GeneratorDigits();
    AreRoots();
    GeneratorAt(j);
    TopAt(j);
  }

  lemma {:induction false} Bits(t: bv32)
    requires t < 32
    ensures t == Xor(Xor(Xor(Xor(t & 1, t & 2), t & 4), t & 8), t & 16)
  {
  }

  lemma {:induction false} VanishesBit(j: nat, t: bv32, bit: bv32)
    requires Vanishes(j, bit)
    requires bit == 1 || bit == 2 || bit == 4 || bit == 8 || bit == 16
    ensures Vanishes(j, t & bit)
  {
    hide F.Mul, F.Power, Eval, Generator;
    assert t & bit == 0 || t & bit == bit;
    NoGenerator();
    EvalZero(j, 6);
    MulSecond(j, 0, 0);
    assert (0 as bv32) << 25 == 0;
  }

  /** The generator has the three powers of `e` as roots. */
  lemma {:induction false} GeneratorRoots(j: nat, t: bv32)
    requires Root(j) && t < 32
    ensures Vanishes(j, t)
  {
    hide Vanishes, Xor;
    VanishesOne(j);
    VanishesNext(j, 1);
    VanishesNext(j, 2);
    VanishesNext(j, 4);
    VanishesNext(j, 8);
    Doubles();
    VanishesBit(j, t, 1);
    VanishesBit(j, t, 2);
    VanishesBit(j, t, 4);
    VanishesBit(j, t, 8);
    VanishesBit(j, t, 16);
    VanishesXor(j, t & 1, t & 2);
    VanishesXor(j, Xor(t & 1, t & 2), t & 4);
    VanishesXor(j, Xor(Xor(t & 1, t & 2), t & 4), t & 8);
    VanishesXor(j, Xor(Xor(Xor(t & 1, t & 2), t & 4), t & 8), t & 16);
    Bits(t);
  }

  lemma {:induction false} Doubles()
    ensures (1 as bv32) << 1 == 2 && (2 as bv32) << 1 == 4 && (4 as bv32) << 1 == 8 && (8 as bv32) << 1 == 16
  {
  }

  /** So a step of the checksum multiplies the value there by the root and adds the new coefficient. */
  lemma {:induction false} StepAt(j: nat, c: bv32, v: bv5)
    requires Root(j) && c < 0x4000_0000
    ensures At(j, Step(c, v)) == F.Xor(F.Times(j, At(j, c)), Wide(v))
  {
    hide F.Mul, F.Power, F.Xor, F.Times, Generator, Eval, Xor, Shifted, Wide;
    var low, top, w := c & 0x1ffffff, c >> 25, v as bv32;
    EvalLinear(j, Xor(Shifted(c), w), Generator(top), 6);
    EvalLinear(j, Shifted(c), w, 6);
    EvalShifted(j, c);
    EvalSmall(j, v);
    TopAndRest(c);
    EvalLinear(j, low, top << 25, 6);
    MulSecond(j, At(j, low), At(j, top << 25));
    GeneratorRoots(j, top);
    F.TimesIsMul(j, At(j, c));
    var p, q := F.Mul(F.Power(j), At(j, low)), F.Mul(F.Power(j), At(j, top << 25));
    F.XorLaws(p, Wide(v), q);
    F.XorLaws(Wide(v), q, p);
    F.XorLaws(p, q, Wide(v));
  }

  // ----- Errors -----

  lemma {:induction false} ZerosAt(j: nat, c: bv32, n: nat)
    requires Root(j) && c < 0x4000_0000
    ensures At(j, Run(c, Zeros(n))) == F.Times(j * n, At(j, c))
  {
    hide Step, At, F.TimesE, Wide;
    if n > 0 {
      ZerosAt(j, c, n - 1);
      assert Zeros(n) == Zeros(n - 1) + [0];
      RunSnoc(c, Zeros(n - 1), 0);
      RunFits(c, Zeros(n - 1));
      StepAt(j, Run(c, Zeros(n - 1)), 0);
      NoWide();
      F.XorZero(F.Times(j, F.Times(j * (n - 1), At(j, c))), 0);
      F.TimesAdd(j, j * (n - 1), At(j, c));
      assert j * n == j + j * (n - 1);
    }
  }

  lemma {:induction false} NoWide()
    ensures Wide(0) == 0
  {
  }

  /** After `m` steps the state holds what was there, multiplied, and the coefficient just added. */
  lemma {:induction false} ErrorAt(j: nat, c: bv32, n: nat, v: bv5)
    requires Root(j) && c < 0x4000_0000
    ensures At(j, Step(Run(c, Zeros(n)), v)) == F.Xor(F.Times(j * (n + 1), At(j, c)), Wide(v))
  {
    hide Step, At, F.Times, F.Xor, Wide, Run;
    ZerosAt(j, c, n);
    RunFits(c, Zeros(n));
    StepAt(j, Run(c, Zeros(n)), v);
    F.TimesAdd(j, j * n, At(j, c));
    assert j * (n + 1) == j + j * n;
  }

  /** Three values, the second `r` and the third `r + p` places after the first. */
  function ThreeErrors(x: bv5, r: nat, y: bv5, p: nat, z: bv5): bv32
    requires r > 0 && p > 0
  {
    Step(Run(Step(Run(x as bv32, Zeros(r - 1)), y), Zeros(p - 1)), z)
  }

  lemma {:induction false} SmallFits(x: bv5)
    ensures x as bv32 < 0x4000_0000
  {
  }

  lemma {:induction false} ThreeAt(j: nat, x: bv5, r: nat, y: bv5, p: nat, z: bv5)
    requires Root(j) && r > 0 && p > 0
    ensures At(j, ThreeErrors(x, r, y, p, z)) ==
            F.Xor(F.Xor(F.Times(j * (r + p), Wide(x)), F.Times(j * p, Wide(y))), Wide(z))
  {
    hide Step, At, F.Times, F.Xor, Wide, Run;
    var c := x as bv32;
    SmallFits(x);
    EvalSmall(j, x);
    ErrorAt(j, c, r - 1, y);
    var d := Step(Run(c, Zeros(r - 1)), y);
    StepFits(Run(c, Zeros(r - 1)), y);
    ErrorAt(j, d, p - 1, z);
    F.TimesLinear(j * p, F.Times(j * r, Wide(x)), Wide(y));
    F.TimesAdd(j * p, j * r, Wide(x));
    assert j * p + j * r == j * (r + p);
  }

  /** Three equations, one for each root, leave nothing. */
  lemma {:induction false} Eliminate(x: bv10, y: bv10, z: bv10, r: nat, p: nat)
    requires r > 0 && p > 0 && r + p < 1023
    requires F.Xor(F.Xor(x, y), z) == 0
    requires F.Xor(F.Xor(F.Times(r + p, x), F.Times(p, y)), z) == 0
    requires F.Xor(F.Xor(F.Times(r + p, F.Times(r + p, x)), F.Times(p, F.Times(p, y))), z) == 0
    ensures x == 0 && y == 0 && z == 0
  {
    hide F.Times, F.Xor;
    var q := r + p;
    var x1, y1 := F.Times(q, x), F.Times(p, y);
    var w := F.Xor(x1, x);
    SameSum(x, y, x1, y1, z);
    SameSum(x1, y1, F.Times(q, x1), F.Times(p, y1), z);
    F.TimesLinear(q, x1, x);
    F.TimesLinear(p, y1, y);
    F.TimesAdd(p, r, w);
    F.TimesInjective(p, F.Times(r, w), w);
    if w != 0 { F.Primitive(r, w); }
    F.XorZero(x1, x);
    F.XorZero(y1, y);
    if x != 0 { F.Primitive(q, x); }
    if y != 0 { F.Primitive(p, y); }
    F.XorZero(0, z);
    F.XorZero(0, 0);
  }

  lemma {:induction false} SameSum(x: bv10, y: bv10, x1: bv10, y1: bv10, z: bv10)
    requires F.Xor(F.Xor(x, y), z) == 0 && F.Xor(F.Xor(x1, y1), z) == 0
    ensures F.Xor(x1, x) == F.Xor(y1, y)
  {
    hide F.Xor;
    F.XorZero(F.Xor(x, y), z);
    F.XorZero(F.Xor(x1, y1), z);
    F.Shuffle(x1, y1, x, y);
    F.XorZero(F.Xor(x1, y1), F.Xor(x, y));
    F.XorZero(F.Xor(x1, x), F.Xor(y1, y));
  }

  lemma {:induction false} ZeroAt(j: nat)
    ensures At(j, 0) == 0
  {
    EvalZero(j, 6);
  }

  lemma {:induction false} WideZero(x: bv5)
    ensures Wide(x) == 0 <==> x == 0
  {
  }

  /** Three errors within 1023 places are never zero together. */
  lemma {:induction false} ThreeNonzero(x: bv5, r: nat, y: bv5, p: nat, z: bv5)
    requires r > 0 && p > 0 && r + p < 1023 && (x != 0 || y != 0 || z != 0)
    ensures ThreeErrors(x, r, y, p, z) != 0
  {
    hide At, F.Times, F.Xor, Wide, ThreeErrors;
    if ThreeErrors(x, r, y, p, z) == 0 {
      var q := r + p;
      var x0, y0 := F.Times(997 * q, Wide(x)), F.Times(997 * p, Wide(y));
      AtNextRoot(997, q, x);
      AtNextRoot(997, p, y);
      AtNextRoot(998, q, x);
      AtNextRoot(998, p, y);
      ThreeVanish(997, x, r, y, p, z);
      ThreeVanish(998, x, r, y, p, z);
      ThreeVanish(999, x, r, y, p, z);
      Eliminate(x0, y0, Wide(z), r, p);
      F.TimesNonzero(997 * q, Wide(x));
      F.TimesNonzero(997 * p, Wide(y));
      WideZero(x);
      WideZero(y);
      WideZero(z);
    }
  }

  lemma {:induction false} AtNextRoot(j: nat, q: nat, x: bv5)
    ensures F.Times((j + 1) * q, Wide(x)) == F.Times(q, F.Times(j * q, Wide(x)))
  {
    assert (j + 1) * q == q + j * q;
    F.TimesAdd(q, j * q, Wide(x));
  }

  lemma {:induction false} ThreeVanish(j: nat, x: bv5, r: nat, y: bv5, p: nat, z: bv5)
    requires Root(j) && r > 0 && p > 0 && ThreeErrors(x, r, y, p, z) == 0
    ensures F.Xor(F.Xor(F.Times(j * (r + p), Wide(x)), F.Times(j * p, Wide(y))), Wide(z)) == 0
  {
    hide At, ThreeErrors;
    ThreeAt(j, x, r, y, p, z);
    ZeroAt(j);
  }

  lemma {:induction false} StepFirst(x: bv5)
    ensures Step(0, x) == x as bv32
  {
    StepAppends(0, x);
  }

  lemma {:induction false} RunZeros(n: nat)
    ensures Run(0, Zeros(n)) == 0
  {
    hide Step;
    if n > 0 {
      RunZeros(n - 1);
      assert Zeros(n)[..n - 1] == Zeros(n - 1);
      StepAppends(0, 0);
    }
  }

  /** A list with nothing but three values in it. */
  lemma {:induction false} SparseRun(d: Data, a: nat, b: nat, c: nat)
    requires a < b < c < |d| && forall i :: 0 <= i < |d| && i != a && i != b && i != c ==> d[i] == 0
    ensures Run(0, d) == Run(ThreeErrors(d[a], b - a, d[b], c - b, d[c]), Zeros(|d| - c - 1))
  {
    hide Run, Step;
    var d1, d2, d3 := Zeros(a) + [d[a]], Zeros(b - a - 1) + [d[b]], Zeros(c - b - 1) + [d[c]];
    assert d == ((d1 + d2) + d3) + Zeros(|d| - c - 1);
    RunConcat(0, (d1 + d2) + d3, Zeros(|d| - c - 1));
    RunConcat(0, d1 + d2, d3);
    RunConcat(0, d1, d2);
    RunZeros(a);
    RunSnoc(0, Zeros(a), d[a]);
    StepFirst(d[a]);
    RunSnoc(d[a] as bv32, Zeros(b - a - 1), d[b]);
    RunSnoc(Step(Run(d[a] as bv32, Zeros(b - a - 1)), d[b]), Zeros(c - b - 1), d[c]);
  }

  lemma {:induction false} SparseNonzero(d: Data, a: nat, b: nat, c: nat)
    requires a < b < c < |d| && c < a + 1023 && (d[a] != 0 || d[b] != 0 || d[c] != 0)
    requires forall i :: 0 <= i < |d| && i != a && i != b && i != c ==> d[i] == 0
    ensures Run(0, d) != 0
  {
    hide Run, Step, ThreeErrors;
    var s := ThreeErrors(d[a], b - a, d[b], c - b, d[c]);
    SparseRun(d, a, b, c);
    ThreeNonzero(d[a], b - a, d[b], c - b, d[c]);
    ThreeFits(d[a], b - a, d[b], c - b, d[c]);
    StatesStayApart(s, 0, Zeros(|d| - c - 1));
    RunZeros(|d| - c - 1);
  }

  lemma {:induction false} ThreeFits(x: bv5, r: nat, y: bv5, p: nat, z: bv5)
    requires r > 0 && p > 0
    ensures ThreeErrors(x, r, y, p, z) < 0x4000_0000
  {
    hide Run, Step;
    StepFits(Run(Step(Run(x as bv32, Zeros(r - 1)), y), Zeros(p - 1)), z);
  }

  /** The two lists differ at most at `a`, `b` and `c`. */
  ghost predicate DifferAt(u: Data, w: Data, a: nat, b: nat, c: nat) {
    |u| == |w| && forall i :: 0 <= i < |u| && i != a && i != b && i != c ==> u[i] == w[i]
  }

  /** Up to three changed values within a window of 1023 change the checksum. */
  lemma {:induction false} ThreeErrorsDetected(u: Data, w: Data, a: nat, b: nat, c: nat)
    requires a <= b <= c < |u| && c < a + 1023 && DifferAt(u, w, a, b, c) && u != w
    ensures Run(1, u) != Run(1, w)
  {
    hide Run, Step;
    if c < a + 6 {
      assert u[..a] == w[..a] && u[c + 1..] == w[c + 1..];
      WindowDetected(u, w, a, c + 1);
    } else {
      var middle := if a < b < c then b else a + 1;
      assert DifferAt(u, w, a, middle, c);
      var d := XorData(u, w);
      forall i | 0 <= i < |d| ensures d[i] == 0 <==> u[i] == w[i] { XorSame(u[i], w[i]); }
      DifferSomewhere(u, w, a, middle, c);
      SparseNonzero(d, a, middle, c);
      RunLinear(1, 1, u, w);
      XorZero(1, 1);
      XorZero(Run(1, u), Run(1, w));
    }
  }

  lemma {:induction false} DifferSomewhere(u: Data, w: Data, a: nat, b: nat, c: nat)
    requires a <= b <= c < |u| && DifferAt(u, w, a, b, c) && u != w
    ensures u[a] != w[a] || u[b] != w[b] || u[c] != w[c]
  {
    var i :| 0 <= i < |u| && u[i] != w[i];
  }

  lemma {:induction false} XorSame(a: bv5, b: bv5)
    ensures a ^ b == 0 <==> a == b
  {
  }

  /** Under one encoding and prefix, two accepted lists never differ in only one, two or three values within a window
      of 1023, which is more than a string has room for. */
  lemma {:induction false} ChecksumDetectsThree(hrp: string, u: Data, w: Data, a: nat, b: nat, c: nat)
    requires a <= b <= c < |u| && c < a + 1023 && DifferAt(u, w, a, b, c) && u != w
    ensures VerifyChecksum(hrp, u) != INVALID ==> VerifyChecksum(hrp, w) != VerifyChecksum(hrp, u)
  {
    hide Run, ExpandHRP;
    var e := ExpandHRP(hrp);
    var n := |e|;
    assert (e + u)[n..] == u && (e + w)[n..] == w;
    ThreeErrorsDetected(e + u, e + w, n + a, n + b, n + c);
  }

  /** An accepted string with one, two or three of the characters after the separator mistyped, none of them as
      another separator, is not accepted under the same encoding. */
  lemma {:induction false} MistypedIsRefused(str: string, other: string, a: nat, b: nat, c: nat)
    requires DecodeSpec(str).Decoded? && |other| == |str| && LastOne(other) == LastOne(str)
    requires LastOne(str) < a <= b <= c < |str| && Lower(other) != Lower(str)
    requires forall i :: 0 <= i < |str| && i != a && i != b && i != c ==> other[i] == str[i]
    ensures DecodeSpec(other).Decoded? ==> DecodeSpec(other).encoding != DecodeSpec(str).encoding
  {
    hide LastOne, VerifyChecksum, FromChar, LowerCase, Acceptable;
    var n := LastOne(str) + 1;
    if DecodeSpec(other).Decoded? {
      var u, w := FromChars(str[n..]), FromChars(other[n..]);
      assert other[..n - 1] == str[..n - 1];
      assert DifferAt(u, w, a - n, b - n, c - n);
      assert other[..n] == str[..n];
      ValuesDiffer(str, other, n);
      ChecksumDetectsThree(Lower(str[..n - 1]), u, w, a - n, b - n, c - n);
    }
  }

  /** Strings that differ behind a common part, in more than case, stand for different values there. */
  lemma {:induction false} ValuesDiffer(s: string, t: string, n: nat)
    requires n <= |s| && n <= |t| && s[..n] == t[..n] && Lower(s) != Lower(t)
    requires AllValues(s[n..]) && AllValues(t[n..])
    ensures FromChars(s[n..]) != FromChars(t[n..])
  {
    hide FromChars, AllValues, LowerCase;
    ValuesBack(s[n..]);
    ValuesBack(t[n..]);
    LowerParts(s, n);
    LowerParts(t, n);
  }

  lemma {:induction false} LowerParts(s: string, n: nat)
    requires n <= |s|
    ensures Lower(s) == Lower(s[..n]) + Lower(s[n..])
  {
  }

  // ----- Whole strings -----

  /** One step, with the multiple of the generator that it adds. */
  lemma {:induction false} StepIs(c: bv32, v: bv5, g: bv32)
    requires Generator(c >> 25) == g
    ensures Step(c, v) == (((c & 0x1ffffff) << 5) ^ (v as bv32)) ^ g
  {
    hide Generator, Xor, Shifted;
    NextState(c, v);
    XorIs(Xor(Shifted(c), v as bv32), g);
  }

  lemma {:induction false} RunTo(c: bv32, v: bv5, g: bv32, rest: Data, next: bv32)
    requires Generator(c >> 25) == g && (((c & 0x1ffffff) << 5) ^ (v as bv32)) ^ g == next
    ensures Run(c, [v] + rest) == Run(next, rest)
  {
    hide Step, Generator;
    StepIs(c, v, g);
    RunConcat(c, [v], rest);
    assert [v] == [] + [v];
    RunSnoc(c, [], v);
    RunNothing(c);
  }

  lemma {:induction false} RunFrom(c: bv32, e: Data, i: nat, g: bv32, next: bv32)
    requires i < |e| && Generator(c >> 25) == g && (((c & 0x1ffffff) << 5) ^ (e[i] as bv32)) ^ g == next
    ensures Run(c, e[i..]) == Run(next, e[i + 1..])
  {
    hide Generator, Run;
    RunTo(c, e[i], g, e[i + 1..], next);
    assert e[i..] == [e[i]] + e[i + 1..];
  }

  lemma {:induction false} Shortest173Run(e: Data)
    requires e == [3, 0, 1, 10, 28, 25, 31, 20, 31]
    ensures Run(1, e) == 1
  {
    hide Run;
    assert e == e[0..];
    RunFrom(0x1, e, 0, 0x0, 0x23);
    RunFrom(0x23, e, 1, 0x0, 0x460);
    RunFrom(0x460, e, 2, 0x0, 0x8c01);
    RunFrom(0x8c01, e, 3, 0x0, 0x11802a);
    RunFrom(0x11802a, e, 4, 0x0, 0x230055c);
    RunFrom(0x230055c, e, 5, 0x3b6a57b2, 0x3d6afc2b);
    RunFrom(0x3d6afc2b, e, 6, 0x2fa7c6f9, 0x2f84386);
    RunFrom(0x2f84386, e, 7, 0x3b6a57b2, 0x24622766);
    RunFrom(0x24622766, e, 8, 0xc44ecde, 0x1);
    assert e[9..] == [];
    RunNothing(1);
  }

  lemma {:induction false} Shortest350Run(e: Data)
    requires e == [3, 0, 1, 31, 0, 9, 19, 17, 29]
    ensures Run(1, e) == 0x2bc830a3
  {
    hide Run;
    assert e == e[0..];
    RunFrom(0x1, e, 0, 0x0, 0x23);
    RunFrom(0x23, e, 1, 0x0, 0x460);
    RunFrom(0x460, e, 2, 0x0, 0x8c01);
    RunFrom(0x8c01, e, 3, 0x0, 0x11803f);
    RunFrom(0x11803f, e, 4, 0x0, 0x23007e0);
    RunFrom(0x23007e0, e, 5, 0x3b6a57b2, 0x3d6aabbb);
    RunFrom(0x3d6aabbb, e, 6, 0x2fa7c6f9, 0x2f2b18a);
    RunFrom(0x2f2b18a, e, 7, 0x3b6a57b2, 0x253c66e3);
    RunFrom(0x253c66e3, e, 8, 0xc44ecde, 0x2bc830a3);
    assert e[9..] == [];
    RunNothing(0x2bc830a3);
  }

  lemma {:induction false} ExpandA()
    ensures ExpandHRP("a") == [3, 0, 1]
  {
    assert HighBits('a') == 3 && LowBits('a') == 1;
  }

  /** A string of the prefix "a" and six values is decoded to nothing but its checksum's verdict. */
  lemma {:induction false} DecodeOfA(values: Data)
    requires |values| == 6
    ensures var encoding := VerifyChecksum("a", values);
            DecodeSpec("a" + ['1'] + ToChars(values))
            == if encoding == INVALID then Failed else Decoded(encoding, "a", [])
  {
    hide Printable, NoUpper, NoLower, AllValues, LastOne, ToChars, FromChars, VerifyChecksum;
    var tail := ToChars(values);
    CharsBack(values);
    CharsLength(values);
    EncodedParts("a", tail);
    PlainA();
    EncodedAcceptable("a", tail);
    LowerStays("a");
    assert values[..0] == [];
  }

  lemma {:induction false} PlainA()
    ensures Printable("a") && NoUpper("a")
  {
  }

  lemma {:induction false} VerdictOf(values: Data, check: bv32)
    requires |values| == 6 && Run(1, [3, 0, 1] + values) == check
    ensures VerifyChecksum("a", values)
            == if check == 1 then BECH32 else if check == 0x2bc830a3 then BECH32M else INVALID
  {
    hide Run, ExpandHRP;
    ExpandA();
  }

  /** The shortest valid strings of BIP 173 and BIP 350. */
  lemma {:induction false} ShortestStrings()
    ensures DecodeSpec("a12uel5l") == Decoded(BECH32, "a", [])
    ensures DecodeSpec("a1lqfn3a") == Decoded(BECH32M, "a", [])
  {
    hide DecodeSpec, VerifyChecksum, Run, ToChars;
    var u: Data, w: Data := [10, 28, 25, 31, 20, 31], [31, 0, 9, 19, 17, 29];
    assert [3, 0, 1] + u == [3, 0, 1, 10, 28, 25, 31, 20, 31] && [3, 0, 1] + w == [3, 0, 1, 31, 0, 9, 19, 17, 29];
    Shortest173Run([3, 0, 1] + u);
    Shortest350Run([3, 0, 1] + w);
    VerdictOf(u, 1);
    VerdictOf(w, 0x2bc830a3);
    DecodeOfA(u);
    DecodeOfA(w);
    ShortestLetters(u, w);
    assert "a" + ['1'] + "2uel5l" == "a12uel5l" && "a" + ['1'] + "lqfn3a" == "a1lqfn3a";
  }

  lemma {:induction false} ShortestLetters(u: Data, w: Data)
    requires u == [10, 28, 25, 31, 20, 31] && w == [31, 0, 9, 19, 17, 29]
    ensures ToChars(u) == "2uel5l" && ToChars(w) == "lqfn3a"
  {
    LetterAt();
    hide ToChar;
  }

  lemma {:induction false} LetterAt()
    ensures ToChar(10) == '2' && ToChar(28) == 'u' && ToChar(25) == 'e' && ToChar(31) == 'l' && ToChar(20) == '5'
    ensures ToChar(0) == 'q' && ToChar(9) == 'f' && ToChar(19) == 'n' && ToChar(17) == '3' && ToChar(29) == 'a'
  {
  }

  /** An accepted string with one character before the separator mistyped, and at most one after it, that not as
      another separator, is not accepted under the same encoding. */
  lemma {:induction false} MistypedPrefixIsRefused(str: string, other: string, a: nat, c: nat)
    requires DecodeSpec(str).Decoded? && |other| == |str| && LastOne(other) == LastOne(str)
    requires a < LastOne(str) < c < |str| && LowerCase(other[a]) != LowerCase(str[a])
    requires forall i :: 0 <= i < |str| && i != a && i != c ==> other[i] == str[i]
    ensures DecodeSpec(other).Decoded? ==> DecodeSpec(other).encoding != DecodeSpec(str).encoding
  {
    hide LastOne, FromChar, Acceptable, Run, ExpandHRP;
    var n := LastOne(str);
    if DecodeSpec(other).Decoded? {
      var p, q := Lower(str[..n]), Lower(other[..n]);
      var u, w := FromChars(str[n + 1..]), FromChars(other[n + 1..]);
      AcceptableBytes(str, n);
      AcceptableBytes(other, n);
      PrefixesDiffer(p, q, u, w, a);
      var k := 2 * n + c - n;
      assert DifferAt(ExpandHRP(p) + u, ExpandHRP(q) + w, a, n + 1 + a, k) by {
        TailsDiffer(str, other, n, c);
        ExpandsDiffer(p, q, u, w, a, c - n - 1);
      }
      ThreeErrorsDetected(ExpandHRP(p) + u, ExpandHRP(q) + w, a, n + 1 + a, k);
    }
  }

  lemma {:induction false} AcceptableBytes(s: string, n: nat)
    requires Acceptable(s) && n <= |s|
    ensures forall i :: 0 <= i < n ==> Lower(s[..n])[i] as int < 256
  {
  }

  lemma {:induction false} PrefixesDiffer(p: string, q: string, u: Data, w: Data, a: nat)
    requires |p| == |q| && a < |p| && p[a] != q[a]
    requires forall i :: 0 <= i < |p| ==> p[i] as int < 256 && q[i] as int < 256
    ensures |ExpandHRP(p)| == |ExpandHRP(q)| == 2 * |p| + 1 && ExpandHRP(p) + u != ExpandHRP(q) + w
  {
    hide ExpandHRP;
    ExpandIs(p, a);
    ExpandIs(q, a);
    var x, y := ExpandHRP(p) + u, ExpandHRP(q) + w;
    assert x[a] == ExpandHRP(p)[a] && y[a] == ExpandHRP(q)[a];
    assert x[|p| + 1 + a] == ExpandHRP(p)[|p| + 1 + a] && y[|p| + 1 + a] == ExpandHRP(q)[|p| + 1 + a];
  }

  lemma {:induction false} TailsDiffer(s: string, t: string, n: nat, c: nat)
    requires |t| == |s| && n < c < |s| && AllValues(s[n + 1..]) && AllValues(t[n + 1..])
    requires forall i :: n < i < |s| && i != c ==> t[i] == s[i]
    ensures var u, w := FromChars(s[n + 1..]), FromChars(t[n + 1..]);
            |u| == |w| == |s| - n - 1 && forall i :: 0 <= i < |u| && i != c - n - 1 ==> u[i] == w[i]
  {
  }

  lemma {:induction false} ExpandsDiffer(p: string, q: string, u: Data, w: Data, a: nat, d: nat)
    requires |p| == |q| && a < |p| && (forall i :: 0 <= i < |p| && i != a ==> p[i] == q[i])
    requires |u| == |w| && d < |u| && (forall i :: 0 <= i < |u| && i != d ==> u[i] == w[i])
    ensures DifferAt(ExpandHRP(p) + u, ExpandHRP(q) + w, a, |p| + 1 + a, 2 * |p| + 1 + d)
  {
    hide HighBits, LowBits;
  }
}
