/** The field of 1024 elements that the Bech32 checksum is built on (src/bech32.cpp): pairs over the field of 32
    elements.  Its element `e` is primitive: every nonzero element comes back after exactly 1023 multiplications
    by `e`.
 */
module Gf1024 {

  function Xor(a: bv10, b: bv10): bv10 { a ^ b }

  /** Multiplication by x in both halves of a pair, modulo x^5 + x^3 + 1. */
  function TimesX(v: bv10): bv10 {
    ((v & 0x1ef) << 1) ^ (if v & 16 != 0 then 0x009 else 0) ^ (if v & 512 != 0 then 0x120 else 0)
  }

  function High(v: bv10): bv10 { v >> 5 }

  function Low(v: bv10): bv10 { v & 31 }

  function Raise(v: bv10): bv10 { v << 5 }

  /** 9 is x^3 + 1. */
  function Times9(v: bv10): bv10 { Xor(v, TimesX(TimesX(TimesX(v)))) }

  /** 23 is x^4 + x^2 + x + 1. */
  function Times23(v: bv10): bv10 {
    Xor(Xor(v, TimesX(v)), Xor(TimesX(TimesX(v)), TimesX(TimesX(TimesX(TimesX(v))))))
  }

  /** Multiplication by `e`, a root of x^2 + 9x + 23. */
  function TimesE(v: bv10): bv10 { Xor(Raise(Xor(Times9(High(v)), Low(v))), Times23(High(v))) }

  /** Multiplication by the `n`-th power of `e`. */
  function Times(n: nat, v: bv10): bv10 {
    if n == 0 then v else TimesE(Times(n - 1, v))
  }

  function Power(n: nat): bv10 { Times(n, 1) }

  function Bit(v: bv10, bit: bv10, m: bv10): bv10 { if v & bit != 0 then m else 0 }

  /** The sum of the multiples of an element that the low five bits of `v` call for. */
  function Select(v: bv10, a: bv10, x: bv10, x2: bv10, x3: bv10, x4: bv10): bv10 {
    Xor(Xor(Xor(Xor(Bit(v, 1, a), Bit(v, 2, x)), Bit(v, 4, x2)), Bit(v, 8, x3)), Bit(v, 16, x4))
  }

  /** The product with an element of the field of 32, the low half of `v`. */
  function Scale(a: bv10, v: bv10): bv10 {
    var x := TimesX(a);
    var x2 := TimesX(x);
    var x3 := TimesX(x2);
    Select(v, a, x, x2, x3, TimesX(x3))
  }

  /** The product in the field. */
  function Mul(a: bv10, v: bv10): bv10 { Xor(Scale(a, v), Scale(TimesE(a), High(v))) }

  // ----- Linearity -----

  lemma {:induction false} XorLaws(a: bv10, b: bv10, c: bv10)
    ensures Xor(a, b) == Xor(b, a)
    ensures Xor(Xor(a, b), c) == Xor(a, Xor(b, c))
  {
  }

  lemma {:induction false} XorZero(a: bv10, b: bv10)
    ensures Xor(a, 0) == a && Xor(0, a) == a && Xor(a, a) == 0
    ensures Xor(a, b) == 0 <==> a == b
  {
  }

  lemma {:induction false} Shuffle(a: bv10, b: bv10, c: bv10, d: bv10)
    ensures Xor(Xor(a, b), Xor(c, d)) == Xor(Xor(a, c), Xor(b, d))
  {
    hide Xor;
    XorLaws(a, b, Xor(c, d));
    XorLaws(b, c, d);
    XorLaws(c, b, d);
    XorLaws(a, c, Xor(b, d));
  }

  lemma {:induction false} XLinear(a: bv10, b: bv10)
    ensures TimesX(Xor(a, b)) == Xor(TimesX(a), TimesX(b))
  {
    TimesXIs(a);
    TimesXIs(b);
    TimesXIs(Xor(a, b));
    hide Xor, ShiftUp, Bit, TimesX;
    ShiftLinear(a, b);
    BitOfXor(a, b, 16, 0x009);
    BitOfXor(a, b, 512, 0x120);
    Shuffle(ShiftUp(a), ShiftUp(b), Bit(a, 16, 0x009), Bit(b, 16, 0x009));
    Shuffle(Xor(ShiftUp(a), Bit(a, 16, 0x009)), Xor(ShiftUp(b), Bit(b, 16, 0x009)), Bit(a, 512, 0x120),
            Bit(b, 512, 0x120));
  }

  function ShiftUp(v: bv10): bv10 { (v & 0x1ef) << 1 }

  lemma {:induction false} TimesXIs(v: bv10)
    ensures TimesX(v) == Xor(Xor(ShiftUp(v), Bit(v, 16, 0x009)), Bit(v, 512, 0x120))
  {
  }

  lemma {:induction false} ShiftLinear(a: bv10, b: bv10)
    ensures ShiftUp(Xor(a, b)) == Xor(ShiftUp(a), ShiftUp(b))
  {
  }

  lemma {:induction false} BitOfXor(a: bv10, b: bv10, bit: bv10, m: bv10)
    requires bit == 16 || bit == 512
    ensures Bit(Xor(a, b), bit, m) == Xor(Bit(a, bit, m), Bit(b, bit, m))
  {
    assert (a ^ b) & bit == (a & bit) ^ (b & bit);
  }

  lemma {:induction false} HalvesLinear(a: bv10, b: bv10)
    ensures High(Xor(a, b)) == Xor(High(a), High(b))
    ensures Low(Xor(a, b)) == Xor(Low(a), Low(b))
    ensures Raise(Xor(a, b)) == Xor(Raise(a), Raise(b))
  {
  }

  lemma {:induction false} NineLinear(a: bv10, b: bv10)
    ensures Times9(Xor(a, b)) == Xor(Times9(a), Times9(b))
  {
    hide Xor, TimesX;
    var a1, b1 := TimesX(a), TimesX(b);
    var a2, b2 := TimesX(a1), TimesX(b1);
    XLinear(a, b);
    XLinear(a1, b1);
    XLinear(a2, b2);
    Shuffle(a, b, TimesX(a2), TimesX(b2));
  }

  lemma {:induction false} TwentyThreeLinear(a: bv10, b: bv10)
    ensures Times23(Xor(a, b)) == Xor(Times23(a), Times23(b))
  {
    hide Xor, TimesX;
    var a1, b1 := TimesX(a), TimesX(b);
    var a2, b2 := TimesX(a1), TimesX(b1);
    var a3, b3 := TimesX(a2), TimesX(b2);
    var a4, b4 := TimesX(a3), TimesX(b3);
    XLinear(a, b);
    XLinear(a1, b1);
    XLinear(a2, b2);
    XLinear(a3, b3);
    Shuffle(a, b, a1, b1);
    Shuffle(a2, b2, a4, b4);
    Shuffle(Xor(a, a1), Xor(b, b1), Xor(a2, a4), Xor(b2, b4));
  }

  lemma {:induction false} ELinear(a: bv10, b: bv10)
    ensures TimesE(Xor(a, b)) == Xor(TimesE(a), TimesE(b))
  {
    hide Xor, Times9, Times23, High, Low, Raise;
    HalvesLinear(a, b);
    var p, q := Times9(High(a)), Times9(High(b));
    NineLinear(High(a), High(b));
    TwentyThreeLinear(High(a), High(b));
    Shuffle(p, q, Low(a), Low(b));
    HalvesLinear(Xor(p, Low(a)), Xor(q, Low(b)));
    Shuffle(Raise(Xor(p, Low(a))), Raise(Xor(q, Low(b))), Times23(High(a)), Times23(High(b)));
  }

  lemma {:induction false} TimesLinear(n: nat, a: bv10, b: bv10)
    ensures Times(n, Xor(a, b)) == Xor(Times(n, a), Times(n, b))
  {
    hide Xor, TimesE;
    if n > 0 {
      TimesLinear(n - 1, a, b);
      ELinear(Times(n - 1, a), Times(n - 1, b));
    }
  }

  lemma {:induction false} ENonzero(v: bv10)
    ensures TimesE(v) == 0 <==> v == 0
  {
  }

  /** No power of `e` multiplies to zero. */
  lemma {:induction false} TimesNonzero(n: nat, v: bv10)
    ensures Times(n, v) == 0 <==> v == 0
  {
    hide TimesE;
    if n > 0 {
      TimesNonzero(n - 1, v);
      ENonzero(Times(n - 1, v));
    }
  }

  lemma {:induction false} TimesInjective(n: nat, a: bv10, b: bv10)
    requires Times(n, a) == Times(n, b)
    ensures a == b
  {
    hide Xor, Times;
    TimesLinear(n, a, b);
    XorZero(Times(n, a), Times(n, b));
    TimesNonzero(n, Xor(a, b));
    XorZero(a, b);
  }

  lemma {:induction false} TimesAdd(m: nat, n: nat, v: bv10)
    ensures Times(m + n, v) == Times(m, Times(n, v))
  {
    hide TimesE;
    if m > 0 { TimesAdd(m - 1, n, v); }
  }

  // ----- Powers of `e` as elements -----

  lemma {:induction false} HalvesX(v: bv10)
    ensures High(TimesX(v)) == TimesX(High(v)) && Low(TimesX(v)) == TimesX(Low(v))
    ensures v < 32 ==> TimesX(v) < 32 && Raise(TimesX(v)) == TimesX(Raise(v))
    ensures High(v) < 32 && Low(v) < 32
  {
  }

  lemma {:induction false} XorSmall(a: bv10, b: bv10)
    requires a < 32 && b < 32
    ensures Xor(a, b) < 32
  {
  }

  lemma {:induction false} NineX(v: bv10)
    ensures Times9(TimesX(v)) == TimesX(Times9(v))
    ensures v < 32 ==> Times9(v) < 32
  {
    hide Xor, TimesX;
    var x3 := TimesX(TimesX(TimesX(v)));
    XLinear(v, x3);
    if v < 32 {
      HalvesX(v);
      HalvesX(TimesX(v));
      HalvesX(TimesX(TimesX(v)));
      XorSmall(v, x3);
    }
  }

  lemma {:induction false} TwentyThreeX(v: bv10)
    ensures Times23(TimesX(v)) == TimesX(Times23(v))
  {
    hide Xor, TimesX;
    var x := TimesX(v);
    var x2 := TimesX(x);
    var x4 := TimesX(TimesX(x2));
    XLinear(v, x);
    XLinear(x2, x4);
    XLinear(Xor(v, x), Xor(x2, x4));
  }

  lemma {:induction false} EThenX(v: bv10)
    ensures TimesE(TimesX(v)) == TimesX(TimesE(v))
  {
    hide Xor, TimesX, Times9, Times23, High, Low, Raise;
    HalvesX(v);
    NineX(High(v));
    TwentyThreeX(High(v));
    var p := Xor(Times9(High(v)), Low(v));
    XorSmall(Times9(High(v)), Low(v));
    XLinear(Times9(High(v)), Low(v));
    HalvesX(p);
    XLinear(Raise(p), Times23(High(v)));
  }

  lemma {:induction false} TimesOfX(n: nat, v: bv10)
    ensures Times(n, TimesX(v)) == TimesX(Times(n, v))
  {
    hide TimesE, TimesX;
    if n > 0 {
      TimesOfX(n - 1, v);
      EThenX(Times(n - 1, v));
    }
  }

  lemma {:induction false} TimesOfE(n: nat, v: bv10)
    ensures Times(n, TimesE(v)) == TimesE(Times(n, v))
  {
    hide TimesE;
    if n > 0 { TimesOfE(n - 1, v); }
  }

  lemma {:induction false} TimesOfBit(n: nat, v: bv10, bit: bv10, m: bv10)
    ensures Times(n, Bit(v, bit, m)) == Bit(v, bit, Times(n, m))
  {
    TimesNonzero(n, 0);
  }

  lemma {:induction false} TimesOfScale(n: nat, a: bv10, v: bv10)
    ensures Times(n, Scale(a, v)) == Scale(Times(n, a), v)
  {
    hide Times, TimesX, Xor, Bit;
    var x := TimesX(a);
    var x2 := TimesX(x);
    var x3 := TimesX(x2);
    TimesOfX(n, a);
    TimesOfX(n, x);
    TimesOfX(n, x2);
    TimesOfX(n, x3);
    var b0, b1, b2, b3, b4 := Bit(v, 1, a), Bit(v, 2, x), Bit(v, 4, x2), Bit(v, 8, x3), Bit(v, 16, TimesX(x3));
    TimesOfBit(n, v, 1, a);
    TimesOfBit(n, v, 2, x);
    TimesOfBit(n, v, 4, x2);
    TimesOfBit(n, v, 8, x3);
    TimesOfBit(n, v, 16, TimesX(x3));
    TimesLinear(n, b0, b1);
    TimesLinear(n, Xor(b0, b1), b2);
    TimesLinear(n, Xor(Xor(b0, b1), b2), b3);
    TimesLinear(n, Xor(Xor(Xor(b0, b1), b2), b3), b4);
  }

  lemma {:induction false} MulOne(v: bv10)
    ensures Mul(1, v) == v
  {
  }

  /** Multiplying by the `n`-th power of `e` is multiplying by an element of the field. */
  lemma {:induction false} TimesIsMul(n: nat, v: bv10)
    ensures Times(n, v) == Mul(Power(n), v)
  {
    hide Times, TimesE, Scale, Xor, High;
    MulOne(v);
    TimesOfScale(n, 1, v);
    TimesOfScale(n, TimesE(1), High(v));
    TimesLinear(n, Scale(1, v), Scale(TimesE(1), High(v)));
    TimesOfE(n, 1);
  }

  lemma {:induction false} PowerAdd(m: nat, n: nat)
    ensures Power(m + n) == Mul(Power(m), Power(n))
  {
    hide Times, Mul;
    TimesAdd(m, n, 1);
    TimesIsMul(m, Power(n));
  }

  lemma {:induction false} BitLinear(v: bv10, bit: bv10, m: bv10, n: bv10)
    ensures Bit(v, bit, Xor(m, n)) == Xor(Bit(v, bit, m), Bit(v, bit, n))
  {
    XorZero(0, 0);
  }

  lemma {:induction false} ScaleLinear(a: bv10, b: bv10, v: bv10)
    ensures Scale(Xor(a, b), v) == Xor(Scale(a, v), Scale(b, v))
  {
    hide TimesX, Xor, Bit;
    var a1, b1 := TimesX(a), TimesX(b);
    var a2, b2 := TimesX(a1), TimesX(b1);
    var a3, b3 := TimesX(a2), TimesX(b2);
    var a4, b4 := TimesX(a3), TimesX(b3);
    XLinear(a, b);
    XLinear(a1, b1);
    XLinear(a2, b2);
    XLinear(a3, b3);
    BitLinear(v, 1, a, b);
    BitLinear(v, 2, a1, b1);
    BitLinear(v, 4, a2, b2);
    BitLinear(v, 8, a3, b3);
    BitLinear(v, 16, a4, b4);
    var p0, p1, p2, p3, p4 := Bit(v, 1, a), Bit(v, 2, a1), Bit(v, 4, a2), Bit(v, 8, a3), Bit(v, 16, a4);
    var q0, q1, q2, q3, q4 := Bit(v, 1, b), Bit(v, 2, b1), Bit(v, 4, b2), Bit(v, 8, b3), Bit(v, 16, b4);
    Shuffle(p0, q0, p1, q1);
    Shuffle(Xor(p0, p1), Xor(q0, q1), p2, q2);
    Shuffle(Xor(Xor(p0, p1), p2), Xor(Xor(q0, q1), q2), p3, q3);
    Shuffle(Xor(Xor(Xor(p0, p1), p2), p3), Xor(Xor(Xor(q0, q1), q2), q3), p4, q4);
  }

  lemma {:induction false} MulLinear(a: bv10, b: bv10, v: bv10)
    ensures Mul(Xor(a, b), v) == Xor(Mul(a, v), Mul(b, v))
  {
    hide TimesE, Xor, Scale, High;
    ELinear(a, b);
    ScaleLinear(a, b, v);
    ScaleLinear(TimesE(a), TimesE(b), High(v));
    Shuffle(Scale(a, v), Scale(b, v), Scale(TimesE(a), High(v)), Scale(TimesE(b), High(v)));
  }

  /** A product, put together from the multiples of `a` and of `b`, which is `a` times `e`. */
  lemma {:induction false} ProductIs(v: bv10, a: bv10, x: bv10, x2: bv10, x3: bv10, x4: bv10,
                                     b: bv10, y: bv10, y2: bv10, y3: bv10, y4: bv10)
    requires TimesX(a) == x && TimesX(x) == x2 && TimesX(x2) == x3 && TimesX(x3) == x4 && TimesE(a) == b
    requires TimesX(b) == y && TimesX(y) == y2 && TimesX(y2) == y3 && TimesX(y3) == y4
    ensures Mul(a, v) == Select(v, a, x, x2, x3, x4) ^ Select(v >> 5, b, y, y2, y3, y4)
  {
    hide TimesE, TimesX, Select;
  }

  // ----- The order of `e` -----

  lemma {:induction false} OnePower()
    ensures Power(0) == 1 && Power(1) == 0x020
  {
    assert Times(0, 1) == 1;
  }

  /** Powers of `e` with the exponents that are needed, by squaring and multiplying. */
  lemma {:induction false} Squares()
    ensures Power(2) == 0x137 && Power(4) == 0x0ce && Power(8) == 0x219 && Power(16) == 0x2a3
    ensures Power(32) == 0x029
  {
    hide Times, Mul;
    OnePower();
    PowerAdd(1, 1);
    PowerAdd(2, 2);
    PowerAdd(4, 4);
    PowerAdd(8, 8);
    PowerAdd(16, 16);
    SquaresProducts();
    SquaresLastProducts();
  }

  lemma {:induction false} SquaresProducts()
    ensures Mul(0x020, 0x020) == 0x137 && Mul(0x137, 0x137) == 0x0ce && Mul(0x0ce, 0x0ce) == 0x219
  {
    hide Mul;
    ProductIs(0x020, 0x020, 0x040, 0x080, 0x100, 0x200,
              0x137, 0x247, 0x1ae, 0x35c, 0x3b1);
    ProductIs(0x137, 0x137, 0x247, 0x1ae, 0x35c, 0x3b1,
              0x08b, 0x116, 0x205, 0x12a, 0x254);
    ProductIs(0x0ce, 0x0ce, 0x19c, 0x311, 0x32b, 0x376,
              0x229, 0x172, 0x2cd, 0x0ba, 0x15d);
  }

  lemma {:induction false} SquaresLastProducts()
    ensures Mul(0x219, 0x219) == 0x2a3 && Mul(0x2a3, 0x2a3) == 0x029
  {
    hide Mul;
    ProductIs(0x219, 0x219, 0x13b, 0x25f, 0x1b7, 0x347,
              0x091, 0x10b, 0x216, 0x125, 0x24a);
    ProductIs(0x2a3, 0x2a3, 0x066, 0x0cc, 0x198, 0x319,
              0x348, 0x3b0, 0x269, 0x1f2, 0x3cd);
  }

  lemma {:induction false} MoreSquares()
    ensures Power(64) == 0x124 && Power(128) == 0x0d1 && Power(256) == 0x204 && Power(512) == 0x2ba
  {
    hide Times, Mul;
    Squares();
    PowerAdd(32, 32);
    PowerAdd(64, 64);
    PowerAdd(128, 128);
    PowerAdd(256, 256);
    MoreSquaresProducts();
    MoreSquaresLastProducts();
  }

  lemma {:induction false} MoreSquaresProducts()
    ensures Mul(0x029, 0x029) == 0x124 && Mul(0x124, 0x124) == 0x0d1 && Mul(0x0d1, 0x0d1) == 0x204
  {
    hide Mul;
    ProductIs(0x029, 0x029, 0x052, 0x08d, 0x11a, 0x21d,
              0x017, 0x007, 0x00e, 0x01c, 0x011);
    ProductIs(0x124, 0x124, 0x248, 0x1b0, 0x349, 0x3b2,
              0x2eb, 0x0f6, 0x1c5, 0x38a, 0x234);
    ProductIs(0x0d1, 0x0d1, 0x18b, 0x316, 0x325, 0x36a,
              0x1c9, 0x392, 0x22d, 0x17a, 0x2dd);
  }

  lemma {:induction false} MoreSquaresLastProducts()
    ensures Mul(0x204, 0x204) == 0x2ba
  {
    hide Mul;
    ProductIs(0x204, 0x204, 0x128, 0x250, 0x1a9, 0x352,
              0x331, 0x36b, 0x3f6, 0x2e5, 0x0ea);
  }

  lemma {:induction false} Powers33()
    ensures Power(33) == 0x017 && Power(35) == 0x16f && Power(51) == 0x29b && Power(115) == 0x066
    ensures Power(627) == 0x016
  {
    hide Times, Mul;
    OnePower();
    Squares();
    MoreSquares();
    PowerAdd(32, 1);
    PowerAdd(2, 33);
    PowerAdd(16, 35);
    PowerAdd(64, 51);
    PowerAdd(512, 115);
    Powers33Products();
    Powers33LastProducts();
  }

  lemma {:induction false} Powers33Products()
    ensures Mul(0x029, 0x020) == 0x017 && Mul(0x137, 0x017) == 0x16f && Mul(0x2a3, 0x16f) == 0x29b
  {
    hide Mul;
    ProductIs(0x020, 0x029, 0x052, 0x08d, 0x11a, 0x21d,
              0x017, 0x007, 0x00e, 0x01c, 0x011);
    ProductIs(0x017, 0x137, 0x247, 0x1ae, 0x35c, 0x3b1,
              0x08b, 0x116, 0x205, 0x12a, 0x254);
    ProductIs(0x16f, 0x2a3, 0x066, 0x0cc, 0x198, 0x319,
              0x348, 0x3b0, 0x269, 0x1f2, 0x3cd);
  }

  lemma {:induction false} Powers33LastProducts()
    ensures Mul(0x124, 0x29b) == 0x066 && Mul(0x2ba, 0x066) == 0x016
  {
    hide Mul;
    ProductIs(0x29b, 0x124, 0x248, 0x1b0, 0x349, 0x3b2,
              0x2eb, 0x0f6, 0x1c5, 0x38a, 0x234);
    ProductIs(0x066, 0x2ba, 0x07d, 0x0d3, 0x18f, 0x31e,
              0x068, 0x0d0, 0x189, 0x312, 0x32d);
  }

  lemma {:induction false} Powers93()
    ensures Power(5) == 0x229 && Power(13) == 0x175 && Power(29) == 0x07c && Power(93) == 0x356
  {
    hide Times, Mul;
    OnePower();
    Squares();
    MoreSquares();
    PowerAdd(4, 1);
    PowerAdd(8, 5);
    PowerAdd(16, 13);
    PowerAdd(64, 29);
    Powers93Products();
    Powers93LastProducts();
  }

  lemma {:induction false} Powers93Products()
    ensures Mul(0x0ce, 0x020) == 0x229 && Mul(0x219, 0x229) == 0x175 && Mul(0x2a3, 0x175) == 0x07c
  {
    hide Mul;
    ProductIs(0x020, 0x0ce, 0x19c, 0x311, 0x32b, 0x376,
              0x229, 0x172, 0x2cd, 0x0ba, 0x15d);
    ProductIs(0x229, 0x219, 0x13b, 0x25f, 0x1b7, 0x347,
              0x091, 0x10b, 0x216, 0x125, 0x24a);
    ProductIs(0x175, 0x2a3, 0x066, 0x0cc, 0x198, 0x319,
              0x348, 0x3b0, 0x269, 0x1f2, 0x3cd);
  }

  lemma {:induction false} Powers93LastProducts()
    ensures Mul(0x124, 0x07c) == 0x356
  {
    hide Mul;
    ProductIs(0x07c, 0x124, 0x248, 0x1b0, 0x349, 0x3b2,
              0x2eb, 0x0f6, 0x1c5, 0x38a, 0x234);
  }

  lemma {:induction false} Powers690()
    ensures Power(18) == 0x3aa && Power(50) == 0x15c && Power(178) == 0x1b1 && Power(690) == 0x357
  {
    hide Times, Mul;
    Squares();
    MoreSquares();
    PowerAdd(16, 2);
    PowerAdd(32, 18);
    PowerAdd(128, 50);
    PowerAdd(512, 178);
    Powers690Products();
    Powers690LastProducts();
  }

  lemma {:induction false} Powers690Products()
    ensures Mul(0x2a3, 0x137) == 0x3aa && Mul(0x029, 0x3aa) == 0x15c && Mul(0x0d1, 0x15c) == 0x1b1
  {
    hide Mul;
    ProductIs(0x137, 0x2a3, 0x066, 0x0cc, 0x198, 0x319,
              0x348, 0x3b0, 0x269, 0x1f2, 0x3cd);
    ProductIs(0x3aa, 0x029, 0x052, 0x08d, 0x11a, 0x21d,
              0x017, 0x007, 0x00e, 0x01c, 0x011);
    ProductIs(0x15c, 0x0d1, 0x18b, 0x316, 0x325, 0x36a,
              0x1c9, 0x392, 0x22d, 0x17a, 0x2dd);
  }

  lemma {:induction false} Powers690LastProducts()
    ensures Mul(0x2ba, 0x1b1) == 0x357
  {
    hide Mul;
    ProductIs(0x1b1, 0x2ba, 0x07d, 0x0d3, 0x18f, 0x31e,
              0x068, 0x0d0, 0x189, 0x312, 0x32d);
  }

  lemma {:induction false} Powers485()
    ensures Power(37) == 0x135 && Power(101) == 0x247 && Power(229) == 0x303 && Power(485) == 0x123
  {
    hide Times, Mul;
    Squares();
    MoreSquares();
    Powers93();
    PowerAdd(32, 5);
    PowerAdd(64, 37);
    PowerAdd(128, 101);
    PowerAdd(256, 229);
    Powers485Products();
    Powers485LastProducts();
  }

  lemma {:induction false} Powers485Products()
    ensures Mul(0x029, 0x229) == 0x135 && Mul(0x124, 0x135) == 0x247 && Mul(0x0d1, 0x247) == 0x303
  {
    hide Mul;
    ProductIs(0x229, 0x029, 0x052, 0x08d, 0x11a, 0x21d,
              0x017, 0x007, 0x00e, 0x01c, 0x011);
    ProductIs(0x135, 0x124, 0x248, 0x1b0, 0x349, 0x3b2,
              0x2eb, 0x0f6, 0x1c5, 0x38a, 0x234);
    ProductIs(0x247, 0x0d1, 0x18b, 0x316, 0x325, 0x36a,
              0x1c9, 0x392, 0x22d, 0x17a, 0x2dd);
  }

  lemma {:induction false} Powers485LastProducts()
    ensures Mul(0x204, 0x303) == 0x123
  {
    hide Mul;
    ProductIs(0x303, 0x204, 0x128, 0x250, 0x1a9, 0x352,
              0x331, 0x36b, 0x3f6, 0x2e5, 0x0ea);
  }

  /** The three powers that are roots of the generator. */
  lemma {:induction false} Powers997()
    ensures Power(997) == 0x1bd && Power(998) == 0x065 && Power(999) == 0x3d0
  {
    hide Times, Mul;
    OnePower();
    Squares();
    MoreSquares();
    Powers485();
    PowerAdd(512, 485);
    PowerAdd(1, 997);
    PowerAdd(1, 998);
    Powers997Products();
  }

  lemma {:induction false} Powers997Products()
    ensures Mul(0x2ba, 0x123) == 0x1bd && Mul(0x020, 0x1bd) == 0x065 && Mul(0x020, 0x065) == 0x3d0
  {
    hide Mul;
    ProductIs(0x123, 0x2ba, 0x07d, 0x0d3, 0x18f, 0x31e,
              0x068, 0x0d0, 0x189, 0x312, 0x32d);
    ProductIs(0x1bd, 0x020, 0x040, 0x080, 0x100, 0x200,
              0x137, 0x247, 0x1ae, 0x35c, 0x3b1);
    ProductIs(0x065, 0x020, 0x040, 0x080, 0x100, 0x200,
              0x137, 0x247, 0x1ae, 0x35c, 0x3b1);
  }

  lemma {:induction false} Powers341()
    ensures Power(21) == 0x3be && Power(85) == 0x193 && Power(341) == 0x16d && Power(682) == 0x16c
    ensures Power(1023) == 0x001
  {
    hide Times, Mul;
    OnePower();
    Squares();
    MoreSquares();
    Powers93();
    PowerAdd(16, 5);
    PowerAdd(64, 21);
    PowerAdd(256, 85);
    PowerAdd(341, 341);
    PowerAdd(682, 341);
    Powers341Products();
    Powers341LastProducts();
  }

  lemma {:induction false} Powers341Products()
    ensures Mul(0x2a3, 0x229) == 0x3be && Mul(0x124, 0x3be) == 0x193 && Mul(0x204, 0x193) == 0x16d
  {
    hide Mul;
    ProductIs(0x229, 0x2a3, 0x066, 0x0cc, 0x198, 0x319,
              0x348, 0x3b0, 0x269, 0x1f2, 0x3cd);
    ProductIs(0x3be, 0x124, 0x248, 0x1b0, 0x349, 0x3b2,
              0x2eb, 0x0f6, 0x1c5, 0x38a, 0x234);
    ProductIs(0x193, 0x204, 0x128, 0x250, 0x1a9, 0x352,
              0x331, 0x36b, 0x3f6, 0x2e5, 0x0ea);
  }

  lemma {:induction false} Powers341LastProducts()
    ensures Mul(0x16d, 0x16d) == 0x16c && Mul(0x16c, 0x16d) == 0x001
  {
    hide Mul;
    ProductIs(0x16d, 0x16d, 0x2da, 0x0bd, 0x153, 0x28f,
              0x18c, 0x318, 0x339, 0x37b, 0x3ff);
    ProductIs(0x16d, 0x16c, 0x2d8, 0x0b9, 0x15b, 0x29f,
              0x1ac, 0x358, 0x3b9, 0x27b, 0x1ff);
  }

  /** An element that `e^n` leaves alone is annihilated by `e^n + 1`, which is a power of `e` again. */
  lemma {:induction false} NotFixed(n: nat, m: nat, v: bv10)
    requires Times(n, v) == v && Xor(Power(n), 1) == Power(m)
    ensures v == 0
  {
    hide Times, Mul, Xor;
    TimesIsMul(n, v);
    TimesIsMul(m, v);
    MulLinear(Power(n), 1, v);
    MulOne(v);
    XorZero(v, v);
    TimesNonzero(m, v);
  }

  lemma {:induction false} NotFixedByParts(v: bv10)
    ensures Times(341, v) == v || Times(93, v) == v || Times(33, v) == v ==> v == 0
  {
    hide Times;
    Powers341();
    Powers33();
    Powers93();
    Powers690();
    if Times(341, v) == v { NotFixed(341, 682, v); }
    if Times(93, v) == v { NotFixed(93, 690, v); }
    if Times(33, v) == v { NotFixed(33, 627, v); }
  }

  /** Multiplying 1023 times changes nothing. */
  lemma {:induction false} FullCycle(v: bv10)
    ensures Times(1023, v) == v
  {
    hide Times, Mul;
    Powers341();
    TimesIsMul(1023, v);
    MulOne(v);
  }

  lemma {:induction false} FixedDifference(a: nat, b: nat, v: bv10)
    requires Times(a, v) == v
    ensures Times(a + b, v) == Times(b, v)
  {
    TimesAdd(b, a, v);
    assert a + b == b + a;
  }

  lemma {:induction false} FixedMultiple(a: nat, k: nat, v: bv10)
    requires Times(a, v) == v
    ensures Times(a * k, v) == v
  {
    hide TimesE;
    if k == 0 {
      assert a * k == 0;
    } else {
      FixedMultiple(a, k - 1, v);
      assert a * k == a + a * (k - 1);
      FixedDifference(a, a * (k - 1), v);
    }
  }

  predicate Prime(p: nat) { p == 3 || p == 11 || p == 31 }

  lemma {:induction false} NoDivisor(p: nat, r: nat)
    requires Prime(p) && 1 < r < p
    ensures p % r != 0
  {
    var q := p / r;
    assert p % r == p - q * r;
    if r > 5 {
      assert 1 <= q <= 5;
      if q == 1 { } else if q == 2 { } else if q == 3 { } else if q == 4 { } else { }
    }
  }

  /** An element fixed by `n * r` and by `n * p` multiplications, for a prime `p` above `r`, is fixed by `n`. */
  lemma {:induction false} FixedByOne(n: nat, p: nat, r: nat, v: bv10)
    requires Prime(p) && 0 < r < p && Times(n * r, v) == v && Times(n * p, v) == v
    ensures Times(n, v) == v
    decreases r
  {
    hide Times;
    if r == 1 {
      assert n * r == n;
    } else {
      var q, k := p / r, p % r;
      NoDivisor(p, r);
      FixedMultiple(n * r, q, v);
      DivideBoth(n, p, r, q, k);
      FixedDifference(n * r * q, n * k, v);
      FixedByOne(n, p, k, v);
    }
  }

  lemma {:induction false} DivideBoth(n: nat, p: nat, r: nat, q: nat, k: nat)
    requires p == r * q + k
    ensures n * p == n * r * q + n * k
  {
    var x := r * q;
    assert n * (x + k) == n * x + n * k;
    assert n * (r * q) == n * r * q;
  }

  lemma {:induction false} FixedByPart(n: nat, p: nat, d: nat, v: bv10)
    requires Prime(p) && n * p == 1023 && d % p != 0 && Times(d, v) == v
    ensures Times(n, v) == v
  {
    hide Times;
    var q, r := d / p, d % p;
    FixedMultiple(d, n, v);
    FullCycle(v);
    FixedMultiple(1023, q, v);
    DivideBoth(n, d, p, q, r);
    assert d * n == n * d && n * p * q == 1023 * q;
    FixedDifference(1023 * q, n * r, v);
    FixedByOne(n, p, r, v);
  }

  /** `e` is primitive: no nonzero element comes back before 1023 multiplications. */
  lemma {:induction false} Primitive(d: nat, v: bv10)
    requires 0 < d < 1023 && v != 0
    ensures Times(d, v) != v
  {
    hide Times;
    if Times(d, v) == v {
      NotFixedByParts(v);
      if d % 3 != 0 {
        FixedByPart(341, 3, d, v);
      } else if d % 11 != 0 {
        FixedByPart(93, 11, d, v);
      } else {
        assert d % 31 != 0;
        FixedByPart(33, 31, d, v);
      }
    }
  }
}
