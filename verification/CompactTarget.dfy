/** The 32-bit "compact" encoding of proof-of-work targets (src/arith_uint256.cpp) and the work a
    target stands for (GetBlockProof in src/chain.cpp).
 */
module CompactTarget {
  import opened Powers
  import opened Limbs
  import opened ArithUint256

  const SIGN: nat := 0x80_0000
  const EXPONENT: nat := 0x100_0000
  const WIDTH: nat := 8
  const LIMIT: nat := Weight(WIDTH)  // 2^256

  // ----- Reading a compact number -----

  function Size(c: nat): nat { c / EXPONENT }

  function Mantissa(c: nat): nat { c % SIGN }

  predicate Signed(c: nat) { (c / SIGN) % 2 == 1 }

  /** `256^k` as a shift by `8 * k` bits. */
  function Bytes(k: nat): (r: nat)
    ensures r > 0
  {
    Pow2Positive(8 * k);
    Pow2(8 * k)
  }

  function Word(c: nat): nat {
    if Size(c) <= 3 then Floor(Mantissa(c), Bytes(3 - Size(c))) else Mantissa(c)
  }

  /** The number a compact encoding stands for, before it is cut to 256 bits. */
  function Meaning(c: nat): nat {
    if Size(c) <= 3 then Word(c) else Word(c) * Bytes(Size(c) - 3)
  }

  predicate Negative(c: nat) { Word(c) != 0 && Signed(c) }

  predicate Overflows(c: nat) {
    Word(c) != 0 && (Size(c) > 34 || (Word(c) > 0xff && Size(c) > 33) || (Word(c) > 0xffff && Size(c) > 32))
  }

  lemma {:induction false} BytesAdd(m: nat, n: nat)
    ensures Bytes(m + n) == Bytes(m) * Bytes(n)
  {
    Pow2Add(8 * m, 8 * n);
  }

  lemma {:induction false} BytesMonotone(m: nat, n: nat)
    requires m <= n
    ensures Bytes(m) <= Bytes(n)
  {
    Pow2Monotone(8 * m, 8 * n);
  }

  lemma {:induction false} SmallBytes()
    ensures Bytes(0) == 1 && Bytes(1) == 0x100 && Bytes(2) == 0x1_0000 && Bytes(3) == EXPONENT
    ensures Bytes(32) == LIMIT
  {
    Pow2Of32();
    BytesAdd(1, 2);
    WeightIsPow2(8);
  }

  lemma {:induction false} ScaledAtLeast(w: nat, k: nat, j: nat)
    requires Bytes(k) <= w && k + j >= 32
    ensures w * Bytes(j) >= LIMIT
  {
    hide Bytes;
    MulMonotone(Bytes(k), w, Bytes(j), Bytes(j));
    BytesAdd(k, j);
    BytesMonotone(32, k + j);
    SmallBytes();
  }

  lemma {:induction false} ScaledBelow(w: nat, k: nat, j: nat)
    requires w < Bytes(k) && k + j <= 32
    ensures w * Bytes(j) < LIMIT
  {
    hide Bytes;
    MulMonotone(w + 1, Bytes(k), Bytes(j), Bytes(j));
    assert (w + 1) * Bytes(j) == w * Bytes(j) + Bytes(j);
    BytesAdd(k, j);
    BytesMonotone(k + j, 32);
    SmallBytes();
  }

  lemma {:induction false} WordBelow(c: nat)
    ensures Word(c) < SIGN
  {
    if Size(c) <= 3 { QuotientAtMost(Mantissa(c), Bytes(3 - Size(c))); }
  }

  /** The overflow flag says exactly that the encoded number does not fit 256 bits. */
  lemma {:induction false} OverflowIsExact(c: nat)
    ensures Overflows(c) <==> Meaning(c) >= LIMIT
  {
    WordBelow(c);
    SmallBytes();
    var w, s := Word(c), Size(c);
    hide Bytes, Word;
    if s <= 3 {
      ScaledBelow(w, 3, 0);
    } else if w == 0 {
      ScaledBelow(w, 0, 0);
    } else if s > 34 {
      ScaledAtLeast(w, 0, s - 3);
    } else if s == 34 {
      if w > 0xff { ScaledAtLeast(w, 1, 31); } else { ScaledBelow(w, 1, 31); }
    } else if s == 33 {
      if w > 0xffff { ScaledAtLeast(w, 2, 30); } else { ScaledBelow(w, 2, 30); }
    } else {
      ScaledBelow(w, 3, s - 3);
    }
  }

  // ----- Writing a compact number -----

  function BitLen(x: nat): nat { if x == 0 then 0 else 1 + BitLen(x / 2) }

  lemma {:induction false} BitLenIs(x: nat)
    ensures BitLength(x, BitLen(x))
  {
    if x > 0 { BitLenIs(x / 2); }
  }

  lemma {:induction false} BitLengthMonotone(x: nat, r: nat, y: nat, t: nat)
    requires BitLength(x, r) && BitLength(y, t) && x <= y
    ensures r <= t
  {
    if t < r { Pow2Monotone(t, r - 1); }
  }

  lemma {:induction false} BitLengthUnique(x: nat, r: nat)
    requires BitLength(x, r)
    ensures r == BitLen(x)
  {
    BitLenIs(x);
    BitLengthMonotone(x, r, x, BitLen(x));
    BitLengthMonotone(x, BitLen(x), x, r);
  }

  /** The exponent byte leaves the sign bit of the mantissa free. */
  function Exponent(x: nat): nat { if x == 0 then 0 else BitLen(x) / 8 + 1 }

  function Significand(x: nat): nat {
    var s := Exponent(x);
    if s <= 3 then x * Bytes(3 - s) else Floor(x, Bytes(s - 3))
  }

  function Compact(x: nat, negative: bool): nat {
    Exponent(x) * EXPONENT + Significand(x) + if negative && x > 0 then SIGN else 0
  }

  lemma {:induction false} BytesTimesBits(k: nat, b: nat)
    ensures Bytes(k) * Pow2(b) == Pow2(8 * k + b)
  {
    Pow2Add(8 * k, b);
  }

  lemma {:induction false} SmallBits()
    ensures Pow2(15) == 0x8000 && Pow2(23) == SIGN && Pow2(7) == 0x80 && Pow2(31) == 0x8000_0000
  {
    Pow2Of32();
    Pow2Add(7, 8);
    Pow2Add(7, 16);
    Pow2Add(15, 16);
  }

  /** A number has exponent `s` exactly when it lies between `2^(8s - 9)` and `2^(8s - 1)`. */
  lemma {:induction false} ExponentRange(x: nat)
    requires x > 0
    ensures var s := Exponent(x);
            s >= 1 && x < Pow2(8 * s - 1) && (if s >= 2 then Pow2(8 * s - 9) <= x else 1 <= x)
  {
    BitLenIs(x);
    var b, s := BitLen(x), Exponent(x);
    Pow2Monotone(b, 8 * s - 1);
    if s >= 2 { Pow2Monotone(8 * s - 9, b - 1); }
  }

  lemma {:induction false} ExponentIs(x: nat, s: nat)
    requires x > 0 && s >= 1 && x < Pow2(8 * s - 1) && (s >= 2 ==> Pow2(8 * s - 9) <= x)
    ensures Exponent(x) == s
  {
    BitLenIs(x);
    var b := BitLen(x);
    if b >= 8 * s { Pow2Monotone(8 * s - 1, b - 1); }
    if b < 8 * s - 8 { Pow2Monotone(b, 8 * s - 9); }
  }

  lemma {:induction false} SignificandSmall(x: nat)
    requires x > 0 && Exponent(x) <= 3
    ensures 0x8000 <= Significand(x) < SIGN
  {
    var s := Exponent(x);
    ExponentRange(x);
    SmallBits();
    SmallBytes();
    Pow2Of32();
  }

  lemma {:induction false} SignificandLarge(x: nat)
    requires x > 0 && Exponent(x) > 3
    ensures 0x8000 <= Significand(x) < SIGN
  {
    hide Pow2, Bytes;
    var s := Exponent(x);
    ExponentRange(x);
    SmallBits();
    BytesTimesBits(s - 3, 15);
    BytesTimesBits(s - 3, 23);
    DivAtLeast(x, Bytes(s - 3), 0x8000);
    DivAtMost(x, Bytes(s - 3), SIGN - 1);
  }

  lemma {:induction false} SignificandRange(x: nat)
    requires x > 0
    ensures 0x8000 <= Significand(x) < SIGN
  {
    if Exponent(x) <= 3 { SignificandSmall(x); } else { SignificandLarge(x); }
  }

  /** The fields of a compact number are found again. */
  lemma {:induction false} Fields(s: nat, m: nat, sign: bool)
    requires m < SIGN
    ensures var c := s * EXPONENT + m + if sign then SIGN else 0;
            Size(c) == s && Mantissa(c) == m && Signed(c) == sign
  {
    var c := s * EXPONENT + m + if sign then SIGN else 0;
    DivIs(c, EXPONENT, s, m + if sign then SIGN else 0);
    DivIs(c, SIGN, 2 * s + if sign then 1 else 0, m);
  }

  lemma {:induction false} BytesArePowers(k: nat)
    ensures Bytes(k) == Pow(256, k)
  {
    SmallBytes();
    PowPow(2, 8, k);
    hide Pow;
  }

  /** The encoded number in the words of the format: a size byte, a sign bit and 23 bits of mantissa. */
  lemma {:induction false} MeaningIs(size: nat, sign: bool, m: nat)
    requires m < 0x80_0000
    ensures var c := size * 0x100_0000 + m + if sign then 0x80_0000 else 0;
            && Signed(c) == sign
            && (size <= 3 ==> Pow(256, 3 - size) > 0 && Meaning(c) == m / Pow(256, 3 - size))
            && (size > 3 ==> Meaning(c) == m * Pow(256, size - 3))
  {
    BytesArePowers(if size <= 3 then 3 - size else size - 3);
    Fields(size, m, sign);
    hide Size, Mantissa, Signed, Bytes, Pow;
  }

  // ----- The laws -----

  lemma {:induction false} ExactBelowThree(x: nat)
    requires Exponent(x) <= 3
    ensures Significand(x) / Bytes(3 - Exponent(x)) == x
  {
    hide Bytes;
    var p := Bytes(3 - Exponent(x));
    DivIs(x * p, p, x, 0);
  }

  lemma {:induction false} RoundingError(x: nat, m: nat, p: nat)
    requires p > 0 && m == x / p && m >= 0x8000
    ensures m * p <= x && (x - m * p) * 0x8000 <= x
  {
    DivBounds(x, p);
    MulMonotone(0x8000, m, p, p);
  }

  /** Encoding a target and reading it back never raises it, and lowers it by at most one part in 2^15. */
  lemma {:induction false} ReadBack(x: nat)
    requires x < LIMIT
    ensures var c := Compact(x, false);
            !Negative(c) && !Overflows(c) && Meaning(c) <= x && (x - Meaning(c)) * 0x8000 <= x
  {
    hide Bytes, Significand, Exponent;
    var s, m, c := Exponent(x), Significand(x), Compact(x, false);
    if x == 0 {
      NoExponent();
      Fields(0, 0, false);
      ZeroWord(c);
    } else {
      SignificandRange(x);
      Fields(s, m, false);
      if s <= 3 {
        ExactBelowThree(x);
      } else {
        SignificandIs(x);
        RoundingError(x, m, Bytes(s - 3));
      }
    }
    OverflowIsExact(c);
  }

  lemma {:induction false} NoExponent()
    ensures Exponent(0) == 0 && Significand(0) == 0 && Compact(0, false) == 0
  {
    assert 0 * Bytes(3) == 0;
  }

  lemma {:induction false} ZeroWord(c: nat)
    requires Mantissa(c) == 0
    ensures Word(c) == 0 && Meaning(c) == 0
  {
    if Size(c) <= 3 { DivIs(0, Bytes(3 - Size(c)), 0, 0); }
  }

  lemma {:induction false} SignificandIs(x: nat)
    requires Exponent(x) > 3
    ensures Significand(x) == x / Bytes(Exponent(x) - 3)
  {
  }

  /** The sign is kept, except that zero has none. */
  lemma {:induction false} SignKept(x: nat, negative: bool)
    requires x < LIMIT
    ensures Negative(Compact(x, negative)) <==> negative && x > 0
    ensures Meaning(Compact(x, negative)) == Meaning(Compact(x, false))
  {
    hide Bytes, Significand, Exponent;
    if x == 0 {
      NoExponent();
      Fields(0, 0, false);
      ZeroWord(0);
    } else {
      SignificandRange(x);
      Fields(Exponent(x), Significand(x), negative);
      Fields(Exponent(x), Significand(x), false);
      if Exponent(x) <= 3 { ExactBelowThree(x); }
    }
  }

  /** Larger targets have larger encodings. */
  lemma {:induction false} CompactMonotone(x: nat, y: nat)
    requires x <= y
    ensures Compact(x, false) <= Compact(y, false)
  {
    if x == 0 {
      NoExponent();
    } else {
      BitLenIs(x);
      BitLenIs(y);
      BitLengthMonotone(x, BitLen(x), y, BitLen(y));
      SignificandRange(x);
      SignificandRange(y);
      if Exponent(x) == Exponent(y) {
        SignificandMonotone(x, y);
      }
    }
  }

  lemma {:induction false} SignificandMonotone(x: nat, y: nat)
    requires x <= y && Exponent(x) == Exponent(y)
    ensures Significand(x) <= Significand(y)
  {
    hide Bytes, Exponent;
    var s := Exponent(x);
    if s <= 3 {
      MulMonotone(x, y, Bytes(3 - s), Bytes(3 - s));
    } else {
      DivMonotone(x, y, Bytes(s - 3));
    }
  }

  /** Zero, or an unsigned encoding with a normalised mantissa whose cut-off bytes are zero. */
  predicate Canonical(c: nat) {
    c == 0 || (&& !Signed(c) && Size(c) >= 1 && Mantissa(c) >= 0x8000
               && (Size(c) <= 3 ==> Mantissa(c) % Bytes(3 - Size(c)) == 0))
  }

  lemma {:induction false} Assemble(c: nat)
    ensures c == Size(c) * EXPONENT + Mantissa(c) + if Signed(c) then SIGN else 0
  {
  }

  lemma {:induction false} CompactIsCanonical(x: nat)
    ensures Canonical(Compact(x, false))
  {
    if x == 0 {
      NoExponent();
    } else {
      SignificandRange(x);
      ExponentRange(x);
      Fields(Exponent(x), Significand(x), false);
      if Exponent(x) <= 3 {
        var p := Bytes(3 - Exponent(x));
        DivIs(x * p, p, x, 0);
      }
    }
  }

  lemma {:induction false} CanonicalSmall(c: nat)
    requires Canonical(c) && c != 0 && Size(c) <= 3
    ensures Exponent(Meaning(c)) == Size(c) && Significand(Meaning(c)) == Mantissa(c)
  {
    var s, m := Size(c), Mantissa(c);
    SmallBits();
    SmallBytes();
    Pow2Of32();
    DivBounds(m, Bytes(3 - s));
    ExponentIs(Meaning(c), s);
  }

  lemma {:induction false} CanonicalLarge(c: nat)
    requires Canonical(c) && c != 0 && Size(c) > 3
    ensures Exponent(Meaning(c)) == Size(c) && Significand(Meaning(c)) == Mantissa(c)
  {
    hide Pow2, Bytes, Exponent;
    var s, m := Size(c), Mantissa(c);
    SmallBits();
    BytesTimesBits(s - 3, 15);
    BytesTimesBits(s - 3, 23);
    MulMonotone(0x8000, m, Bytes(s - 3), Bytes(s - 3));
    MulMonotone(m + 1, SIGN, Bytes(s - 3), Bytes(s - 3));
    assert (m + 1) * Bytes(s - 3) == m * Bytes(s - 3) + Bytes(s - 3);
    Pow2Positive(8 * s - 9);
    ExponentIs(Meaning(c), s);
    DivIs(m * Bytes(s - 3), Bytes(s - 3), m, 0);
  }

  lemma {:induction false} WriteBackUncut(c: nat)
    ensures Compact(Meaning(c), false) == c <==> Canonical(c)
  {
    CompactIsCanonical(Meaning(c));
    if Canonical(c) {
      hide Bytes, Exponent, Significand;
      Assemble(c);
      if c == 0 {
        Fields(0, 0, false);
        ZeroWord(0);
        NoExponent();
      } else if Size(c) <= 3 {
        CanonicalSmall(c);
      } else {
        CanonicalLarge(c);
      }
    }
  }

  /** Reading a compact number into 256 bits and encoding it again gives it back exactly for the canonical
      ones that do not overflow. */
  lemma {:induction false} WriteBack(c: nat)
    ensures Compact(Meaning(c) % LIMIT, false) == c <==> Canonical(c) && !Overflows(c)
  {
    hide Compact, Meaning, Overflows, Canonical;
    WriteBackUncut(c);
    OverflowIsExact(c);
    if Overflows(c) {
      ReadBack(Meaning(c) % LIMIT);
    } else {
      Unwrapped(Meaning(c), LIMIT);
    }
  }

  /** An overflowing number that is canonical otherwise: it is read as 0 and written back as 0. */
  lemma {:induction false} OverflowNotWrittenBack()
    ensures Canonical(0x2300_8000) && Compact(Meaning(0x2300_8000) % LIMIT, false) == 0
  {
    var c := 0x2300_8000;
    assert Size(c) == 35 && Mantissa(c) == 0x8000 && !Signed(c);
    BytesAdd(1, 31);
    BytesAdd(31, 1);
    SmallBytes();
    assert Meaning(c) == 0x8000 * Bytes(32);
    DivIs(0x8000 * LIMIT, LIMIT, 0x8000, 0);
    NoExponent();
  }

  /** A number with a zero leading byte is written back in its shorter form. */
  lemma {:induction false} LongFormNotWrittenBack()
    ensures !Canonical(0x0400_1234) && !Overflows(0x0400_1234)
    ensures Compact(Meaning(0x0400_1234) % LIMIT, false) == 0x0312_3400
  {
    var c, d := 0x0400_1234, 0x0312_3400;
    assert Size(c) == 4 && Mantissa(c) == 0x1234 && Size(d) == 3 && Mantissa(d) == 0x12_3400 && !Signed(d);
    SmallBytes();
    assert Meaning(c) == 0x12_3400 == Meaning(d);
    WriteBack(d);
  }

  // ----- SetCompact -----

  /** Assignment from a 64-bit number. */
  method Assign(pn: array<Limb>, b: nat)
    requires pn.Length >= 2 && b < UINT64_LIMIT
    modifies pn
    ensures Value(pn[..]) == b
  {
    var low: Limb, high: Limb := b % BASE, b / BASE;
    pn[0], pn[1] := low, high;
    forall i | 2 <= i < pn.Length { pn[i] := 0; }
    LowLimbs(pn[..]);
  }

  lemma {:induction false} LowLimbs(s: seq<Limb>)
    requires |s| >= 2 && forall i :: 2 <= i < |s| ==> s[i] == 0
    ensures Value(s) == s[0] as nat + s[1] as nat * BASE
  {
    ValueTail(s, 2);
    ValuePrefix(s, 1);
    ValuePrefix(s, 0);
    WeightNext(0);
    assert s[..0] == [];
    assert Value(s[..0]) == 0;
  }

  lemma {:induction false} BytesAre(k: nat)
    ensures Bytes(k) == Pow2(8 * k)
  {
  }

  lemma {:induction false} FitsLimit(v: nat)
    requires v < SIGN
    ensures v % LIMIT == v
  {
    SmallBytes();
    BytesMonotone(3, 32);
    Unwrapped(v, LIMIT);
  }

  method SetCompact(pn: array<Limb>, nCompact: Limb) returns (negative: bool, overflow: bool)
    requires pn.Length == WIDTH
    modifies pn
    ensures Value(pn[..]) == Meaning(nCompact) % LIMIT
    ensures negative == Negative(nCompact) && overflow == Overflows(nCompact)
  {
    hide Value, Weight, Bytes, Pow2;
    var nSize := nCompact / EXPONENT;
    var nWord: nat := nCompact % SIGN;
    WordBelow(nCompact);
    if nSize <= 3 {
      nWord := nWord / Bytes(3 - nSize);
      Assign(pn, nWord);
      FitsLimit(nWord);
    } else {
      Assign(pn, nWord);
      BytesAre(nSize - 3);
      ShiftLeftAssign(pn, 8 * (nSize - 3));
    }
    negative := nWord != 0 && (nCompact / SIGN) % 2 == 1;
    overflow := nWord != 0 && (nSize > 34 || (nWord > 0xff && nSize > 33) || (nWord > 0xffff && nSize > 32));
  }

  // ----- GetCompact -----

  lemma {:induction false} OrHigh(x: nat, m: nat, k: nat)
    requires x < Pow2(k)
    ensures Or(x, m * Pow2(k)) == x + m * Pow2(k)
  {
    OrDisjoint(m, x, k);
    OrCommutes(x, m * Pow2(k));
  }

  function GetLow64(s: seq<Limb>): nat
    requires |s| >= 2
  {
    Or(s[0], s[1] * BASE)
  }

  /** The low 64 bits. */
  lemma {:induction false} Low64Is(s: seq<Limb>)
    requires |s| >= 2
    ensures Weight(2) == UINT64_LIMIT && GetLow64(s) == Value(s) % UINT64_LIMIT
  {
    Pow2Of32();
    OrHigh(s[0], s[1], 32);
    WeightNext(0);
    WeightNext(1);
    assert s == s[..2] + s[2..];
    LowLimbs(s[..2]);
    hide Value, Weight;
    ValueConcat(s[..2], s[2..]);
    ValueBound(s[..2]);
    DivIs(Value(s), UINT64_LIMIT, Value(s[2..]), Value(s[..2]));
  }

  /** The mantissa the code starts from, before it makes room for the sign bit. */
  function FirstMantissa(x: nat, size: nat): nat {
    if size <= 3 then x * Bytes(3 - size) else Floor(x, Bytes(size - 3))
  }

  lemma {:induction false} DivDiv(x: nat, p: nat, q: nat)
    requires p > 0 && q > 0
    ensures p * q > 0 && (x / p) / q == x / (p * q)
  {
    var m, r := x / p, x % p;
    var k, t := m / q, m % q;
    DivBounds(x, p);
    DivBounds(m, q);
    assert (k * q + t) * p == k * (p * q) + t * p;
    MulMonotone(t + 1, q, p, p);
    assert (t + 1) * p == t * p + p;
    DivIs(x, p * q, k, t * p + r);
  }

  lemma {:induction false} FirstMantissaSmall(x: nat)
    requires x > 0 && (BitLen(x) + 7) / 8 <= 3
    ensures var s := (BitLen(x) + 7) / 8;
            var m := FirstMantissa(x, s);
            && m < EXPONENT
            && (m >= SIGN <==> BitLen(x) % 8 == 0)
            && (m >= SIGN ==> m / 0x100 == FirstMantissa(x, s + 1))
  {
    hide Pow2, Bytes, BitLen;
    var b := BitLen(x);
    var s := (b + 7) / 8;
    BitLenIs(x);
    SmallBytes();
    SmallPowers(x, b);
    NoBits(x, b);
    if s == 1 {
    } else if s == 2 {
    } else {
      assert s == 3;
    }
  }

  lemma {:induction false} SmallPowers(x: nat, b: nat)
    requires BitLength(x, b) && b <= 24
    ensures b <= 8 ==> x < 0x100
    ensures b <= 7 ==> x < 0x80
    ensures b <= 16 ==> x < 0x1_0000
    ensures b <= 15 ==> x < 0x8000
    ensures x < EXPONENT
    ensures b <= 23 ==> x < SIGN
    ensures b >= 8 ==> x >= 0x80
    ensures b >= 16 ==> x >= 0x8000
    ensures b >= 24 ==> x >= SIGN
  {
    SmallBits();
    SmallBytes();
    Pow2Of32();
    Pow2Add(8, 16);
    hide Pow2;
    if b <= 7 { Pow2Monotone(b, 7); }
    if b <= 8 { Pow2Monotone(b, 8); }
    if b <= 15 { Pow2Monotone(b, 15); }
    if b <= 16 { Pow2Monotone(b, 16); }
    if b <= 23 { Pow2Monotone(b, 23); }
    Pow2Monotone(b, 24);
    if b >= 8 { Pow2Monotone(7, b - 1); }
    if b >= 16 { Pow2Monotone(15, b - 1); }
    if b >= 24 { Pow2Monotone(23, b - 1); }
  }

  lemma {:induction false} FirstMantissaLarge(x: nat)
    requires (BitLen(x) + 7) / 8 > 3
    ensures var s := (BitLen(x) + 7) / 8;
            var m := FirstMantissa(x, s);
            && m < EXPONENT
            && (m >= SIGN <==> BitLen(x) % 8 == 0)
            && (m >= SIGN ==> m / 0x100 == FirstMantissa(x, s + 1))
  {
    hide Pow2, Bytes, BitLen;
    var b := BitLen(x);
    var s := (b + 7) / 8;
    var p := Bytes(s - 3);
    BitLenIs(x);
    SmallBits();
    SmallBytes();
    BytesAre(3);
    BytesTimesBits(s - 3, 23);
    BytesTimesBits(s - 3, 24);
    if b % 8 == 0 {
      DivAtLeast(x, p, SIGN);
      DivAtMost(x, p, EXPONENT - 1);
    } else {
      Pow2Monotone(b, 8 * s - 1);
      DivAtMost(x, p, SIGN - 1);
    }
    DivDiv(x, p, 0x100);
    BytesAdd(s - 3, 1);
  }

  /** Making room for the sign bit gives exactly the exponent and the significand of the specification. */
  lemma {:induction false} RoomForSign(x: nat)
    ensures var s := (BitLen(x) + 7) / 8;
            var m := FirstMantissa(x, s);
            && m < EXPONENT
            && (if m >= SIGN then Exponent(x) == s + 1 && Significand(x) == m / 0x100
                else Exponent(x) == s && Significand(x) == m)
  {
    hide Bytes, Pow2;
    if x == 0 {
      NoExponent();
      assert FirstMantissa(0, 0) == 0;
    } else if (BitLen(x) + 7) / 8 <= 3 {
      FirstMantissaSmall(x);
    } else {
      FirstMantissaLarge(x);
    }
  }

  method GetCompact(s: seq<Limb>, fNegative: bool) returns (nCompact: nat)
    requires |s| == WIDTH
    ensures nCompact == Compact(Value(s), fNegative) < BASE
  {
    hide Value, Weight, Bytes, Pow2, BitLen, BitLength, GetLow64, Exponent, Significand, Or;
    ghost var x := Value(s);
    var bits := Bits(s);
    BitLengthUnique(x, bits);
    RoomForSign(x);
    var nSize := (bits + 7) / 8;
    nCompact := FirstRead(s, nSize);
    if (nCompact / SIGN) % 2 == 1 {
      nCompact := nCompact / 0x100;
      nSize := nSize + 1;
    }
    assert nCompact < SIGN;
    assert nSize < 256;
    NoSignificand(x);
    nCompact := Pack(nCompact, nSize, fNegative);
  }

  /** Puts the exponent and the sign beside the mantissa. */
  method Pack(mantissa: nat, nSize: nat, fNegative: bool) returns (nCompact: nat)
    requires mantissa < SIGN && nSize < 256
    ensures nCompact == nSize * EXPONENT + mantissa + if fNegative && mantissa != 0 then SIGN else 0
  {
    hide Or;
    OrExponent(mantissa, nSize);
    nCompact := Or(mantissa, nSize * EXPONENT);
    Fields(nSize, mantissa, false);
    if fNegative && nCompact % SIGN != 0 {
      OrSign(nCompact, nSize);
      nCompact := Or(nCompact, SIGN);
    }
  }

  /** A compact number read into 256 bits and written again. */
  method ReadAndWrite(nCompact: Limb) returns (back: nat)
    ensures back == nCompact <==> Canonical(nCompact) && !Overflows(nCompact)
  {
    hide Canonical, Overflows, Compact, Meaning;
    var pn := new Limb[WIDTH];
    var _, _ := SetCompact(pn, nCompact);
    back := GetCompact(pn[..], false);
    WriteBack(nCompact);
  }

  lemma {:induction false} NoSignificand(x: nat)
    ensures Significand(x) == 0 <==> x == 0
  {
    if x == 0 { NoExponent(); } else { SignificandRange(x); }
  }

  lemma {:induction false} OrExponent(m: nat, size: nat)
    requires m < SIGN
    ensures Or(m, size * EXPONENT) == m + size * EXPONENT
  {
    SmallBytes();
    OrHigh(m, size, 24);
  }

  /** The sign bit of an encoding without one. */
  lemma {:induction false} SetSignBit(c: nat, size: nat, m: nat)
    requires m < SIGN && c == size * EXPONENT + m
    ensures Or(c, SIGN) == c + SIGN
  {
    SmallBits();
    OrSplit(c, 1, 23);
    DivIs(c, SIGN, 2 * size, m);
    assert Or(2 * size, 1) == 2 * size + 1;
  }

  lemma {:induction false} OrSign(c: nat, size: nat)
    requires size * EXPONENT <= c < size * EXPONENT + SIGN
    ensures Or(c, SIGN) == c + SIGN
  {
    SmallBits();
    SmallBytes();
    var m := c - size * EXPONENT;
    SetSignBit(c, size, m);
  }

  /** The first mantissa, read out of the limbs with 64-bit and 32-bit truncation. */
  method FirstRead(s: seq<Limb>, nSize: nat) returns (nCompact: nat)
    requires |s| == WIDTH && FirstMantissa(Value(s), nSize) < EXPONENT
    ensures nCompact == FirstMantissa(Value(s), nSize)
  {
    hide Value, Weight, Bytes, Pow2, GetLow64;
    if nSize <= 3 {
      Low64Is(s);
      AtMostProduct(Value(s), Bytes(3 - nSize));
      BytesAre(3 - nSize);
      Truncated(Value(s));
      Truncated(Value(s) * Bytes(3 - nSize));
      nCompact := (GetLow64(s) * Pow2(8 * (3 - nSize))) % UINT64_LIMIT % BASE;
    } else {
      var bn := new Limb[WIDTH](i requires 0 <= i < |s| => s[i]);
      assert bn[..] == s;
      BytesAre(nSize - 3);
      ShiftRightAssign(bn, 8 * (nSize - 3));
      Low64Is(bn[..]);
      Truncated(Value(bn[..]));
      nCompact := GetLow64(bn[..]) % BASE;
    }
  }

  lemma {:induction false} Truncated(v: nat)
    requires v < EXPONENT
    ensures v % UINT64_LIMIT == v && v % BASE == v
  {
  }

  lemma {:induction false} AtMostProduct(x: nat, p: nat)
    requires p > 0
    ensures x <= x * p
  {
    MulMonotone(x, x, 1, p);
  }

  // ----- Work -----

  lemma {:induction false} HighLimb(s: seq<Limb>, i: nat)
    requires 2 <= i < |s| && s[i] != 0
    ensures Value(s) >= UINT64_LIMIT
  {
    hide Value, Weight;
    WeightMonotone(2, i);
    assert s == s[..i + 1] + s[i + 1..];
    ValueConcat(s[..i + 1], s[i + 1..]);
    ValuePrefix(s, i);
    Low64Is(s);
    MulMonotone(1, s[i], Weight(i), Weight(i));
    MulMonotone(0, Weight(i + 1), 0, Value(s[i + 1..]));
  }

  method EqualTo(s: seq<Limb>, b: nat) returns (equal: bool)
    requires |s| >= 2 && b < UINT64_LIMIT
    ensures equal <==> Value(s) == b
  {
    hide Value;
    var i := |s| - 1;
    while i >= 2
      invariant 1 <= i < |s|
      invariant forall k :: i < k < |s| ==> s[k] == 0
    {
      if s[i] != 0 {
        HighLimb(s, i);
        return false;
      }
      i := i - 1;
    }
    LowLimbs(s);
    if s[1] != b / BASE {
      return false;
    }
    if s[0] != b % BASE {
      return false;
    }
    return true;
  }

  /** A compact number that names a target. */
  predicate ValidTarget(c: nat) { !Negative(c) && !Overflows(c) && Meaning(c) != 0 }

  /** The expected number of hashes to meet the target: `floor(2^256 / (target + 1))`. */
  function Work(c: nat): nat { if ValidTarget(c) then Floor(LIMIT, Meaning(c) + 1) else 0 }

  lemma {:induction false} MultipleNotLast(w: nat, k: nat)
    requires k > 0
    ensures w * Bytes(k) + 1 != LIMIT
  {
    SmallBytes();
    BytesAdd(1, k - 1);
    BytesAdd(1, 31);
    assert w * Bytes(k) == 0x100 * (w * Bytes(k - 1));
  }

  /** No target is the largest 256-bit number, so adding one to it does not wrap. */
  lemma {:induction false} TargetPlusOneFits(c: nat)
    requires !Overflows(c)
    ensures Meaning(c) + 1 < LIMIT
  {
    OverflowIsExact(c);
    if Size(c) <= 3 {
      WordBelow(c);
      SmallBytes();
      BytesMonotone(3, 32);
    } else {
      MultipleNotLast(Word(c), Size(c) - 3);
    }
  }

  /** `~t / (t + 1) + 1` is `2^256 / (t + 1)`, without leaving 256 bits. */
  lemma {:induction false} WorkFormula(t: nat, w: nat)
    requires 0 < t && t + 1 < w
    ensures (w - 1 - t) / (t + 1) + 1 == w / (t + 1) < w
  {
    var d := t + 1;
    var q := (w - 1 - t) / d;
    DivBounds(w - d, d);
    assert (q + 1) * d == q * d + d;
    DivIs(w, d, q + 1, (w - d) % d);
    MulMonotone(q + 1, q + 1, 2, d);
  }

  method GetBlockProof(nBits: Limb) returns (proof: array<Limb>)
    ensures fresh(proof) && proof.Length == WIDTH
    ensures Value(proof[..]) == Work(nBits)
  {
    hide Value, Weight, Negative, Overflows, Meaning;
    var bnTarget := new Limb[WIDTH];
    var fNegative, fOverflow := SetCompact(bnTarget, nBits);
    var isZero := EqualTo(bnTarget[..], 0);
    OverflowIsExact(nBits);
    if !fOverflow { TargetPlusOneFits(nBits); Unwrapped(Meaning(nBits), LIMIT); }
    if fNegative || fOverflow || isZero {
      proof := new Limb[WIDTH];
      Assign(proof, 0);
      return;
    }
    var one := new Limb[WIDTH];
    Assign(one, 1);
    proof := Complement(bnTarget[..]);
    AddAssign(bnTarget, one[..]);
    Unwrapped(Meaning(nBits) + 1, LIMIT);
    WorkFormula(Meaning(nBits), LIMIT);
    var nonzero := DivideAssign(proof, bnTarget[..]);
    assert nonzero;
    AddAssign(proof, one[..]);
    Unwrapped(Work(nBits), LIMIT);
  }

  /** Every valid target stands for at least one hash. */
  lemma {:induction false} WorkPositive(c: nat)
    ensures Work(c) > 0 <==> ValidTarget(c)
  {
    if ValidTarget(c) {
      TargetPlusOneFits(c);
      DivAtLeast(LIMIT, Meaning(c) + 1, 1);
    }
  }

  /** No work is counted for exactly the targets that are zero, negative or too large for 256 bits. */
  lemma {:induction false} NoWork(c: nat)
    ensures Work(c) == 0 <==> Meaning(c) == 0 || Meaning(c) >= Pow2(256) || (Signed(c) && Word(c) != 0)
  {
    WorkPositive(c);
    OverflowIsExact(c);
    SmallBytes();
    BytesAre(32);
    hide Meaning, Overflows, Word, Signed, Bytes;
  }

  /** Smaller targets stand for at least as much work. */
  lemma {:induction false} WorkAntitone(c: nat, d: nat)
    requires ValidTarget(c) && ValidTarget(d) && Meaning(c) <= Meaning(d)
    ensures Work(c) >= Work(d)
  {
    hide Meaning;
    DivAntitone(LIMIT, Meaning(c) + 1, Meaning(d) + 1);
  }
}
