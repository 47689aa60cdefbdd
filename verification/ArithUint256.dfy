/** The unsigned big integers of src/arith_uint256.h and src/arith_uint256.cpp, of any number of limbs.

    Operators work in place on the limb array `pn`; each is specified by the natural number the
    limbs stand for, modulo two to the number of bits.
 */
module ArithUint256 {
  import opened Powers
  import opened Limbs

  // ----- Addition, negation, subtraction, comparison -----

  lemma {:induction false} CarryStep(n: nat, w: nat)
    ensures (n % BASE) * w + (n / BASE) * (BASE * w) == n * w
  {
    DivBounds(n, BASE);
    assert (n / BASE) * (BASE * w) == ((n / BASE) * BASE) * w;
    assert ((n / BASE) * BASE + n % BASE) * w == ((n / BASE) * BASE) * w + (n % BASE) * w;
  }

  lemma {:induction false} AddStep(v: nat, carry: nat, w: nat, av: nat, bv: nat, x: nat, y: nat)
    requires v + carry * w == av + bv
    ensures var n := carry + x + y;
            (v + (n % BASE) * w) + (n / BASE) * (BASE * w) == (av + x * w) + (bv + y * w)
  {
    var n := carry + x + y;
    CarryStep(n, w);
    assert n * w == carry * w + x * w + y * w;
  }

  lemma {:induction false} WrapIs(v: nat, carry: nat, w: nat, total: nat)
    requires w > 0 && v < w && v + carry * w == total
    ensures total % w == v
  {
    DivIs(total, w, carry, v);
  }

  /** The first `i` limbs hold the low part of the sum; the others are still those of `a`. */
  ghost predicate Added(s: seq<Limb>, a: seq<Limb>, b: seq<Limb>, i: nat, carry: nat) {
    && i <= |s| == |a| == |b| && carry <= 1
    && s[i..] == a[i..]
    && Value(s[..i]) + carry * Weight(i) == Value(a[..i]) + Value(b[..i])
  }

  lemma {:induction false} AddedNext(s: seq<Limb>, a: seq<Limb>, b: seq<Limb>, i: nat, carry: nat)
    requires Added(s, a, b, i, carry) && i < |s|
    ensures var n := carry + s[i] + b[i];
            n / BASE <= 1 && Added(s[i := n % BASE], a, b, i + 1, n / BASE)
  {
    var n := carry + s[i] + b[i];
    var s' := s[i := n % BASE];
    assert s[i] == s[i..][0] == a[i..][0] == a[i];
    AddStep(Value(s[..i]), carry, Weight(i), Value(a[..i]), Value(b[..i]), s[i], b[i]);
    ValuePrefix(a, i);
    ValuePrefix(b, i);
    assert s'[..i] == s[..i];
    ValuePrefix(s', i);
    assert s'[i + 1..] == s[i..][1..] == a[i..][1..] == a[i + 1..];
  }

  lemma {:induction false} AddedAll(s: seq<Limb>, a: seq<Limb>, b: seq<Limb>, carry: nat)
    requires Added(s, a, b, |s|, carry)
    ensures Value(s) == (Value(a) + Value(b)) % Weight(|s|)
  {
    assert s[..|s|] == s && a[..|s|] == a && b[..|s|] == b;
    ValueBound(s);
    WrapIs(Value(s), carry, Weight(|s|), Value(a) + Value(b));
  }

  method AddAssign(pn: array<Limb>, b: seq<Limb>)
    requires |b| == pn.Length
    modifies pn
    ensures Value(pn[..]) == (Value(old(pn[..])) + Value(b)) % Weight(pn.Length)
  {
    ghost var a := pn[..];
    var carry: nat := 0;
    for i := 0 to pn.Length
      invariant Added(pn[..], a, b, i, carry)
    {
      var n := carry + pn[i] + b[i];
      assert n < UINT64_LIMIT;
      AddedNext(pn[..], a, b, i, carry);
      ghost var s: seq<Limb> := pn[..];
      var low: Limb := n % BASE;
      pn[i] := low;
      carry := n / BASE;
      assert pn[..] == s[i := low];
    }
    AddedAll(pn[..], a, b, carry);
  }

  /** The first `i` limbs hold the low part of `a + 1`, with a carry out of them. */
  ghost predicate Incremented(s: seq<Limb>, a: seq<Limb>, i: nat, carry: nat) {
    && i <= |s| == |a| && carry <= 1
    && s[i..] == a[i..]
    && Value(s[..i]) + carry * Weight(i) == Value(a[..i]) + 1
  }

  lemma {:induction false} IncrementedNext(s: seq<Limb>, a: seq<Limb>, i: nat)
    requires Incremented(s, a, i, 1) && i < |s|
    ensures var x: nat := s[i];
            var n := x + 1;
            n / BASE <= 1 && Incremented(s[i := n % BASE], a, i + 1, n / BASE)
  {
    var x: nat := s[i];
    var n := x + 1;
    var s' := s[i := n % BASE];
    assert s[i] == s[i..][0] == a[i..][0] == a[i];
    AddStep(Value(s[..i]), 1, Weight(i), Value(a[..i]), 1, s[i], 0);
    ValuePrefix(a, i);
    assert s'[..i] == s[..i];
    ValuePrefix(s', i);
    assert s'[i + 1..] == s[i..][1..] == a[i..][1..] == a[i + 1..];
  }

  lemma {:induction false} IncrementedAll(s: seq<Limb>, a: seq<Limb>, i: nat, carry: nat)
    requires Incremented(s, a, i, carry) && (carry == 0 || i == |s|)
    ensures Value(s) == (Value(a) + 1) % Weight(|s|)
  {
    ValueBound(s);
    assert s == s[..i] + s[i..] && a == a[..i] + a[i..];
    ValueConcat(s[..i], s[i..]);
    ValueConcat(a[..i], a[i..]);
    if carry == 0 {
      WrapIs(Value(s), 0, Weight(|s|), Value(a) + 1);
    } else {
      assert s[i..] == [];
      WrapIs(Value(s), 1, Weight(|s|), Value(a) + 1);
    }
  }

  method Increment(pn: array<Limb>)
    modifies pn
    ensures Value(pn[..]) == (Value(old(pn[..])) + 1) % Weight(pn.Length)
  {
    ghost var a := pn[..];
    var i: nat, carry: nat := 0, 1;
    while i < pn.Length && carry == 1
      invariant i <= pn.Length
      invariant Incremented(pn[..], a, i, carry)
    {
      IncrementedNext(pn[..], a, i);
      ghost var s: seq<Limb> := pn[..];
      var x: nat := pn[i];
      var n := x + 1;
      var low: Limb := n % BASE;
      pn[i] := low;
      carry := n / BASE;  // 1 exactly when the limb wraps to 0
      assert pn[..] == s[i := low];
      i := i + 1;
    }
    IncrementedAll(pn[..], a, i, carry);
  }

  /** The first `i` limbs hold the low part of `a - 1`, with a borrow out of them. */
  ghost predicate Decremented(s: seq<Limb>, a: seq<Limb>, i: nat, borrow: nat) {
    && i <= |s| == |a| && borrow <= 1
    && s[i..] == a[i..]
    && Value(s[..i]) + 1 == Value(a[..i]) + borrow * Weight(i)
  }

  lemma {:induction false} BorrowStep(v: nat, av: nat, w: nat, x: nat)
    requires v + 1 == av + w
    ensures x > 0 ==> v + (x - 1) * w + 1 == av + x * w
    ensures v + (BASE - 1) * w + 1 == av + BASE * w
  {
    if x > 0 { assert (x - 1) * w == x * w - w; }
  }

  lemma {:induction false} DecrementedNext(s: seq<Limb>, a: seq<Limb>, i: nat)
    requires Decremented(s, a, i, 1) && i < |s|
    ensures s[i] > 0 ==> Decremented(s[i := s[i] - 1], a, i + 1, 0)
    ensures s[i] == 0 ==> Decremented(s[i := BASE - 1], a, i + 1, 1)
  {
    hide Value, Weight;
    assert s[i] == s[i..][0] == a[i..][0] == a[i];
    assert a[i + 1..] == a[i..][1..] == s[i..][1..];
    var low: Limb := if s[i] > 0 then s[i] - 1 else BASE - 1;
    var s' := s[i := low];
    assert s'[..i] == s[..i] && s'[i + 1..] == s[i..][1..];
    BorrowStep(Value(s[..i]), Value(a[..i]), Weight(i), s[i]);
    ValuePrefix(a, i);
    ValuePrefix(s', i);
    WeightNext(i);
  }

  lemma {:induction false} DecrementedAll(s: seq<Limb>, a: seq<Limb>, i: nat, borrow: nat)
    requires Decremented(s, a, i, borrow) && (borrow == 0 || i == |s|)
    ensures Value(s) == if Value(a) > 0 then Value(a) - 1 else Weight(|s|) - 1
  {
    hide Value, Weight;
    ValueBound(s);
    ValueBound(a);
    assert s == s[..i] + s[i..] && a == a[..i] + a[i..];
    ValueConcat(s[..i], s[i..]);
    ValueConcat(a[..i], a[i..]);
    if i == |s| { assert s[..i] == s && a[..i] == a; }
  }

  method Decrement(pn: array<Limb>)
    modifies pn
    ensures Value(pn[..]) == if Value(old(pn[..])) > 0 then Value(old(pn[..])) - 1 else Weight(pn.Length) - 1
  {
    ghost var a: seq<Limb> := pn[..];
    var i: nat, borrow: nat := 0, 1;
    WeightNext(0);
    hide Value, Weight;
    DecrementedNone(a);
    while i < pn.Length && borrow == 1
      invariant i <= pn.Length
      invariant Decremented(pn[..], a, i, borrow)
    {
      DecrementedNext(pn[..], a, i);
      ghost var s: seq<Limb> := pn[..];
      var low: Limb := if pn[i] > 0 then pn[i] - 1 else BASE - 1;
      borrow := if pn[i] > 0 then 0 else 1;  // 1 exactly when the limb wraps to its largest value
      pn[i] := low;
      assert pn[..] == s[i := low];
      i := i + 1;
    }
    DecrementedAll(pn[..], a, i, borrow);
  }

  lemma {:induction false} DecrementedNone(a: seq<Limb>)
    ensures Decremented(a, a, 0, 1)
  {
  }

  /** Every limb of `s` complements the one of `b`. */
  lemma {:induction false} ComplementValue(s: seq<Limb>, b: seq<Limb>)
    requires |s| == |b| && forall i :: 0 <= i < |s| ==> s[i] == BASE - 1 - b[i]
    ensures Value(s) + Value(b) + 1 == Weight(|s|)
  {
    if s != [] {
      var n := |s| - 1;
      ComplementValue(s[..n], b[..n]);
      assert s[n] * Weight(n) + b[n] * Weight(n) == (BASE - 1) * Weight(n);
    }
  }

  method Complement(b: seq<Limb>) returns (ret: array<Limb>)
    ensures fresh(ret) && ret.Length == |b|
    ensures Value(ret[..]) == Weight(|b|) - 1 - Value(b)
  {
    ret := new Limb[|b|];
    for i := 0 to |b|
      invariant forall k :: 0 <= k < i ==> ret[k] == BASE - 1 - b[k]
    {
      ret[i] := BASE - 1 - b[i];
    }
    ComplementValue(ret[..], b);
  }

  method Negate(b: seq<Limb>) returns (ret: array<Limb>)
    ensures fresh(ret) && ret.Length == |b|
    ensures Value(ret[..]) == (Weight(|b|) - Value(b)) % Weight(|b|)
  {
    ret := Complement(b);
    Increment(ret);
  }

  lemma {:induction false} AddNegated(a: nat, b: nat, w: nat)
    requires a < w && b < w
    ensures (a + (w - b) % w) % w == if a >= b then a - b else w + a - b
  {
    if b == 0 {
      DivIs(w, w, 1, 0);
      DivIs(a, w, 0, a);
    } else {
      DivIs(w - b, w, 0, w - b);
      if a >= b { DivIs(a + w - b, w, 1, a - b); } else { DivIs(a + w - b, w, 0, a + w - b); }
    }
  }

  method SubtractAssign(pn: array<Limb>, b: seq<Limb>)
    requires |b| == pn.Length
    modifies pn
    ensures Value(pn[..]) == if Value(old(pn[..])) >= Value(b) then Value(old(pn[..])) - Value(b)
                             else Weight(pn.Length) + Value(old(pn[..])) - Value(b)
  {
    hide Value, Weight;
    ghost var a := pn[..];
    ValueBound(a);
    ValueBound(b);
    AddNegated(Value(a), Value(b), Weight(pn.Length));
    var negated := Negate(b);
    AddAssign(pn, negated[..]);
  }

  lemma {:induction false} TopLimbDecides(a: seq<Limb>, b: seq<Limb>, i: nat)
    requires |a| == |b| && i < |a| && a[i] < b[i]
    requires forall k :: i < k < |a| ==> a[k] == b[k]
    ensures Value(a) < Value(b)
  {
    hide Value, Weight;
    assert a[i + 1..] == b[i + 1..];
    assert a == a[..i + 1] + a[i + 1..] && b == b[..i + 1] + b[i + 1..];
    ValueConcat(a[..i + 1], a[i + 1..]);
    ValueConcat(b[..i + 1], b[i + 1..]);
    ValuePrefix(a, i);
    ValuePrefix(b, i);
    ValueBound(a[..i]);
    MulMonotone(a[i] + 1, b[i], Weight(i), Weight(i));
    assert (a[i] + 1) * Weight(i) == a[i] * Weight(i) + Weight(i);
  }

  method CompareTo(a: seq<Limb>, b: seq<Limb>) returns (order: int)
    requires |a| == |b|
    ensures -1 <= order <= 1
    ensures order < 0 <==> Value(a) < Value(b)
    ensures order == 0 <==> Value(a) == Value(b)
    ensures order == 0 <==> a == b
  {
    hide Value, Weight;
    var i := |a| - 1;
    while i >= 0
      invariant -1 <= i < |a|
      invariant forall k :: i < k < |a| ==> a[k] == b[k]
    {
      if a[i] < b[i] {
        TopLimbDecides(a, b, i);
        return -1;
      }
      if a[i] > b[i] {
        TopLimbDecides(b, a, i);
        return 1;
      }
      i := i - 1;
    }
    assert a == b;
    order := 0;
  }

  // ----- Multiplication -----

  lemma {:induction false} ProductFits(carry: nat, x: Limb, p: Limb, y: Limb)
    requires carry < BASE
    ensures carry + x + p * y < UINT64_LIMIT && (carry + x + p * y) / BASE < BASE
  {
    MulMonotone(0, p, 0, y);
    MulMonotone(p, BASE - 1, y, BASE - 1);
    DivAtMost(carry + x + p * y, BASE, BASE - 1);
  }

  /** Rearranges `x * w + p * y * w` into the sum and the product it extends. */
  lemma {:induction false} MulRearrange(p: nat, y: nat, wj: nat, wi: nat, bv: nat)
    ensures p * (wj * bv) + (p * y) * (wj * wi) == p * (wj * (bv + y * wi))
  {
    assert (p * y) * (wj * wi) == p * (wj * (y * wi));
    assert p * (wj * (bv + y * wi)) == p * (wj * bv + wj * (y * wi));
  }

  lemma {:induction false} MulStep(v: nat, carry: nat, wj: nat, wi: nat, av: nat, x: nat, p: nat, bv: nat, y: nat)
    requires v + carry * (wj * wi) == av + p * (wj * bv)
    ensures var n := carry + x + p * y;
            var w := wj * wi;
            v + (n % BASE) * w + (n / BASE) * (BASE * w) == av + x * w + p * (wj * (bv + y * wi))
  {
    var n := carry + x + p * y;
    var w := wj * wi;
    CarryStep(n, w);
    assert n * w == carry * w + x * w + (p * y) * w;
    MulRearrange(p, y, wj, wi, bv);
  }

  /** `s` is `a` with the low `i` limbs of `p * b` added at limb `j`, a carry going out of limb `i + j`. */
  ghost predicate RowAdded(s: seq<Limb>, a: seq<Limb>, p: Limb, b: seq<Limb>, j: nat, i: nat, carry: nat) {
    && i + j <= |s| == |a| == |b| && carry < BASE
    && s[i + j..] == a[i + j..]
    && Value(s[..i + j]) + carry * (Weight(j) * Weight(i)) == Value(a[..i + j]) + p * (Weight(j) * Value(b[..i]))
  }

  lemma {:induction false} RowAddedNone(a: seq<Limb>, p: Limb, b: seq<Limb>, j: nat)
    requires j <= |a| == |b|
    ensures RowAdded(a, a, p, b, j, 0, 0)
  {
  }

  lemma {:induction false} RowAddedNext(s: seq<Limb>, a: seq<Limb>, p: Limb, b: seq<Limb>, j: nat, i: nat, carry: nat)
    requires RowAdded(s, a, p, b, j, i, carry) && i + j < |s|
    ensures var n := carry + s[i + j] + p * b[i];
            && n < UINT64_LIMIT
            && RowAdded(s[i + j := n % BASE], a, p, b, j, i + 1, n / BASE)
  {
    hide Value, Weight;
    var k := i + j;
    var n := carry + s[k] + p * b[i];
    ProductFits(carry, s[k], p, b[i]);
    var low: Limb := n % BASE;
    var s' := s[k := low];
    assert s[k] == s[k..][0] == a[k..][0] == a[k];
    assert s'[..k] == s[..k];
    assert s'[k + 1..] == s[k..][1..] == a[k..][1..] == a[k + 1..];
    MulStep(Value(s[..k]), carry, Weight(j), Weight(i), Value(a[..k]), s[k], p, Value(b[..i]), b[i]);
    ValuePrefix(a, k);
    ValuePrefix(b, i);
    ValuePrefix(s', k);
    WeightAdd(j, i);
    WeightAdd(j, i + 1);
    WeightNext(k);
  }

  method MultiplyRow(acc: array<Limb>, p: Limb, b: seq<Limb>, j: nat) returns (carry: nat)
    requires |b| == acc.Length && j <= acc.Length
    modifies acc
    ensures RowAdded(acc[..], old(acc[..]), p, b, j, acc.Length - j, carry)
  {
    hide RowAdded;
    ghost var a := acc[..];
    RowAddedNone(a, p, b, j);
    carry := 0;
    var i := 0;
    while i + j < acc.Length
      invariant i + j <= acc.Length
      invariant RowAdded(acc[..], a, p, b, j, i, carry)
    {
      RowAddedNext(acc[..], a, p, b, j, i, carry);
      ghost var s: seq<Limb> := acc[..];
      var n := carry + acc[i + j] + p * b[i];
      assert n < UINT64_LIMIT;
      var low: Limb := n % BASE;
      acc[i + j] := low;
      carry := n / BASE;
      assert acc[..] == s[i + j := low];
      i := i + 1;
    }
  }

  lemma {:induction false} RowRearrange(pv: nat, p: nat, wj: nat, low: nat, wi: nat, high: nat)
    ensures (pv + p * wj) * (low + wi * high) == pv * (low + wi * high) + p * (wj * low) + (p * high) * (wj * wi)
  {
    assert (pv + p * wj) * (low + wi * high) == pv * (low + wi * high) + (p * wj) * (low + wi * high);
    assert (p * wj) * (low + wi * high) == (p * wj) * low + (p * wj) * (wi * high);
    assert (p * wj) * (wi * high) == (p * high) * (wj * wi);
    assert (p * wj) * low == p * (wj * low);
  }

  lemma {:induction false} WrapProduct(s: seq<Limb>, over: nat, total: nat)
    requires Value(s) + over * Weight(|s|) == total
    ensures Value(s) == total % Weight(|s|)
  {
    ValueBound(s);
    WrapIs(Value(s), over, Weight(|s|), total);
  }

  /** `s` is the product of the low `j` limbs of `p` and of `b`, `over` times the modulus having been dropped. */
  ghost predicate Multiplied(s: seq<Limb>, p: seq<Limb>, b: seq<Limb>, j: nat, over: nat) {
    && j <= |s| == |p| == |b|
    && Value(s) + over * Weight(|s|) == Value(p[..j]) * Value(b)
  }

  lemma {:induction false} MultipliedNone(s: seq<Limb>, p: seq<Limb>, b: seq<Limb>)
    requires |s| == |p| == |b| && forall i :: 0 <= i < |s| ==> s[i] == 0
    ensures Multiplied(s, p, b, 0, 0)
  {
    ValueZero(s);
  }

  /** A finished row extends the product by one limb; what goes past the top limb is a multiple of the modulus. */
  lemma {:induction false} MultipliedNext(s: seq<Limb>, a: seq<Limb>, p: seq<Limb>, b: seq<Limb>, j: nat, carry: nat,
                                          over: nat)
    returns (over': nat)
    requires Multiplied(a, p, b, j, over) && j < |a|
    requires |s| == |a| && RowAdded(s, a, p[j], b, j, |s| - j, carry)
    ensures Multiplied(s, p, b, j + 1, over')
  {
    hide Value, Weight;
    var i := |s| - j;
    assert b == b[..i] + b[i..] && s[..|s|] == s && a[..|s|] == a;
    ValueConcat(b[..i], b[i..]);
    WeightAdd(j, i);
    var high := Value(b[i..]);
    RowRearrange(Value(p[..j]), p[j], Weight(j), Value(b[..i]), Weight(i), high);
    over' := over + carry + p[j] * high;
    assert over' * Weight(|s|) == over * Weight(|s|) + carry * Weight(|s|) + (p[j] * high) * Weight(|s|);
    ValuePrefix(p, j);
  }

  lemma {:induction false} MultipliedAll(s: seq<Limb>, p: seq<Limb>, b: seq<Limb>, over: nat)
    requires Multiplied(s, p, b, |s|, over)
    ensures Value(s) == (Value(p) * Value(b)) % Weight(|s|)
  {
    assert p[..|s|] == p;
    WrapProduct(s, over, Value(p) * Value(b));
  }

  method MultiplyAssign(pn: array<Limb>, b: seq<Limb>)
    requires |b| == pn.Length
    modifies pn
    ensures Value(pn[..]) == (Value(old(pn[..])) * Value(b)) % Weight(pn.Length)
  {
    hide RowAdded, Multiplied, Value, Weight;
    ghost var p: seq<Limb> := pn[..];
    var acc := new Limb[pn.Length](_ => 0);
    MultipliedNone(acc[..], p, b);
    ghost var over: nat := 0;
    for j := 0 to pn.Length
      modifies acc
      invariant Multiplied(acc[..], p, b, j, over)
    {
      ghost var a: seq<Limb> := acc[..];
      var carry := MultiplyRow(acc, pn[j], b, j);
      over := MultipliedNext(acc[..], a, p, b, j, carry, over);
    }
    MultipliedAll(acc[..], p, b, over);
    ghost var product: seq<Limb> := acc[..];
    forall i | 0 <= i < pn.Length { pn[i] := acc[i]; }
    assert pn[..] == product;
  }

  /** The low `i` limbs hold the low part of `a * b`, with a carry out of them. */
  ghost predicate Scaled(s: seq<Limb>, a: seq<Limb>, b: Limb, i: nat, carry: nat) {
    && i <= |s| == |a| && carry < BASE
    && s[i..] == a[i..]
    && Value(s[..i]) + carry * Weight(i) == b * Value(a[..i])
  }

  lemma {:induction false} ScaledNext(s: seq<Limb>, a: seq<Limb>, b: Limb, i: nat, carry: nat)
    requires Scaled(s, a, b, i, carry) && i < |s|
    ensures var n := carry + b * s[i];
            n < UINT64_LIMIT && Scaled(s[i := n % BASE], a, b, i + 1, n / BASE)
  {
    hide Value, Weight;
    var n := carry + b * s[i];
    ProductFits(carry, 0, b, s[i]);
    var low: Limb := n % BASE;
    var s' := s[i := low];
    assert s[i] == s[i..][0] == a[i..][0] == a[i];
    assert s'[..i] == s[..i];
    assert s'[i + 1..] == s[i..][1..] == a[i..][1..] == a[i + 1..];
    MulStep(Value(s[..i]), carry, 1, Weight(i), 0, 0, b, Value(a[..i]), s[i]);
    ValuePrefix(a, i);
    ValuePrefix(s', i);
    WeightNext(i);
  }

  lemma {:induction false} ScaledNone(a: seq<Limb>, b: Limb)
    ensures Scaled(a, a, b, 0, 0)
  {
  }

  lemma {:induction false} ScaledAll(s: seq<Limb>, a: seq<Limb>, b: Limb, carry: nat)
    requires Scaled(s, a, b, |s|, carry)
    ensures Value(s) == (b * Value(a)) % Weight(|s|)
  {
    assert s[..|s|] == s && a[..|s|] == a;
    WrapProduct(s, carry, b * Value(a));
  }

  method ScaleAssign(pn: array<Limb>, b32: Limb)
    modifies pn
    ensures Value(pn[..]) == (b32 * Value(old(pn[..]))) % Weight(pn.Length)
  {
    hide Scaled, Value, Weight;
    ghost var a: seq<Limb> := pn[..];
    ScaledNone(a, b32);
    var carry: nat := 0;
    for i := 0 to pn.Length
      invariant Scaled(pn[..], a, b32, i, carry)
    {
      ScaledNext(pn[..], a, b32, i, carry);
      ghost var s: seq<Limb> := pn[..];
      MulMonotone(0, b32, 0, pn[i]);
      var n := carry + b32 * pn[i];
      DivBounds(n, BASE);
      assert n < UINT64_LIMIT;
      var low: Limb := n % BASE;
      pn[i] := low;
      carry := n / BASE;
      assert pn[..] == s[i := low];
    }
    ScaledAll(pn[..], a, b32, carry);
  }

  // ----- Left shift -----

  /** One round of the left shift: the limb `x` lands at index `at`, its top bits in the limb above. */
  function LeftStep(s: seq<Limb>, x: Limb, at: nat, sh: nat): (r: seq<Limb>)
    requires sh < 32
    ensures |r| == |s|
  {
    var s' := if at + 1 < |s| && sh != 0 then s[at + 1 := OrLimb(s[at + 1], Carried(x, sh))] else s;
    if at < |s| then s'[at := OrLimb(s'[at], Shifted(x, sh))] else s'
  }

  /** The low `i` limbs of `a` have been shifted; `over` times the modulus has been dropped. */
  ghost predicate ShiftedLeft(s: seq<Limb>, a: seq<Limb>, i: nat, k: nat, sh: nat, over: nat) {
    && i <= |s| == |a| && sh < 32
    && (forall m :: i + k < m < |s| ==> s[m] == 0)
    && (i + k < |s| ==> s[i + k] < Pow2(sh))
    && Value(s) + over * Weight(|s|) == Value(a[..i]) * (Pow2(sh) * Weight(k))
  }

  lemma {:induction false} OrInto(y: Limb, x: Limb, sh: nat)
    requires sh <= 32 && y < Pow2(sh)
    ensures OrLimb(y, Shifted(x, sh)) as nat == y as nat + Shifted(x, sh) as nat
  {
    SplitLimb(x, sh);
    OrDisjoint(x % Pow2(32 - sh), y, sh);
    OrCommutes(y, Shifted(x, sh));
  }

  lemma {:induction false} LeftWeights(hi: nat, lo: nat, x: nat, p: nat, w: nat)
    requires x * p == hi * BASE + lo
    ensures hi * (BASE * w) + lo * w == (x * p) * w
  {
    assert (hi * BASE + lo) * w == (hi * BASE) * w + lo * w;
    assert (hi * BASE) * w == hi * (BASE * w);
  }

  /** Raising a limb by `d` raises the value by `d` weights. */
  lemma {:induction false} ValueRaise(s: seq<Limb>, at: nat, y: Limb, d: nat)
    requires at < |s| && y as nat == s[at] as nat + d
    ensures Value(s[at := y]) == Value(s) + d * Weight(at)
  {
    ValueUpdate(s, at, y);
    assert (s[at] + d) * Weight(at) == s[at] * Weight(at) + d * Weight(at);
  }

  /** A round whose two target limbs exist drops nothing. */
  lemma {:induction false} LeftStepInside(s: seq<Limb>, x: Limb, at: nat, sh: nat)
    requires sh < 32 && at + 1 < |s| && s[at + 1] == 0 && s[at] < Pow2(sh)
    ensures LeftStep(s, x, at, sh)[at + 1] == Carried(x, sh) < Pow2(sh)
    ensures Value(LeftStep(s, x, at, sh)) == Value(s) + (x * Pow2(sh)) * Weight(at)
  {
    hide Value, Weight, OrLimb;
    SplitLimb(x, sh);
    LeftWeights(Carried(x, sh), Shifted(x, sh), x, Pow2(sh), Weight(at));
    WeightNext(at);
    OrInto(s[at], x, sh);
    OrZero(Carried(x, sh));
    CarriedNone(x);
    var s' := s[at + 1 := Carried(x, sh)];
    assert sh == 0 ==> s' == s;
    ValueRaise(s, at + 1, Carried(x, sh), Carried(x, sh));
    ValueRaise(s', at, OrLimb(s[at], Shifted(x, sh)), Shifted(x, sh));
  }

  lemma {:induction false} OrZero(x: Limb)
    ensures OrLimb(0, x) == x
  {
  }

  lemma {:induction false} CarriedNone(x: Limb)
    ensures Carried(x, 0) == 0
  {
    SplitLimb(x, 0);
  }

  /** At the top limb, the bits carried out are dropped. */
  lemma {:induction false} LeftStepTop(s: seq<Limb>, x: Limb, at: nat, sh: nat)
    requires sh < 32 && at + 1 == |s| && s[at] < Pow2(sh)
    ensures Value(LeftStep(s, x, at, sh)) + Carried(x, sh) * Weight(|s|) == Value(s) + (x * Pow2(sh)) * Weight(at)
  {
    hide Value, Weight, OrLimb;
    SplitLimb(x, sh);
    LeftWeights(Carried(x, sh), Shifted(x, sh), x, Pow2(sh), Weight(at));
    WeightNext(at);
    OrInto(s[at], x, sh);
    ValueRaise(s, at, OrLimb(s[at], Shifted(x, sh)), Shifted(x, sh));
  }

  /** What a round adds to the value, together with what it drops. */
  lemma {:induction false} LeftStepValue(s: seq<Limb>, x: Limb, at: nat, sh: nat) returns (drop: nat)
    requires sh < 32
    requires forall m :: at < m < |s| ==> s[m] == 0
    requires at < |s| ==> s[at] < Pow2(sh)
    ensures Value(LeftStep(s, x, at, sh)) + drop * Weight(|s|) == Value(s) + (x * Pow2(sh)) * Weight(at)
    ensures forall m :: at + 1 < m < |s| ==> LeftStep(s, x, at, sh)[m] == 0
    ensures at + 1 < |s| ==> LeftStep(s, x, at, sh)[at + 1] < Pow2(sh)
  {
    hide Value, Weight, OrLimb, Carried, Shifted, Pow2;
    if at >= |s| {
      drop := (x * Pow2(sh)) * Weight(at - |s|);
      WeightAdd(at - |s|, |s|);
      assert drop * Weight(|s|) == (x * Pow2(sh)) * (Weight(at - |s|) * Weight(|s|));
    } else if at + 1 == |s| {
      drop := Carried(x, sh);
      LeftStepTop(s, x, at, sh);
    } else {
      drop := 0;
      LeftStepInside(s, x, at, sh);
    }
  }

  lemma {:induction false} ShiftedLeftNone(s: seq<Limb>, a: seq<Limb>, k: nat, sh: nat)
    requires |s| == |a| && sh < 32 && forall m :: 0 <= m < |s| ==> s[m] == 0
    ensures ShiftedLeft(s, a, 0, k, sh, 0)
  {
    ValueZero(s);
    PowPositive(2, sh);
  }

  lemma {:induction false} ShiftedLeftNext(s: seq<Limb>, a: seq<Limb>, i: nat, k: nat, sh: nat, over: nat)
    returns (over': nat)
    requires ShiftedLeft(s, a, i, k, sh, over) && i < |s|
    ensures ShiftedLeft(LeftStep(s, a[i], i + k, sh), a, i + 1, k, sh, over')
  {
    hide Value, Weight, LeftStep, Pow2;
    var drop := LeftStepValue(s, a[i], i + k, sh);
    over' := over + drop;
    ValuePrefix(a, i);
    WeightAdd(i, k);
    ShiftRearrange(Value(a[..i]), a[i], Weight(i), Weight(k), Pow2(sh));
    assert over' * Weight(|s|) == over * Weight(|s|) + drop * Weight(|s|);
  }

  lemma {:induction false} ShiftRearrange(v: nat, x: nat, wi: nat, wk: nat, p: nat)
    ensures (v + x * wi) * (p * wk) == v * (p * wk) + (x * p) * (wi * wk)
  {
    assert (v + x * wi) * (p * wk) == v * (p * wk) + (x * wi) * (p * wk);
    assert (x * wi) * (p * wk) == (x * p) * (wi * wk);
  }

  lemma {:induction false} ShiftIsPow2(shift: nat)
    ensures Pow2(shift % 32) * Weight(shift / 32) == Pow2(shift)
  {
    WeightIsPow2(shift / 32);
    PowAdd(2, shift % 32, 32 * (shift / 32));
    assert shift % 32 + 32 * (shift / 32) == shift;
  }

  lemma {:induction false} ShiftedLeftAll(s: seq<Limb>, a: seq<Limb>, shift: nat, over: nat)
    requires ShiftedLeft(s, a, |s|, shift / 32, shift % 32, over)
    ensures Value(s) == (Value(a) * Pow2(shift)) % Weight(|s|)
  {
    hide Value, Weight, Pow2;
    assert a[..|s|] == a;
    ShiftIsPow2(shift);
    WrapProduct(s, over, Value(a) * Pow2(shift));
  }

  method ShiftLeftAssign(pn: array<Limb>, shift: nat)
    modifies pn
    ensures Value(pn[..]) == (Value(old(pn[..])) * Pow2(shift)) % Weight(pn.Length)
  {
    hide Value, Weight, Pow2, OrLimb, Carried, Shifted, ShiftedLeft;
    var a: seq<Limb> := pn[..];
    forall i | 0 <= i < pn.Length { pn[i] := 0; }
    var k, sh := shift / 32, shift % 32;
    ShiftedLeftNone(pn[..], a, k, sh);
    ghost var over: nat := 0;
    for i := 0 to pn.Length
      invariant ShiftedLeft(pn[..], a, i, k, sh, over)
    {
      ghost var s: seq<Limb> := pn[..];
      over := ShiftedLeftNext(s, a, i, k, sh, over);
      if i + k + 1 < pn.Length && sh != 0 {
        pn[i + k + 1] := OrLimb(pn[i + k + 1], Carried(a[i], sh));
      }
      if i + k < pn.Length {
        pn[i + k] := OrLimb(pn[i + k], Shifted(a[i], sh));
      }
      assert pn[..] == LeftStep(s, a[i], i + k, sh);
    }
    ShiftedLeftAll(pn[..], a, shift, over);
  }

  // ----- Right shift -----

  /** One round of the right shift: the limb `x` of index `i` lands `k` limbs lower, its low bits in the limb below. */
  function RightStep(s: seq<Limb>, x: Limb, i: nat, k: nat, sh: nat): (r: seq<Limb>)
    requires sh < 32 && i < |s|
    ensures |r| == |s|
  {
    var s' := if i - k - 1 >= 0 && sh != 0 then s[i - k - 1 := OrLimb(s[i - k - 1], Shifted(x, 32 - sh))] else s;
    if i - k >= 0 then s'[i - k := OrLimb(s'[i - k], Carried(x, 32 - sh))] else s'
  }

  /** The limbs of `a` from `k` to `i` have been shifted; `rest` is what fell off below limb `k`'s bit `sh`. */
  ghost predicate ShiftedRight(s: seq<Limb>, a: seq<Limb>, i: nat, k: nat, sh: nat, rest: nat) {
    && i <= |s| == |a| && sh < 32 && rest < Pow2(sh)
    && (forall m :: 0 <= m < |s| && m + k >= i ==> s[m] == 0)
    && (i > k ==> s[i - k - 1] < Pow2(32 - sh) && Value(s) * Pow2(sh) + rest == Value(a[k..i]))
  }

  lemma {:induction false} RightStepValue(s: seq<Limb>, x: Limb, i: nat, k: nat, sh: nat)
    requires sh < 32 && k < i < |s| && s[i - k] == 0 && s[i - k - 1] < Pow2(32 - sh)
    ensures RightStep(s, x, i, k, sh)[i - k] == Carried(x, 32 - sh)
    ensures Value(RightStep(s, x, i, k, sh)) == Value(s) + (x * Pow2(32 - sh)) * Weight(i - k - 1)
  {
    hide Value, Weight, OrLimb;
    var at := i - k - 1;
    var hi, lo := Carried(x, 32 - sh), Shifted(x, 32 - sh);
    SplitLimb(x, 32 - sh);
    LeftWeights(hi, lo, x, Pow2(32 - sh), Weight(at));
    WeightNext(at);
    OrZero(hi);
    ShiftedNone(x);
    var y: Limb := if sh != 0 then OrLimb(s[at], lo) else s[at];
    if sh != 0 { OrInto(s[at], x, 32 - sh); }
    var s' := s[at := y];
    assert sh == 0 ==> s' == s;
    ValueRaise(s, at, y, lo);
    ValueRaise(s', at + 1, hi, hi);
  }

  lemma {:induction false} ShiftedNone(x: Limb)
    ensures Shifted(x, 32) == 0
  {
    SplitLimb(x, 32);
  }

  lemma {:induction false} RightRearrange(v: nat, x: nat, q: nat, p: nat, w: nat)
    requires q * p == BASE
    ensures (v + (x * q) * w) * p == v * p + x * (BASE * w)
  {
    assert (v + (x * q) * w) * p == v * p + ((x * q) * w) * p;
    assert ((x * q) * w) * p == x * ((q * p) * w);
  }

  lemma {:induction false} HalvesOf32(sh: nat)
    requires sh <= 32
    ensures Pow2(32 - sh) * Pow2(sh) == BASE && Pow2(sh) > 0
  {
    Pow2Of32();
    PowAdd(2, 32 - sh, sh);
    PowPositive(2, sh);
  }

  lemma {:induction false} ValueSlice(a: seq<Limb>, k: nat, i: nat)
    requires k <= i < |a|
    ensures Value(a[k..i + 1]) == Value(a[k..i]) + a[i] * Weight(i - k)
  {
    assert a[k..i + 1] == a[k..i] + [a[i]];
    ValueSnoc(a[k..i], a[i]);
  }

  lemma {:induction false} ShiftedRightFirst(s: seq<Limb>, a: seq<Limb>, i: nat, sh: nat, rest: nat)
    requires ShiftedRight(s, a, i, i, sh, rest) && i < |s|
    ensures a[i] % Pow2(sh) < Pow2(sh) && ShiftedRight(RightStep(s, a[i], i, i, sh), a, i + 1, i, sh, a[i] % Pow2(sh))
  {
    var x := a[i];
    HalvesOf32(sh);
    SplitLimb(x, 32 - sh);
    OrZero(Carried(x, 32 - sh));
    ValueZero(s);
    hide OrLimb, Value;
    ValueRaise(s, 0, Carried(x, 32 - sh), Carried(x, 32 - sh));
    ValueSlice(a, i, i);
    assert a[i..i] == [];
    ValueZero(a[i..i]);
    WeightNext(0);
    DivBounds(x, Pow2(sh));
  }

  lemma {:induction false} ShiftedRightLater(s: seq<Limb>, a: seq<Limb>, i: nat, k: nat, sh: nat, rest: nat)
    requires ShiftedRight(s, a, i, k, sh, rest) && k < i < |s|
    ensures ShiftedRight(RightStep(s, a[i], i, k, sh), a, i + 1, k, sh, rest)
  {
    hide OrLimb, Value, Weight, Pow2;
    RightStepValue(s, a[i], i, k, sh);
    SplitLimb(a[i], 32 - sh);
    HalvesOf32(sh);
    ValueSlice(a, k, i);
    RightRearrange(Value(s), a[i], Pow2(32 - sh), Pow2(sh), Weight(i - k - 1));
    WeightNext(i - k - 1);
  }

  lemma {:induction false} ShiftedRightNext(s: seq<Limb>, a: seq<Limb>, i: nat, k: nat, sh: nat, rest: nat)
    returns (rest': nat)
    requires ShiftedRight(s, a, i, k, sh, rest) && i < |s|
    ensures ShiftedRight(RightStep(s, a[i], i, k, sh), a, i + 1, k, sh, rest')
  {
    if i < k {
      rest' := rest;
    } else if i == k {
      ShiftedRightFirst(s, a, i, sh, rest);
      rest' := a[i] % Pow2(sh);
    } else {
      ShiftedRightLater(s, a, i, k, sh, rest);
      rest' := rest;
    }
  }

  lemma {:induction false} ShiftedRightNone(s: seq<Limb>, a: seq<Limb>, k: nat, sh: nat)
    requires |s| == |a| && sh < 32 && forall m :: 0 <= m < |s| ==> s[m] == 0
    ensures ShiftedRight(s, a, 0, k, sh, 0)
  {
    PowPositive(2, sh);
  }

  lemma {:induction false} QuotientOfParts(low: nat, w: nat, v: nat, p: nat, rest: nat)
    requires low < w && rest < p
    ensures (low + w * (v * p + rest)) / (p * w) == v
  {
    SumOfParts(w, v, p, rest);
    MulMonotone(0, w, 0, rest);
    MulMonotone(0, p, 0, w);
    MulMonotone(rest + 1, p, w, w);
    OneMore(rest, w);
    Commutes(rest, w);
    DivIs(low + w * (v * p + rest), p * w, v, low + w * rest);
  }

  lemma {:induction false} SumOfParts(w: nat, v: nat, p: nat, rest: nat)
    ensures w * (v * p + rest) == v * (p * w) + w * rest
  {
    var x := v * p;
    assert w * (x + rest) == w * x + w * rest;
    assert w * (v * p) == v * (p * w);
  }

  lemma {:induction false} ShiftedRightAll(s: seq<Limb>, a: seq<Limb>, shift: nat, rest: nat)
    requires ShiftedRight(s, a, |s|, shift / 32, shift % 32, rest)
    ensures Pow2(shift) > 0 && Value(s) == Value(a) / Pow2(shift)
  {
    hide Value, Weight, Pow2;
    var k, sh := shift / 32, shift % 32;
    ShiftIsPow2(shift);
    HalvesOf32(sh);
    if k < |s| {
      assert a == a[..k] + a[k..];
      ValueConcat(a[..k], a[k..]);
      ValueBound(a[..k]);
      assert a[k..|s|] == a[k..];
      QuotientOfParts(Value(a[..k]), Weight(k), Value(s), Pow2(sh), rest);
    } else {
      ValueZero(s);
      ValueBound(a);
      WeightAdd(|s|, k - |s|);
      MulMonotone(1, Weight(k - |s|), Weight(|s|), Weight(|s|));
      MulMonotone(1, Pow2(sh), Weight(k), Weight(k));
      DivIs(Value(a), Pow2(shift), 0, Value(a));
    }
  }

  method ShiftRightAssign(pn: array<Limb>, shift: nat)
    modifies pn
    ensures Pow2(shift) > 0 && Value(pn[..]) == Value(old(pn[..])) / Pow2(shift)
  {
    hide Value, Weight, Pow2, OrLimb, Carried, Shifted, ShiftedRight;
    var a: seq<Limb> := pn[..];
    forall i | 0 <= i < pn.Length { pn[i] := 0; }
    var k, sh := shift / 32, shift % 32;
    ShiftedRightNone(pn[..], a, k, sh);
    ghost var rest: nat := 0;
    for i := 0 to pn.Length
      invariant ShiftedRight(pn[..], a, i, k, sh, rest)
    {
      ghost var s: seq<Limb> := pn[..];
      rest := ShiftedRightNext(s, a, i, k, sh, rest);
      if i - k - 1 >= 0 && sh != 0 {
        pn[i - k - 1] := OrLimb(pn[i - k - 1], Shifted(a[i], 32 - sh));
      }
      if i - k >= 0 {
        pn[i - k] := OrLimb(pn[i - k], Carried(a[i], 32 - sh));
      }
      assert pn[..] == RightStep(s, a[i], i, k, sh);
    }
    ShiftedRightAll(pn[..], a, shift, rest);
  }

  // ----- Bit length -----

  ghost predicate BitLength(v: nat, r: nat) {
    v < Pow2(r) && (r > 0 ==> Pow2(r - 1) <= v)
  }

  /** `x & (1 << b)` is not zero. */
  predicate BitSet(x: Limb, b: nat) {
    PowPositive(2, b);
    (x / Pow2(b)) % 2 == 1
  }

  /** The top bit of a number below `2^(b + 1)`. */
  lemma {:induction false} TopBit(x: Limb, b: nat)
    requires x < Pow2(b + 1)
    ensures BitSet(x, b) <==> Pow2(b) <= x
  {
    PowPositive(2, b);
    assert Pow2(b + 1) == 2 * Pow2(b);
    if x < Pow2(b) {
      DivIs(x, Pow2(b), 0, x);
    } else {
      DivIs(x, Pow2(b), 1, x - Pow2(b));
    }
  }

  lemma {:induction false} BitLengthAt(s: seq<Limb>, pos: nat, b: nat)
    requires pos < |s| && forall m :: pos < m < |s| ==> s[m] == 0
    requires Pow2(b) <= s[pos] < Pow2(b + 1)
    ensures BitLength(Value(s), 32 * pos + b + 1)
  {
    hide Value, Weight, Pow2;
    ValueTail(s, pos + 1);
    ValuePrefix(s, pos);
    ValueBound(s[..pos]);
    WeightIsPow2(pos);
    Pow2Add(b, 32 * pos);
    Pow2Add(b + 1, 32 * pos);
    var w := Pow2(32 * pos);
    var x: nat := s[pos];
    MulMonotone(Pow2(b), x, w, w);
    MulMonotone(x + 1, Pow2(b + 1), w, w);
    assert (x + 1) * w == x * w + w;
  }

  method Bits(s: seq<Limb>) returns (r: nat)
    ensures r <= 32 * |s| && BitLength(Value(s), r)
  {
    hide BitSet, Weight, Value;
    var pos := |s| - 1;
    while pos >= 0
      invariant -1 <= pos < |s|
      invariant forall m :: pos < m < |s| ==> s[m] == 0
    {
      if s[pos] != 0 {
        Pow2Of32();
        var nbits := 31;
        while nbits > 0
          invariant 0 <= nbits <= 31 && s[pos] < Pow2(nbits + 1)
        {
          TopBit(s[pos], nbits);
          if BitSet(s[pos], nbits) {
            BitLengthAt(s, pos, nbits);
            return 32 * pos + nbits + 1;
          }
          nbits := nbits - 1;
        }
        BitLengthAt(s, pos, 0);
        return 32 * pos + 1;
      }
      pos := pos - 1;
    }
    ValueZero(s);
    r := 0;
  }

  // ----- Division -----

  function Bit(d: nat): (r: Limb)
    requires d < 32
    ensures r == Pow2(d)
  {
    Pow2Of32();
    PowMonotone(2, d + 1, 32);
    PowPositive(2, d);
    Pow2(d)
  }

  /** The low `t` bits of the quotient are still clear. */
  ghost predicate LowClear(q: seq<Limb>, t: nat) {
    PowPositive(2, t % 32);
    && (forall m :: 0 <= m < t / 32 && m < |q| ==> q[m] == 0)
    && (t / 32 < |q| ==> q[t / 32] % Pow2(t % 32) == 0)
  }

  lemma {:induction false} ClearLimb(q: seq<Limb>, t: nat)
    requires LowClear(q, t) && 0 < t <= 32 * |q|
    ensures var c, d := (t - 1) / 32, (t - 1) % 32;
            Pow2(d + 1) > 0 && q[c] % Pow2(d + 1) == 0
  {
    var c, d := (t - 1) / 32, (t - 1) % 32;
    PowPositive(2, d + 1);
    if t % 32 == 0 {
      assert t / 32 == c + 1;
      assert q[c] == 0;
    } else {
      assert t / 32 == c && t % 32 == d + 1;
    }
  }

  lemma {:induction false} MultipleOfHalf(x: nat, p: nat)
    requires p > 0 && x % (2 * p) == 0
    ensures x == (x / (2 * p)) * (2 * p) && x % p == 0 && (x + p) % p == 0
  {
    var m := x / (2 * p);
    DivBounds(x, 2 * p);
    assert x == m * (2 * p) == (2 * m) * p;
    assert x + p == (2 * m + 1) * p;
    DivIs(x, p, 2 * m, 0);
    DivIs(x + p, p, 2 * m + 1, 0);
  }

  lemma {:induction false} OrBit(x: Limb, d: nat)
    requires d < 32 && Pow2(d + 1) > 0 && x % Pow2(d + 1) == 0
    ensures OrLimb(x, Bit(d)) as nat == x as nat + Pow2(d)
    ensures Pow2(d) > 0 && x % Pow2(d) == 0 && (x as nat + Pow2(d)) % Pow2(d) == 0
  {
    Pow2Positive(d);
    assert Pow2(d + 1) == 2 * Pow2(d);
    hide Pow2;
    MultipleOfHalf(x, Pow2(d));
    OrDisjoint(x / Pow2(d + 1), Pow2(d), d + 1);
  }

  /** Setting bit `t - 1` of the quotient adds its power of two and leaves the lower bits clear. */
  lemma {:induction false} SetBit(q: seq<Limb>, t: nat)
    requires LowClear(q, t) && 0 < t <= 32 * |q|
    ensures var c, d := (t - 1) / 32, (t - 1) % 32;
            var q' := q[c := OrLimb(q[c], Bit(d))];
            LowClear(q', t - 1) && LowClear(q, t - 1) && Value(q') == Value(q) + Pow2(t - 1)
  {
    hide Value, Weight, Pow2, OrLimb;
    var c, d := (t - 1) / 32, (t - 1) % 32;
    ClearLimb(q, t);
    OrBit(q[c], d);
    ValueRaise(q, c, OrLimb(q[c], Bit(d)), Pow2(d));
    ShiftIsPow2(t - 1);
  }

  /** Shift-subtract division with `t` quotient bits still to find. */
  ghost predicate Dividing(q: seq<Limb>, num: nat, div: nat, n: nat, b: nat, t: nat) {
    && t <= 32 * |q| && LowClear(q, t)
    && Value(q) * b + num == n
    && num < b * Pow2(t)
    && (t > 0 ==> div == b * Pow2(t - 1))
  }

  lemma {:induction false} DividingNone(q: seq<Limb>, n: nat, nBits: nat, b: nat, bBits: nat)
    requires BitLength(n, nBits) && BitLength(b, bBits) && 0 < bBits <= nBits <= 32 * |q|
    requires forall m :: 0 <= m < |q| ==> q[m] == 0
    ensures b * Pow2(nBits - bBits) < Weight(|q|)
    ensures Dividing(q, n, b * Pow2(nBits - bBits), n, b, nBits - bBits + 1)
  {
    hide Weight, Value, Pow2, LowClear;
    var shift := nBits - bBits;
    ValueZero(q);
    Pow2Add(bBits, shift);
    Pow2Add(bBits - 1, shift + 1);
    Pow2Monotone(nBits, 32 * |q|);
    Pow2Positive(shift);
    WeightIsPow2(|q|);
    MulMonotone(b + 1, Pow2(bBits), Pow2(shift), Pow2(shift));
    assert (b + 1) * Pow2(shift) == b * Pow2(shift) + Pow2(shift);
    MulMonotone(Pow2(bBits - 1), b, Pow2(shift + 1), Pow2(shift + 1));
    ClearIsClear(q, shift + 1);
  }

  lemma {:induction false} ClearIsClear(q: seq<Limb>, t: nat)
    requires forall m :: 0 <= m < |q| ==> q[m] == 0
    ensures LowClear(q, t)
  {
    Pow2Positive(t % 32);
    DivIs(0, Pow2(t % 32), 0, 0);
  }

  lemma {:induction false} DividingNext(q: seq<Limb>, num: nat, div: nat, n: nat, b: nat, t: nat)
    requires Dividing(q, num, div, n, b, t) && t > 0
    ensures num < div ==> Dividing(q, num, div / 2, n, b, t - 1)
    ensures var c, d := (t - 1) / 32, (t - 1) % 32;
            num >= div ==> Dividing(q[c := OrLimb(q[c], Bit(d))], num - div, div / 2, n, b, t - 1)
  {
    HalveDivisor(b, t);
    hide Value, Pow2, OrLimb, LowClear;
    SetBit(q, t);
    assert (Value(q) + Pow2(t - 1)) * b == Value(q) * b + b * Pow2(t - 1);
  }

  lemma {:induction false} HalveDivisor(b: nat, t: nat)
    requires t > 0
    ensures b * Pow2(t) == 2 * (b * Pow2(t - 1))
    ensures t > 1 ==> (b * Pow2(t - 1)) / 2 == b * Pow2(t - 2)
  {
    assert b * Pow2(t) == 2 * (b * Pow2(t - 1));
    if t > 1 { assert b * Pow2(t - 1) == 2 * (b * Pow2(t - 2)); }
  }

  lemma {:induction false} DividingAll(q: seq<Limb>, num: nat, div: nat, n: nat, b: nat)
    requires Dividing(q, num, div, n, b, 0)
    ensures b > 0 && Value(q) == n / b
  {
    DivIs(n, b, Value(q), num);
  }

  lemma {:induction false} QuotientIsZero(n: nat, nBits: nat, b: nat, bBits: nat)
    requires BitLength(n, nBits) && BitLength(b, bBits) && bBits > nBits
    ensures b > 0 && n / b == 0
  {
    PowMonotone(2, nBits, bBits - 1);
    DivIs(n, b, 0, n);
  }

  lemma {:induction false} NoBits(v: nat, r: nat)
    requires BitLength(v, r)
    ensures r == 0 <==> v == 0
  {
    if r > 0 { PowPositive(2, r - 1); }
  }

  method DivideAssign(pn: array<Limb>, b: seq<Limb>) returns (ok: bool)
    requires |b| == pn.Length
    modifies pn
    ensures ok <==> Value(b) != 0
    ensures Value(pn[..]) == if ok then Value(old(pn[..])) / Value(b) else 0
  {
    hide Value, Weight, Pow2, OrLimb, BitLength, Dividing;
    ghost var a: seq<Limb> := pn[..];
    ghost var n, bv := Value(a), Value(b);
    var div, num := new Limb[pn.Length](i requires 0 <= i < |b| => b[i]), new Limb[pn.Length];
    forall i | 0 <= i < pn.Length { num[i] := pn[i]; }
    forall i | 0 <= i < pn.Length { pn[i] := 0; }
    ValueZero(pn[..]);
    assert num[..] == a && div[..] == b;
    var numBits := Bits(num[..]);
    var divBits := Bits(div[..]);
    NoBits(bv, divBits);
    if divBits == 0 {
      return false;
    }
    if divBits > numBits {
      QuotientIsZero(n, numBits, bv, divBits);
      return true;
    }
    var shift := numBits - divBits;
    DividingNone(pn[..], n, numBits, bv, divBits);
    ShiftLeftAssign(div, shift);
    Unwrapped(bv * Pow2(shift), Weight(pn.Length));
    while shift >= 0
      invariant -1 <= shift
      invariant Dividing(pn[..], Value(num[..]), Value(div[..]), n, bv, shift + 1)
    {
      shift := DivideRound(pn, num, div, shift, n, bv);
    }
    DividingAll(pn[..], Value(num[..]), Value(div[..]), n, bv);
    ok := true;
  }

  /** One round of the division: compare, subtract, set a quotient bit, halve the divisor. */
  method DivideRound(pn: array<Limb>, num: array<Limb>, div: array<Limb>, shift: nat, ghost n: nat, ghost b: nat)
    returns (shift': int)
    requires pn.Length == num.Length == div.Length && pn != num && pn != div && num != div
    requires Dividing(pn[..], Value(num[..]), Value(div[..]), n, b, shift + 1)
    modifies pn, num, div
    ensures shift' == shift - 1
    ensures Dividing(pn[..], Value(num[..]), Value(div[..]), n, b, shift)
  {
    hide Value, Weight, Pow2, OrLimb, Dividing;
    DividingNext(pn[..], Value(num[..]), Value(div[..]), n, b, shift + 1);
    DividingFits(pn[..], Value(num[..]), Value(div[..]), n, b, shift + 1);
    var order := CompareTo(num[..], div[..]);
    if order >= 0 {
      SubtractAssign(num, div[..]);
      ghost var q: seq<Limb> := pn[..];
      pn[shift / 32] := OrLimb(pn[shift / 32], Bit(shift % 32));
      assert pn[..] == q[shift / 32 := OrLimb(q[shift / 32], Bit(shift % 32))];
    }
    ShiftRightAssign(div, 1);
    assert Pow2(1) == 2 by { PowOne(); }
    shift' := shift - 1;
  }

  lemma {:induction false} DividingFits(q: seq<Limb>, num: nat, div: nat, n: nat, b: nat, t: nat)
    requires Dividing(q, num, div, n, b, t)
    ensures t <= 32 * |q|
  {
  }

  lemma {:induction false} PowOne()
    ensures Pow2(1) == 2
  {
  }

  lemma {:induction false} Unwrapped(v: nat, w: nat)
    requires v < w
    ensures v % w == v
  {
    DivIs(v, w, 0, v);
  }
}
