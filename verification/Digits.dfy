/** Big-endian digit strings of any base, and the in-place multiply-and-add on them. */
module Digits {
  import opened Powers

  ghost predicate Below(s: seq<nat>, base: nat) { forall i :: 0 <= i < |s| ==> s[i] < base }

  function Value(base: nat, s: seq<nat>): nat {
    if s == [] then 0 else Value(base, s[..|s| - 1]) * base + s[|s| - 1]
  }

  /** The digits of `n` without leading zeroes. */
  function ToDigits(base: nat, n: nat): seq<nat>
    requires base >= 2
  {
    if n == 0 then [] else
      QuotientSmaller(n, base);
      ToDigits(base, n / base) + [n % base]
  }

  lemma {:induction false} QuotientSmaller(n: nat, base: nat)
    requires n > 0 && base >= 2
    ensures n / base < n
  {
    MulMonotone(n, n, 2, base);
    DivAtMost(n, base, n - 1);
  }

  ghost predicate Minimal(s: seq<nat>) { s != [] ==> s[0] != 0 }

  lemma {:induction false} ValueSnoc(base: nat, s: seq<nat>, d: nat)
    ensures Value(base, s + [d]) == Value(base, s) * base + d
  {
    assert (s + [d])[..|s|] == s;
  }

  lemma {:induction false} Shift(d: nat, p: nat, v: nat, base: nat)
    ensures (d * p + v) * base == d * (base * p) + v * base
  {
  }

  lemma {:induction false} ValueCons(base: nat, d: nat, s: seq<nat>)
    ensures Value(base, [d] + s) == d * Pow(base, |s|) + Value(base, s)
  {
    if s == [] {
      assert [d] + s == [d];
      ValueSnoc(base, [], d);
      assert [] + [d] == [d];
    } else {
      var n := |s| - 1;
      ValueCons(base, d, s[..n]);
      assert [d] + s == ([d] + s[..n]) + [s[n]];
      ValueSnoc(base, [d] + s[..n], s[n]);
      Shift(d, Pow(base, n), Value(base, s[..n]), base);
    }
  }

  lemma {:induction false} ValueBelow(base: nat, s: seq<nat>)
    requires base > 0 && Below(s, base)
    ensures Value(base, s) < Pow(base, |s|)
  {
    if s != [] {
      var n := |s| - 1;
      ValueBelow(base, s[..n]);
      MulMonotone(Value(base, s[..n]) + 1, Pow(base, n), base, base);
      assert (Value(base, s[..n]) + 1) * base == Value(base, s[..n]) * base + base;
    }
  }

  lemma {:induction false} ValueAtLeast(base: nat, s: seq<nat>)
    requires s != [] && s[0] != 0
    ensures Value(base, s) >= Pow(base, |s| - 1)
  {
    assert s == [s[0]] + s[1..];
    ValueCons(base, s[0], s[1..]);
    MulMonotone(1, s[0], Pow(base, |s| - 1), Pow(base, |s| - 1));
  }

  lemma {:induction false} LeadingZeroSmall(base: nat, s: seq<nat>)
    requires base > 0 && Below(s, base) && s != [] && Value(base, s) >= Pow(base, |s| - 1)
    ensures s[0] != 0
  {
    assert s == [s[0]] + s[1..];
    ValueCons(base, s[0], s[1..]);
    ValueBelow(base, s[1..]);
  }

  /** Leading zeroes do not change the value. */
  lemma {:induction false} ValueZeroes(base: nat, s: seq<nat>, k: nat)
    requires k <= |s| && forall i :: 0 <= i < k ==> s[i] == 0
    ensures Value(base, s) == Value(base, s[k..])
  {
    if k > 0 {
      assert s == [s[0]] + s[1..];
      ValueCons(base, 0, s[1..]);
      ValueZeroes(base, s[1..], k - 1);
      assert s[1..][k - 1..] == s[k..];
    } else {
      assert s[0..] == s;
    }
  }

  /** `ToDigits` gives the digits of the number, with no leading zero. */
  lemma {:induction false} DigitsValue(base: nat, n: nat)
    requires base >= 2
    ensures var s := ToDigits(base, n);
            Value(base, s) == n && Below(s, base) && Minimal(s)
  {
    if n > 0 {
      hide Value;
      QuotientSmaller(n, base);
      var q, d := n / base, n % base;
      DigitsValue(base, q);
      ValueSnoc(base, ToDigits(base, q), d);
      DivBounds(n, base);
    } else {
      assert Value(base, []) == 0;
    }
  }

  /** Only one digit string without a leading zero has a given value. */
  lemma {:induction false} DigitsUnique(base: nat, s: seq<nat>)
    requires base >= 2 && Below(s, base) && Minimal(s)
    ensures ToDigits(base, Value(base, s)) == s
  {
    if s != [] {
      var n := |s| - 1;
      DigitsUnique(base, s[..n]);
      ValueAtLeast(base, s);
      PowPositive(base, n);
      DivIs(Value(base, s), base, Value(base, s[..n]), s[n]);
      assert s == s[..n] + [s[n]];
    }
  }

  // ----- Multiply and add, in place -----

  /** The buffer holds `v` in its last `length` digits. */
  ghost predicate Holds(s: seq<nat>, length: nat, base: nat, v: nat) {
    && base >= 2 && length <= |s|
    && (forall i :: 0 <= i < |s| - length ==> s[i] == 0)
    && s[|s| - length..] == ToDigits(base, v)
  }

  /** The last `i` digits have been multiplied; `carry` goes into the next one. */
  ghost predicate Absorbing(s: seq<nat>, was: seq<nat>, base: nat, mult: nat, c: nat, i: nat, carry: nat) {
    && i <= |s| == |was| && base > 0
    && s[..|s| - i] == was[..|s| - i]
    && Below(s[|s| - i..], base)
    && Value(base, s[|s| - i..]) + carry * Pow(base, i) == Value(base, was[|s| - i..]) * mult + c
  }

  lemma {:induction false} AbsorbStep(v: nat, carry: nat, w: nat, u: nat, mult: nat, c: nat, x: nat, base: nat)
    requires base > 0 && v + carry * w == u * mult + c
    ensures var n := MulAdd(x, mult, carry);
            Rest(n, base) < base && (Rest(n, base) * w + v) + Floor(n, base) * (base * w) == (x * w + u) * mult + c
  {
    var n := MulAdd(x, mult, carry);
    DivBounds(n, base);
    assert ((n / base) * base + n % base) * w == (n / base) * (base * w) + (n % base) * w;
    assert n * w == carry * w + (mult * x) * w;
    assert (x * w + u) * mult == (mult * x) * w + u * mult;
  }

  lemma {:induction false} AbsorbingNext(s: seq<nat>, was: seq<nat>, base: nat, mult: nat, c: nat, i: nat, carry: nat)
    requires Absorbing(s, was, base, mult, c, i, carry) && i < |s|
    ensures var k := |s| - 1 - i;
            var n := MulAdd(s[k], mult, carry);
            Absorbing(s[k := Rest(n, base)], was, base, mult, c, i + 1, Floor(n, base))
  {
    hide Value, Pow, MulAdd, Rest, Floor;
    var k := |s| - 1 - i;
    var n := MulAdd(s[k], mult, carry);
    var d := Rest(n, base);
    var s' := s[k := d];
    assert s[k] == s[..k + 1][k] == was[..k + 1][k] == was[k];
    assert s'[k..] == [d] + s[k + 1..];
    assert was[k..] == [was[k]] + was[k + 1..];
    assert s'[..k] == s[..k + 1][..k] == was[..k + 1][..k] == was[..k];
    ValueCons(base, d, s[k + 1..]);
    ValueCons(base, was[k], was[k + 1..]);
    PowNext(base, i);
    AbsorbStep(Value(base, s[k + 1..]), carry, Pow(base, i), Value(base, was[k + 1..]), mult, c, s[k], base);
  }

  /** A buffer's last digits, as many as it uses or more, have its value. */
  lemma {:induction false} HeldValue(s: seq<nat>, length: nat, base: nat, v: nat, i: nat)
    requires Holds(s, length, base, v) && length <= i <= |s|
    ensures Value(base, s[|s| - i..]) == v
  {
    var t := s[|s| - i..];
    ValueZeroes(base, t, i - length);
    assert t[i - length..] == s[|s| - length..];
    DigitsValue(base, v);
  }

  lemma {:induction false} StillCarrying(s: seq<nat>, was: seq<nat>, length: nat, base: nat, v: nat, mult: nat, c: nat,
                                         i: nat, carry: nat)
    requires Holds(was, length, base, v) && Absorbing(s, was, base, mult, c, i, carry) && i >= length && carry > 0
    ensures MulAdd(v, mult, c) >= Pow(base, i)
  {
    HeldValue(was, length, base, v, i);
    MulMonotone(1, carry, Pow(base, i), Pow(base, i));
  }

  lemma {:induction false} NoCarryOut(v: nat, carry: nat, w: nat, total: nat)
    requires v + carry * w == total < w
    ensures carry == 0
  {
    if carry > 0 { MulMonotone(1, carry, w, w); }
  }

  lemma {:induction false} NoDigits(base: nat)
    requires base >= 2
    ensures ToDigits(base, 0) == [] && Value(base, []) == 0 && Pow(base, 0) == 1
  {
  }

  lemma {:induction false} AbsorbedAll(s: seq<nat>, was: seq<nat>, length: nat, base: nat, v: nat, mult: nat, c: nat,
                                       i: nat, carry: nat)
    requires Holds(was, length, base, v) && Absorbing(s, was, base, mult, c, i, carry)
    requires mult >= 1 && MulAdd(v, mult, c) < Pow(base, |s|)
    requires (carry == 0 && i >= length) || i == |s|
    requires i > length ==> MulAdd(v, mult, c) >= Pow(base, i - 1)
    ensures carry == 0 && Holds(s, i, base, MulAdd(v, mult, c))
  {
    hide Value, Pow, ToDigits;
    var total := MulAdd(v, mult, c);
    HeldValue(was, length, base, v, i);
    NoDigits(base);
    var t := s[|s| - i..];
    if i == |s| { NoCarryOut(Value(base, t), carry, Pow(base, i), total); }
    if i > 0 {
      if i == length {
        DigitsValue(base, v);
        ValueAtLeast(base, ToDigits(base, v));
        MulMonotone(v, v, 1, mult);
      }
      LeadingZeroSmall(base, t);
    }
    DigitsUnique(base, t);
    forall k | 0 <= k < |s| - i ensures s[k] == 0 {
      assert s[k] == s[..|s| - i][k] == was[..|s| - i][k];
    }
  }

  /** "buf = buf * mult + c": the carry never runs out of the buffer. */
  method MultiplyAdd(buf: array<nat>, length: nat, base: nat, mult: nat, c: nat, ghost v: nat) returns (used: nat)
    requires Holds(buf[..], length, base, v) && mult >= 1
    requires MulAdd(v, mult, c) < Pow(base, buf.Length)
    modifies buf
    ensures Holds(buf[..], used, base, MulAdd(v, mult, c))
  {
    ghost var was: seq<nat> := buf[..];
    HoldsBase(was, length, base, v);
    AbsorbingNone(was, base, mult, c);
    hide Holds, Absorbing;
    hide Floor, Rest, Pow, MulAdd;
    var carry: nat, i: nat := c, 0;
    while (carry != 0 || i < length) && i < buf.Length
      invariant i <= buf.Length
      invariant Absorbing(buf[..], was, base, mult, c, i, carry)
      invariant i > length ==> MulAdd(v, mult, c) >= Pow(base, i - 1)
    {
      ghost var s: seq<nat> := buf[..];
      AbsorbingNext(s, was, base, mult, c, i, carry);
      if i >= length { StillCarrying(s, was, length, base, v, mult, c, i, carry); }
      var k := buf.Length - 1 - i;
      var n := MulAdd(buf[k], mult, carry);
      buf[k] := Rest(n, base);
      assert buf[..] == s[k := Rest(n, base)];
      carry := Floor(n, base);
      i := i + 1;
    }
    AbsorbedAll(buf[..], was, length, base, v, mult, c, i, carry);
    assert carry == 0;
    used := i;
  }

  lemma {:induction false} HoldsBase(s: seq<nat>, length: nat, base: nat, v: nat)
    requires Holds(s, length, base, v)
    ensures base >= 2 && length <= |s|
  {
  }

  lemma {:induction false} AbsorbingNone(was: seq<nat>, base: nat, mult: nat, c: nat)
    requires base > 0
    ensures Absorbing(was, was, base, mult, c, 0, c)
  {
    assert was[|was|..] == [];
  }

  lemma {:induction false} HoldsZero(s: seq<nat>, base: nat)
    requires base >= 2 && forall i :: 0 <= i < |s| ==> s[i] == 0
    ensures Holds(s, 0, base, 0)
  {
  }
}
