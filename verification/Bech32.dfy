/** Bech32 and Bech32m (src/bech32.cpp; BIP 173 and BIP 350): the checksum polynomial, the codecs,
    their round trips and the errors the checksum always detects.
 */
module Bech32 {

  datatype Encoding = INVALID | BECH32 | BECH32M

  type Data = seq<bv5>

  // ----- The checksum polynomial -----

  function Xor(a: bv32, b: bv32): bv32 { a ^ b }

  function Term(c0: bv32, bit: bv32, g: bv32): bv32 { if c0 & bit != 0 then g else 0 }

  /** The multiple of the generator's tail that the bits of the outgoing coefficient call for. */
  function Generator(c0: bv32): bv32 {
    Xor(Xor(Xor(Xor(Term(c0, 1, 0x3b6a57b2), Term(c0, 2, 0x26508e6d)), Term(c0, 4, 0x1ea119fa)),
            Term(c0, 8, 0x3d4233dd)), Term(c0, 16, 0x2a1462b3))
  }

  function Shifted(c: bv32): bv32 { (c & 0x1ffffff) << 5 }

  /** Multiply by x, add a coefficient, reduce by the generator. */
  function Step(c: bv32, v: bv5): bv32 {
    Xor(Xor(Shifted(c), v as bv32), Generator(c >> 25))
  }

  function Run(c: bv32, v: Data): bv32 {
    if v == [] then c else Step(Run(c, v[..|v| - 1]), v[|v| - 1])
  }

  lemma {:induction false} TermLinear(a: bv32, b: bv32, bit: bv32, g: bv32)
    requires bit == 1 || bit == 2 || bit == 4 || bit == 8 || bit == 16
    ensures Term(Xor(a, b), bit, g) == Xor(Term(a, bit, g), Term(b, bit, g))
  {
    assert (a ^ b) & bit == (a & bit) ^ (b & bit);
  }

  lemma {:induction false} XorLaws(a: bv32, b: bv32, c: bv32)
    ensures Xor(a, b) == Xor(b, a)
    ensures Xor(Xor(a, b), c) == Xor(a, Xor(b, c))
  {
  }

  lemma {:induction false} XorZero(a: bv32, b: bv32)
    ensures Xor(a, 0) == a && Xor(0, a) == a && Xor(a, a) == 0
    ensures Xor(a, b) == 0 <==> a == b
  {
  }

  lemma {:induction false} Shuffle(a: bv32, b: bv32, c: bv32, d: bv32)
    ensures Xor(Xor(a, b), Xor(c, d)) == Xor(Xor(a, c), Xor(b, d))
  {
    hide Xor;
    XorLaws(a, b, Xor(c, d));
    XorLaws(b, c, d);
    XorLaws(c, b, d);
    XorLaws(a, c, Xor(b, d));
  }

  lemma {:induction false} GeneratorLinear(a: bv32, b: bv32)
    ensures Generator(Xor(a, b)) == Xor(Generator(a), Generator(b))
  {
    hide Term, Xor;
    var p1, p2, p3, p4, p5 := Term(a, 1, 0x3b6a57b2), Term(a, 2, 0x26508e6d), Term(a, 4, 0x1ea119fa),
        Term(a, 8, 0x3d4233dd), Term(a, 16, 0x2a1462b3);
    var q1, q2, q3, q4, q5 := Term(b, 1, 0x3b6a57b2), Term(b, 2, 0x26508e6d), Term(b, 4, 0x1ea119fa),
        Term(b, 8, 0x3d4233dd), Term(b, 16, 0x2a1462b3);
    TermLinear(a, b, 1, 0x3b6a57b2);
    TermLinear(a, b, 2, 0x26508e6d);
    TermLinear(a, b, 4, 0x1ea119fa);
    TermLinear(a, b, 8, 0x3d4233dd);
    TermLinear(a, b, 16, 0x2a1462b3);
    Shuffle(p1, q1, p2, q2);
    Shuffle(Xor(p1, p2), Xor(q1, q2), p3, q3);
    Shuffle(Xor(Xor(p1, p2), p3), Xor(Xor(q1, q2), q3), p4, q4);
    Shuffle(Xor(Xor(Xor(p1, p2), p3), p4), Xor(Xor(Xor(q1, q2), q3), q4), p5, q5);
  }

  lemma {:induction false} ShiftLinear(a: bv32, b: bv32)
    ensures Shifted(Xor(a, b)) == Xor(Shifted(a), Shifted(b))
    ensures Xor(a, b) >> 25 == Xor(a >> 25, b >> 25)
  {
  }

  lemma {:induction false} WideLinear(v: bv5, w: bv5)
    ensures (v ^ w) as bv32 == Xor(v as bv32, w as bv32)
  {
  }

  lemma {:induction false} StepLinear(a: bv32, b: bv32, v: bv5, w: bv5)
    ensures Step(Xor(a, b), v ^ w) == Xor(Step(a, v), Step(b, w))
  {
    hide Generator, Xor, Shifted;
    ShiftLinear(a, b);
    WideLinear(v, w);
    GeneratorLinear(a >> 25, b >> 25);
    Shuffle(Shifted(a), Shifted(b), v as bv32, w as bv32);
    Shuffle(Xor(Shifted(a), v as bv32), Xor(Shifted(b), w as bv32), Generator(a >> 25), Generator(b >> 25));
  }

  /** A step keeps the state within its six coefficients. */
  lemma {:induction false} StepFits(c: bv32, v: bv5)
    ensures Step(c, v) < 0x4000_0000
  {
  }

  /** The generator's constant coefficient is invertible, so no state is lost. */
  lemma {:induction false} StepKeepsNonzero(c: bv32)
    requires 0 != c < 0x4000_0000
    ensures Step(c, 0) != 0
  {
  }

  lemma {:induction false} NoGenerator()
    ensures Generator(0) == 0
  {
  }

  lemma {:induction false} TopEmpty(c: bv32)
    requires c < 0x200_0000
    ensures c >> 25 == 0
  {
  }

  lemma {:induction false} ShiftedIs(c: bv32)
    requires c < 0x200_0000
    ensures Shifted(c) == c << 5
  {
  }

  lemma {:induction false} AppendIs(c: bv32, v: bv5)
    ensures (c << 5) ^ (v as bv32) == (c << 5) | (v as bv32)
  {
  }

  lemma {:induction false} AppendZero(c: bv32, v: bv5)
    requires c < 0x200_0000
    ensures (c << 5) | (v as bv32) == 0 <==> c == 0 && v == 0
  {
  }

  /** Below six coefficients a step only appends. */
  lemma {:induction false} StepAppends(c: bv32, v: bv5)
    requires c < 0x200_0000
    ensures Step(c, v) == (c << 5) | (v as bv32)
    ensures Step(c, v) == 0 <==> c == 0 && v == 0
  {
    hide Generator, Shifted;
    TopEmpty(c);
    NoGenerator();
    ShiftedIs(c);
    AppendIs(c, v);
    AppendZero(c, v);
    hide Xor;
    XorZero((c << 5) | (v as bv32), 0);
    XorIs(c << 5, v as bv32);
  }

  lemma {:induction false} XorIs(a: bv32, b: bv32)
    ensures Xor(a, b) == a ^ b
  {
  }

  // ----- Runs of the polynomial -----

  function Zeros(n: nat): Data { seq(n, _ => 0) }

  function XorData(u: Data, w: Data): Data
    requires |u| == |w|
  {
    seq(|u|, i requires 0 <= i < |u| => u[i] ^ w[i])
  }

  lemma {:induction false} RunSnoc(c: bv32, u: Data, v: bv5)
    ensures Run(c, u + [v]) == Step(Run(c, u), v)
  {
    assert (u + [v])[..|u|] == u;
  }

  lemma {:induction false} RunConcat(c: bv32, u: Data, w: Data)
    ensures Run(c, u + w) == Run(Run(c, u), w)
  {
    hide Step;
    if w == [] {
      assert u + w == u;
    } else {
      var n := |w| - 1;
      RunConcat(c, u, w[..n]);
      assert u + w == (u + w[..n]) + [w[n]];
      RunSnoc(c, u + w[..n], w[n]);
    }
  }

  /** The checksum is linear over the field of two elements. */
  lemma {:induction false} RunLinear(a: bv32, b: bv32, u: Data, w: Data)
    requires |u| == |w|
    ensures Run(Xor(a, b), XorData(u, w)) == Xor(Run(a, u), Run(b, w))
  {
    hide Step, Xor;
    if u != [] {
      var n := |u| - 1;
      RunLinear(a, b, u[..n], w[..n]);
      assert XorData(u, w)[..n] == XorData(u[..n], w[..n]);
      StepLinear(Run(a, u[..n]), Run(b, w[..n]), u[n], w[n]);
    }
  }

  lemma {:induction false} RunFits(c: bv32, u: Data)
    requires c < 0x4000_0000
    ensures Run(c, u) < 0x4000_0000
  {
    if u != [] { StepFits(Run(c, u[..|u| - 1]), u[|u| - 1]); }
  }

  /** Different states stay different whatever follows. */
  lemma {:induction false} StatesStayApart(a: bv32, b: bv32, t: Data)
    requires a != b && a < 0x4000_0000 && b < 0x4000_0000
    ensures Run(a, t) != Run(b, t)
  {
    hide Step, Xor;
    if t != [] {
      var n := |t| - 1;
      StatesStayApart(a, b, t[..n]);
      RunFits(a, t[..n]);
      RunFits(b, t[..n]);
      StepsStayApart(Run(a, t[..n]), Run(b, t[..n]), t[n]);
    }
  }

  lemma {:induction false} StepsStayApart(a: bv32, b: bv32, v: bv5)
    requires a != b && a < 0x4000_0000 && b < 0x4000_0000
    ensures Step(a, v) != Step(b, v)
  {
    hide Step, Xor;
    XorZero(a, b);
    XorBelow(a, b);
    StepKeepsNonzero(Xor(a, b));
    SameCancels(v);
    StepLinear(a, b, v, v);
    XorZero(Step(a, v), Step(b, v));
  }

  lemma {:induction false} XorBelow(a: bv32, b: bv32)
    requires a < 0x4000_0000 && b < 0x4000_0000
    ensures Xor(a, b) < 0x4000_0000
  {
  }

  lemma {:induction false} SameCancels(v: bv5)
    ensures v ^ v == 0
  {
  }

  /** States reached from zero by `n` coefficients stay below this. */
  function Bound(n: nat): bv32 {
    if n == 0 then 1 else if n == 1 then 0x20 else if n == 2 then 0x400 else if n == 3 then 0x8000
    else if n == 4 then 0x10_0000 else if n == 5 then 0x200_0000 else 0x4000_0000
  }

  lemma {:induction false} BoundGrows(c: bv32, v: bv5, n: nat)
    requires n <= 5 && c < Bound(n)
    ensures c < 0x200_0000 && (c << 5) | (v as bv32) < Bound(n + 1)
  {
  }

  predicate AllZero(w: Data) { forall i :: 0 <= i < |w| ==> w[i] == 0 }

  /** Up to six coefficients are stored side by side: only zeroes give zero. */
  lemma {:induction false} ShortRun(w: Data)
    requires |w| <= 6
    ensures Run(0, w) < Bound(|w|)
    ensures Run(0, w) == 0 <==> AllZero(w)
  {
    hide Step, Bound;
    BoundZero();
    if w != [] {
      var n := |w| - 1;
      ShortRun(w[..n]);
      var c := Run(0, w[..n]);
      assert Run(0, w) == Step(c, w[n]);
      hide Run;
      BoundGrows(c, w[n], n);
      StepAppends(c, w[n]);
      assert AllZero(w) <==> AllZero(w[..n]) && w[n] == 0;
    }
  }

  lemma {:induction false} BoundZero()
    ensures Bound(0) == 1 && Bound(6) == 0x4000_0000
  {
  }

  lemma {:induction false} DifferenceNonzero(u: Data, w: Data)
    requires |u| == |w| && u != w
    ensures !AllZero(XorData(u, w))
  {
    var i :| 0 <= i < |u| && u[i] != w[i];
    XorNonzero(u[i], w[i]);
    assert XorData(u, w)[i] == u[i] ^ w[i];
  }

  lemma {:induction false} XorNonzero(a: bv5, b: bv5)
    requires a != b
    ensures a ^ b != 0
  {
  }

  lemma {:induction false} ShortRunsDiffer(c: bv32, u: Data, w: Data)
    requires |u| == |w| <= 6 && u != w
    ensures Run(c, u) != Run(c, w)
  {
    hide Step, Xor;
    XorZero(c, c);
    RunLinear(c, c, u, w);
    DifferenceNonzero(u, w);
    ShortRun(XorData(u, w));
    XorZero(Run(c, u), Run(c, w));
  }

  /** Two lists that differ only inside a window of six positions have different checksums. */
  lemma {:induction false} WindowDetected(u: Data, w: Data, i: nat, j: nat)
    requires |u| == |w| && u != w
    requires i <= j <= |u| && j <= i + 6 && u[..i] == w[..i] && u[j..] == w[j..]
    ensures Run(1, u) != Run(1, w)
  {
    hide Step, Run;
    var c := Run(1, u[..i]);
    assert u == u[..i] + u[i..j] + u[j..] && w == w[..i] + w[i..j] + w[j..];
    RunConcat(1, u[..i] + u[i..j], u[j..]);
    RunConcat(1, w[..i] + w[i..j], w[j..]);
    RunConcat(1, u[..i], u[i..j]);
    RunConcat(1, w[..i], w[i..j]);
    RunFits(1, u[..i]);
    RunFits(c, u[i..j]);
    RunFits(c, w[i..j]);
    ShortRunsDiffer(c, u[i..j], w[i..j]);
    StatesStayApart(Run(c, u[i..j]), Run(c, w[i..j]), u[j..]);
  }

  // ----- Checksums -----

  function EncodingConstant(encoding: Encoding): bv32
    requires encoding != INVALID
  {
    if encoding == BECH32 then 1 else 0x2bc830a3
  }

  function HighBits(c: char): bv5 { ((c as int % 256) / 32) as bv5 }

  function LowBits(c: char): bv5 { (c as int % 32) as bv5 }

  /** Each character's high bits, a zero, each character's low bits. */
  function ExpandHRP(hrp: string): Data {
    seq(|hrp|, i requires 0 <= i < |hrp| => HighBits(hrp[i]))
    + [0]
    + seq(|hrp|, i requires 0 <= i < |hrp| => LowBits(hrp[i]))
  }

  lemma {:induction false} ByteBack(c: char)
    requires c as int < 256
    ensures HighBits(c) as int * 32 + LowBits(c) as int == c as int
  {
    var n := c as int;
    FiveBits(n % 256 / 32);
    FiveBits(n % 32);
  }

  lemma {:induction false} FiveBits(n: int)
    requires 0 <= n < 32
    ensures (n as bv5) as int == n
  {
  }

  /** The expansion holds every character, in two halves around a zero. */
  lemma {:induction false} ExpandIs(hrp: string, i: nat)
    requires i < |hrp| && hrp[i] as int < 256
    ensures var e := ExpandHRP(hrp);
            |e| == 2 * |hrp| + 1 && e[|hrp|] == 0 && e[i] as int * 32 + e[|hrp| + 1 + i] as int == hrp[i] as int
  {
    hide HighBits, LowBits;
    ByteBack(hrp[i]);
  }

  /** So no two prefixes have the same one. */
  lemma {:induction false} ExpandInjective(a: string, b: string)
    requires forall i :: 0 <= i < |a| ==> a[i] as int < 256
    requires forall i :: 0 <= i < |b| ==> b[i] as int < 256
    ensures ExpandHRP(a) == ExpandHRP(b) ==> a == b
  {
    if ExpandHRP(a) == ExpandHRP(b) {
      assert |a| == |b|;
      hide ExpandHRP;
      forall i | 0 <= i < |a| ensures a[i] as int == b[i] as int {
        ExpandIs(a, i);
        ExpandIs(b, i);
      }
    }
  }

  /** The loop that fills both halves. */
  method FillHRP(hrp: string) returns (ret: array<bv5>)
    ensures fresh(ret) && ret[..] == ExpandHRP(hrp)
  {
    hide HighBits, LowBits;
    var n := |hrp|;
    ret := new bv5[n * 2 + 1](_ => 0);
    for i := 0 to n
      invariant forall k :: 0 <= k < i ==> ret[k] == HighBits(hrp[k])
      invariant forall k :: 0 <= k < i ==> ret[k + n + 1] == LowBits(hrp[k])
    {
      ret[i] := HighBits(hrp[i]);
      ret[i + n + 1] := LowBits(hrp[i]);
    }
    ret[n] := 0;
  }

  function VerifyChecksum(hrp: string, values: Data): Encoding {
    var check := Run(1, ExpandHRP(hrp) + values);
    if check == EncodingConstant(BECH32) then BECH32
    else if check == EncodingConstant(BECH32M) then BECH32M
    else INVALID
  }

  function LowGroup(low: bv32): bv5 { (low & 31) as bv5 }

  /** The group `(mod >> (5 * (5 - i))) & 31`. */
  function GroupAt(mod: bv32, i: nat): bv5
    requires i < 6
  {
    match i
    case 0 => LowGroup(mod >> 25)
    case 1 => LowGroup(mod >> 20)
    case 2 => LowGroup(mod >> 15)
    case 3 => LowGroup(mod >> 10)
    case 4 => LowGroup(mod >> 5)
    case 5 => LowGroup(mod)
  }

  /** The 5-bit groups of a 30-bit number, the highest first. */
  function Groups(mod: bv32): Data { seq(6, i requires 0 <= i < 6 => GroupAt(mod, i)) }

  function Checksum(encoding: Encoding, hrp: string, values: Data): Data
    requires encoding != INVALID
  {
    Groups(Xor(Run(1, ExpandHRP(hrp) + values + Zeros(6)), EncodingConstant(encoding)))
  }

  lemma {:induction false} AppendGroup(high: bv32, low: bv32)
    requires high == low >> 5
    ensures (high << 5) | (((low & 31) as bv5) as bv32) == low
  {
  }

  function Rest(low: bv32): bv32 { low >> 5 }

  /** The low `n` groups of a number. */
  ghost function Cut(low: bv32, n: nat): Data
    decreases n
  {
    if n == 0 then [] else Cut(Rest(low), n - 1) + [LowGroup(low)]
  }

  lemma {:induction false} BoundShrinks(low: bv32, n: nat)
    requires 0 < n <= 6 && low < Bound(n)
    ensures Rest(low) < Bound(n - 1)
  {
  }

  lemma {:induction false} BoundAtMost(low: bv32, n: nat)
    requires n <= 6 && low < Bound(n)
    ensures low < 0x4000_0000 && (n == 0 ==> low == 0)
  {
  }

  lemma {:induction false} TopOfThirty(low: bv32)
    requires low < 0x4000_0000
    ensures low >> 5 < 0x200_0000
  {
  }

  lemma {:induction false} StepRejoins(low: bv32)
    requires low < 0x4000_0000
    ensures Step(Rest(low), LowGroup(low)) == low
  {
    hide Step;
    TopOfThirty(low);
    StepAppends(low >> 5, LowGroup(low));
    AppendGroup(low >> 5, low);
  }

  lemma {:induction false} CutNext(low: bv32, n: nat)
    ensures Cut(low, 0) == [] && Cut(low, n + 1) == Cut(Rest(low), n) + [LowGroup(low)]
  {
  }

  lemma {:induction false} CutPacks(low: bv32, n: nat)
    requires n <= 6 && low < Bound(n)
    ensures Run(0, Cut(low, n)) == low
    decreases n
  {
    hide Step, Bound, Run, LowGroup, Cut, Rest;
    BoundAtMost(low, n);
    if n == 0 {
      CutNext(low, 0);
      RunNothing(0);
    } else {
      CutNext(low, n - 1);
      BoundShrinks(low, n);
      CutPacks(Rest(low), n - 1);
      RunSnoc(0, Cut(Rest(low), n - 1), LowGroup(low));
      StepRejoins(low);
    }
  }

  lemma {:induction false} RunNothing(c: bv32)
    ensures Run(c, []) == c
  {
  }

  lemma {:induction false} ShiftChain(mod: bv32)
    ensures Rest(mod) == mod >> 5
    ensures Rest(mod >> 5) == mod >> 10
    ensures Rest(mod >> 10) == mod >> 15
    ensures Rest(mod >> 15) == mod >> 20
    ensures Rest(mod >> 20) == mod >> 25
  {
  }

  lemma {:induction false} GroupsAreCut(mod: bv32)
    ensures Groups(mod) == Cut(mod, 6)
  {
    hide LowGroup, Cut, Rest;
    ShiftChain(mod);
    CutNext(mod, 5);
    CutNext(mod >> 5, 4);
    CutNext(mod >> 10, 3);
    CutNext(mod >> 15, 2);
    CutNext(mod >> 20, 1);
    CutNext(mod >> 25, 0);
    CutNext(Rest(mod >> 25), 0);
  }

  /** Six groups run from zero give back the number they were cut from. */
  lemma {:induction false} GroupsPack(mod: bv32)
    requires mod < 0x4000_0000
    ensures Run(0, Groups(mod)) == mod && |Groups(mod)| == 6
  {
    BoundZero();
    hide Run, Bound, Cut;
    GroupsAreCut(mod);
    CutPacks(mod, 6);
  }

  /** What six final values add to the checksum. */
  lemma {:induction false} FinalSix(c: bv32, cs: Data)
    requires |cs| == 6
    ensures Run(c, cs) == Xor(Run(c, Zeros(6)), Run(0, cs))
  {
    hide Step, Xor, Run;
    XorZero(c, 0);
    RunLinear(c, 0, Zeros(6), cs);
    ZeroXor(cs);
  }

  lemma {:induction false} ZeroXor(u: Data)
    ensures XorData(Zeros(|u|), u) == u
  {
    forall i | 0 <= i < |u| ensures XorData(Zeros(|u|), u)[i] == u[i] { ZeroXorOne(u[i]); }
  }

  lemma {:induction false} ZeroXorOne(v: bv5)
    ensures 0 ^ v == v
  {
  }

  lemma {:induction false} ConstantsFit(encoding: Encoding)
    requires encoding != INVALID
    ensures EncodingConstant(encoding) < 0x4000_0000
  {
  }

  /** The created checksum verifies, and it is the only one that does. */
  lemma {:induction false} ChecksumExact(encoding: Encoding, hrp: string, values: Data, cs: Data)
    requires encoding != INVALID && |cs| == 6
    ensures VerifyChecksum(hrp, values + cs) == encoding <==> cs == Checksum(encoding, hrp, values)
  {
    hide Step, Xor, Run, Groups, ExpandHRP;
    var e := ExpandHRP(hrp) + values;
    assert ExpandHRP(hrp) + (values + cs) == e + cs;
    var c := Run(1, e);
    var k := EncodingConstant(encoding);
    var r := Run(c, Zeros(6));
    RunConcat(1, e, cs);
    RunConcat(1, e, Zeros(6));
    FinalSix(c, cs);
    RunFits(1, e);
    RunFits(c, Zeros(6));
    ConstantsFit(encoding);
    XorBelow(r, k);
    var mod := Xor(r, k);
    GroupsPack(mod);
    XorSolve(r, Run(0, cs), k);
    if cs != Groups(mod) { ShortRunsDiffer(0, cs, Groups(mod)); }
  }

  lemma {:induction false} XorCancel(r: bv32, x: bv32)
    ensures Xor(r, Xor(r, x)) == x
  {
  }

  lemma {:induction false} XorSolve(r: bv32, x: bv32, k: bv32)
    ensures Xor(r, x) == k <==> x == Xor(r, k)
  {
    hide Xor;
    XorCancel(r, x);
    XorCancel(r, k);
  }

  // ----- Characters -----

  datatype Option<T> = None | Some(value: T)

  function ToChar(v: bv5): char {
    if v == 0 then 'q' else if v == 1 then 'p' else if v == 2 then 'z' else if v == 3 then 'r' else
    if v == 4 then 'y' else if v == 5 then '9' else if v == 6 then 'x' else if v == 7 then '8' else
    if v == 8 then 'g' else if v == 9 then 'f' else if v == 10 then '2' else if v == 11 then 't' else
    if v == 12 then 'v' else if v == 13 then 'd' else if v == 14 then 'w' else if v == 15 then '0' else
    if v == 16 then 's' else if v == 17 then '3' else if v == 18 then 'j' else if v == 19 then 'n' else
    if v == 20 then '5' else if v == 21 then '4' else if v == 22 then 'k' else if v == 23 then 'h' else
    if v == 24 then 'c' else if v == 25 then 'e' else if v == 26 then '6' else if v == 27 then 'm' else
    if v == 28 then 'u' else if v == 29 then 'a' else if v == 30 then '7' else
    'l'
  }

  predicate IsLower(c: char) { 'a' <= c <= 'z' }

  predicate IsUpper(c: char) { 'A' <= c <= 'Z' }

  function LowerCase(c: char): char { if IsUpper(c) then (c as int - 'A' as int + 'a' as int) as char else c }

  function FromLower(c: char): Option<bv5> {
    if c == 'q' then Some(0) else if c == 'p' then Some(1) else if c == 'z' then Some(2)
    else if c == 'r' then Some(3)
    else if c == 'y' then Some(4) else if c == '9' then Some(5) else if c == 'x' then Some(6)
    else if c == '8' then Some(7)
    else if c == 'g' then Some(8) else if c == 'f' then Some(9) else if c == '2' then Some(10)
    else if c == 't' then Some(11)
    else if c == 'v' then Some(12) else if c == 'd' then Some(13) else if c == 'w' then Some(14)
    else if c == '0' then Some(15)
    else if c == 's' then Some(16) else if c == '3' then Some(17) else if c == 'j' then Some(18)
    else if c == 'n' then Some(19)
    else if c == '5' then Some(20) else if c == '4' then Some(21) else if c == 'k' then Some(22)
    else if c == 'h' then Some(23)
    else if c == 'c' then Some(24) else if c == 'e' then Some(25) else if c == '6' then Some(26)
    else if c == 'm' then Some(27)
    else if c == 'u' then Some(28) else if c == 'a' then Some(29) else if c == '7' then Some(30)
    else if c == 'l' then Some(31)
    else None
  }

  // The alphabet, in the order of the values.

  lemma {:induction false} FirstLetters()
    ensures [ToChar(0), ToChar(1), ToChar(2), ToChar(3), ToChar(4), ToChar(5), ToChar(6), ToChar(7)]
            == "qpzry9x8"
  {
  }

  lemma {:induction false} SecondLetters()
    ensures [ToChar(8), ToChar(9), ToChar(10), ToChar(11), ToChar(12), ToChar(13), ToChar(14), ToChar(15)]
            == "gf2tvdw0"
  {
  }

  lemma {:induction false} ThirdLetters()
    ensures [ToChar(16), ToChar(17), ToChar(18), ToChar(19), ToChar(20), ToChar(21), ToChar(22), ToChar(23)]
            == "s3jn54kh"
  {
  }

  lemma {:induction false} LastLetters()
    ensures [ToChar(24), ToChar(25), ToChar(26), ToChar(27), ToChar(28), ToChar(29), ToChar(30), ToChar(31)]
            == "ce6mua7l"
  {
  }

  /** Only the codes from 65 to 90 change, by 32. */
  lemma {:induction false} LowerCaseIs(c: char)
    ensures LowerCase(c) as int == if 65 <= c as int <= 90 then c as int + 32 else c as int
  {
  }

  /** The decoding table has the same entry for both cases of a letter. */
  function FromChar(c: char): Option<bv5> { FromLower(LowerCase(c)) }

  lemma {:induction false} CharBackLow(v: bv5)
    requires v < 16
    ensures FromLower(ToChar(v)) == Some(v)
  {
  }

  lemma {:induction false} CharBackMiddle(v: bv5)
    requires 16 <= v < 24
    ensures FromLower(ToChar(v)) == Some(v)
  {
  }

  lemma {:induction false} CharBackHigh(v: bv5)
    requires v >= 24
    ensures FromLower(ToChar(v)) == Some(v)
  {
  }

  lemma {:induction false} CharIsPlain(v: bv5)
    ensures ToChar(v) != '1' && !IsUpper(ToChar(v)) && 33 <= ToChar(v) as int <= 126
  {
  }

  lemma {:induction false} CharBack(v: bv5)
    ensures FromChar(ToChar(v)) == Some(v)
  {
    CharIsPlain(v);
    hide ToChar, FromLower;
    if v < 16 { CharBackLow(v); } else if v < 24 { CharBackMiddle(v); } else { CharBackHigh(v); }
  }

  lemma {:induction false} ValueBackLow(c: char)
    requires FromLower(c).Some? && FromLower(c).value < 16
    ensures ToChar(FromLower(c).value) == c
  {
  }

  lemma {:induction false} ValueBackHigh(c: char)
    requires FromLower(c).Some? && FromLower(c).value >= 16
    ensures ToChar(FromLower(c).value) == c
  {
  }

  lemma {:induction false} ValueBack(c: char)
    requires FromChar(c).Some?
    ensures ToChar(FromChar(c).value) == LowerCase(c) && c != '1'
  {
    hide ToChar, FromLower;
    var d := LowerCase(c);
    if FromLower(d).value < 16 { ValueBackLow(d); } else { ValueBackHigh(d); }
    CharIsPlain(FromChar(c).value);
  }

  predicate Printable(s: string) { forall i :: 0 <= i < |s| ==> 33 <= s[i] as int <= 126 }

  predicate NoUpper(s: string) { forall i :: 0 <= i < |s| ==> !(65 <= s[i] as int <= 90) }

  predicate NoLower(s: string) { forall i :: 0 <= i < |s| ==> !(97 <= s[i] as int <= 122) }

  /** Printable characters of a single case. */
  predicate Acceptable(s: string) { Printable(s) && (NoUpper(s) || NoLower(s)) }

  function Lower(s: string): string { seq(|s|, i requires 0 <= i < |s| => LowerCase(s[i])) }

  function ToChars(v: Data): string { seq(|v|, i requires 0 <= i < |v| => ToChar(v[i])) }

  predicate AllValues(s: string) { forall i :: 0 <= i < |s| ==> FromChar(s[i]).Some? }

  function FromChars(s: string): Data
    requires AllValues(s)
  {
    seq(|s|, i requires 0 <= i < |s| => FromChar(s[i]).value)
  }

  /** The indices the scan reports. */
  method CheckCharacters(str: string) returns (errors: seq<nat>)
    ensures errors == [] <==> Acceptable(str)
  {
    errors := [];
    var lower, upper := false, false;
    for i := 0 to |str|
      invariant lower && upper ==> false
      invariant errors == [] ==>
                Printable(str[..i]) && (lower <==> !NoLower(str[..i])) && (upper <==> !NoUpper(str[..i]))
      invariant errors != [] ==> !Acceptable(str[..i])
      invariant lower ==> !NoLower(str[..i])
      invariant upper ==> !NoUpper(str[..i])
    {
      var c := str[i];
      ExtendPrefix(str, i);
      if IsLower(c) {
        if upper { errors := errors + [i]; } else { lower := true; }
      } else if IsUpper(c) {
        if lower { errors := errors + [i]; } else { upper := true; }
      } else if c as int < 33 || c as int > 126 {
        errors := errors + [i];
      }
    }
    assert str[..|str|] == str;
  }

  lemma {:induction false} ExtendPrefix(s: string, i: nat)
    requires i < |s|
    ensures Printable(s[..i + 1]) <==> Printable(s[..i]) && 33 <= s[i] as int <= 126
    ensures NoUpper(s[..i + 1]) <==> NoUpper(s[..i]) && !IsUpper(s[i])
    ensures NoLower(s[..i + 1]) <==> NoLower(s[..i]) && !IsLower(s[i])
  {
    var t := s[..i + 1];
    assert t == s[..i] + [s[i]] && t[i] == s[i];
    assert forall k :: 0 <= k < i ==> s[..i][k] == t[k];
  }

  // ----- Encode -----

  function Encoded(encoding: Encoding, hrp: string, values: Data): string
    requires encoding != INVALID
  {
    hrp + ['1'] + ToChars(values + Checksum(encoding, hrp, values))
  }

  function AddTerm(c: bv32, c0: bv32, bit: bv32, g: bv32): bv32 { if c0 & bit != 0 then c ^ g else c }

  lemma {:induction false} AddTermIs(c: bv32, c0: bv32, bit: bv32, g: bv32)
    ensures AddTerm(c, c0, bit, g) == Xor(c, Term(c0, bit, g))
  {
    hide Xor;
    XorZero(c, 0);
    XorIs(c, g);
  }

  lemma {:induction false} Regroup(a: bv32, p1: bv32, p2: bv32, p3: bv32, p4: bv32, p5: bv32)
    ensures Xor(Xor(Xor(Xor(Xor(a, p1), p2), p3), p4), p5) == Xor(a, Xor(Xor(Xor(Xor(p1, p2), p3), p4), p5))
  {
    hide Xor;
    XorLaws(a, p1, p2);
    XorLaws(a, Xor(p1, p2), p3);
    XorLaws(a, Xor(Xor(p1, p2), p3), p4);
    XorLaws(a, Xor(Xor(Xor(p1, p2), p3), p4), p5);
  }

  lemma {:induction false} NextState(state: bv32, v: bv5)
    ensures ((state & 0x1ffffff) << 5) ^ (v as bv32) == Xor(Shifted(state), v as bv32)
  {
  }

  method PolyModStep(state: bv32, v: bv5) returns (c: bv32)
    ensures c == Step(state, v)
  {
    hide Xor, Term, Shifted, AddTerm;
    var c0 := state >> 25;
    c := ((state & 0x1ffffff) << 5) ^ (v as bv32);
    NextState(state, v);
    Regroup(c, Term(c0, 1, 0x3b6a57b2), Term(c0, 2, 0x26508e6d), Term(c0, 4, 0x1ea119fa),
            Term(c0, 8, 0x3d4233dd), Term(c0, 16, 0x2a1462b3));
    AddTermIs(c, c0, 1, 0x3b6a57b2);
    c := AddTerm(c, c0, 1, 0x3b6a57b2);
    AddTermIs(c, c0, 2, 0x26508e6d);
    c := AddTerm(c, c0, 2, 0x26508e6d);
    AddTermIs(c, c0, 4, 0x1ea119fa);
    c := AddTerm(c, c0, 4, 0x1ea119fa);
    AddTermIs(c, c0, 8, 0x3d4233dd);
    c := AddTerm(c, c0, 8, 0x3d4233dd);
    AddTermIs(c, c0, 16, 0x2a1462b3);
    c := AddTerm(c, c0, 16, 0x2a1462b3);
  }

  method PolyMod(v: Data) returns (c: bv32)
    ensures c == Run(1, v)
  {
    hide Step;
    c := 1;
    for i := 0 to |v|
      invariant c == Run(1, v[..i])
    {
      assert v[..i + 1] == v[..i] + [v[i]];
      RunSnoc(1, v[..i], v[i]);
      c := PolyModStep(c, v[i]);
    }
    assert v[..|v|] == v;
  }

  method CreateChecksum(encoding: Encoding, hrp: string, values: Data) returns (ret: Data)
    requires encoding != INVALID
    ensures ret == Checksum(encoding, hrp, values)
  {
    hide Run, ExpandHRP, GroupAt;
    var enc := ExpandHRP(hrp) + values + Zeros(6);
    var check := PolyMod(enc);
    var mod := check ^ EncodingConstant(encoding);
    XorIs(check, EncodingConstant(encoding));
    ret := [];
    for i := 0 to 6
      invariant ret == Groups(mod)[..i]
    {
      ret := ret + [GroupAt(mod, i)];
    }
  }

  method Encode(encoding: Encoding, hrp: string, values: Data) returns (ret: string)
    requires encoding != INVALID && NoUpper(hrp)
    ensures ret == Encoded(encoding, hrp, values)
  {
    hide Checksum;
    var checksum := CreateChecksum(encoding, hrp, values);
    var combined := values + checksum;
    ret := hrp + ['1'];
    for i := 0 to |combined|
      invariant ret == hrp + ['1'] + ToChars(combined[..i])
    {
      NextChar(combined, i);
      ret := ret + [ToChar(combined[i])];
    }
    assert combined[..|combined|] == combined;
  }

  lemma {:induction false} NextChar(v: Data, i: nat)
    requires i < |v|
    ensures ToChars(v[..i + 1]) == ToChars(v[..i]) + [ToChar(v[i])]
  {
  }

  // ----- Decode -----

  datatype DecodeResult = Failed | Decoded(encoding: Encoding, hrp: string, data: Data)

  /** The position of the last '1', -1 when there is none. */
  function LastOne(s: string): (pos: int)
    ensures -1 <= pos < |s|
  {
    if s == [] then -1 else if s[|s| - 1] == '1' then |s| - 1 else LastOne(s[..|s| - 1])
  }

  function DecodeSpec(str: string): DecodeResult {
    var pos := LastOne(str);
    if !Acceptable(str) || |str| > 90 || pos <= 0 || pos + 7 > |str| || !AllValues(str[pos + 1..]) then Failed
    else
      var hrp, values := Lower(str[..pos]), FromChars(str[pos + 1..]);
      var encoding := VerifyChecksum(hrp, values);
      if encoding == INVALID then Failed else Decoded(encoding, hrp, values[..|values| - 6])
  }

  lemma {:induction false} LastOneAt(s: string, pos: nat)
    requires pos < |s| && s[pos] == '1' && forall i :: pos < i < |s| ==> s[i] != '1'
    ensures LastOne(s) == pos
  {
    if pos < |s| - 1 { LastOneAt(s[..|s| - 1], pos); }
  }

  lemma {:induction false} LastOneIs(s: string)
    ensures var pos := LastOne(s);
            (pos >= 0 ==> s[pos] == '1') && forall i :: pos < i < |s| ==> s[i] != '1'
  {
    if s != [] && s[|s| - 1] != '1' {
      LastOneIs(s[..|s| - 1]);
      assert forall i :: 0 <= i < |s| - 1 ==> s[..|s| - 1][i] == s[i];
    }
  }

  method FindLastOne(s: string) returns (pos: int)
    ensures pos == LastOne(s)
  {
    pos := |s| - 1;
    assert s[..|s|] == s;
    while pos >= 0 && s[pos] != '1'
      invariant -1 <= pos < |s| && LastOne(s) == LastOne(s[..pos + 1])
    {
      assert s[..pos + 1][..pos] == s[..pos];
      pos := pos - 1;
    }
    if pos >= 0 { assert s[..pos + 1][pos] == '1'; }
  }

  method Decode(str: string) returns (r: DecodeResult)
    ensures r == DecodeSpec(str)
  {
    hide Acceptable, AllValues, FromChar, VerifyChecksum, LastOne;
    var errors := CheckCharacters(str);
    if errors != [] {
      return Failed;
    }
    var pos := FindLastOne(str);
    if |str| > 90 || pos == -1 || pos == 0 || pos + 7 > |str| {
      return Failed;
    }
    var values: Data := [];
    ghost var tail := str[pos + 1..];
    NoValues(tail);
    assert values == FromChars(tail[..0]);
    for i := 0 to |str| - 1 - pos
      invariant AllValues(tail[..i]) && values == FromChars(tail[..i])
    {
      var rev := FromChar(str[i + pos + 1]);
      NextValue(tail, i);
      if rev == None {
        return Failed;
      }
      values := values + [rev.value];
    }
    assert tail[..|tail|] == tail;
    var hrp: string := [];
    for i := 0 to pos
      invariant hrp == Lower(str[..i])
    {
      hrp := hrp + [LowerCase(str[i])];
    }
    var result := VerifyChecksum(hrp, values);
    if result == INVALID {
      return Failed;
    }
    r := Decoded(result, hrp, values[..|values| - 6]);
  }

  lemma {:induction false} NoValues(s: string)
    ensures AllValues(s[..0]) && FromChars(s[..0]) == []
  {
  }

  lemma {:induction false} NextValue(s: string, i: nat)
    requires i < |s| && AllValues(s[..i])
    ensures FromChar(s[i]).None? ==> !AllValues(s)
    ensures FromChar(s[i]).Some? ==>
            AllValues(s[..i + 1]) && FromChars(s[..i + 1]) == FromChars(s[..i]) + [FromChar(s[i]).value]
  {
    hide FromChar;
    assert s[..i + 1] == s[..i] + [s[i]];
  }

  // ----- Round trips -----

  lemma {:induction false} CharsBack(v: Data)
    ensures AllValues(ToChars(v)) && FromChars(ToChars(v)) == v
    ensures Printable(ToChars(v)) && NoUpper(ToChars(v)) && forall i :: 0 <= i < |v| ==> ToChars(v)[i] != '1'
  {
    hide ToChar, FromChar;
    forall i | 0 <= i < |v|
      ensures FromChar(ToChars(v)[i]) == Some(v[i]) && 33 <= ToChars(v)[i] as int <= 126 && !IsUpper(ToChars(v)[i])
              && ToChars(v)[i] != '1'
    {
      CharBack(v[i]);
      CharIsPlain(v[i]);
    }
  }

  lemma {:induction false} EncodedParts(hrp: string, tail: string)
    requires forall i :: 0 <= i < |tail| ==> tail[i] != '1'
    ensures var s := hrp + ['1'] + tail;
            LastOne(s) == |hrp| && s[..|hrp|] == hrp && s[|hrp| + 1..] == tail
  {
    LastOneAt(hrp + ['1'] + tail, |hrp|);
  }

  lemma {:induction false} EncodedAcceptable(hrp: string, tail: string)
    requires NoUpper(hrp) && NoUpper(tail) && Printable(tail)
    ensures NoUpper(hrp + ['1'] + tail)
    ensures Printable(hrp + ['1'] + tail) <==> Printable(hrp)
  {
    var s := hrp + ['1'] + tail;
    if Printable(s) { assert forall i :: 0 <= i < |hrp| ==> hrp[i] == s[i]; }
  }

  lemma {:induction false} LowerStays(s: string)
    requires NoUpper(s)
    ensures Lower(s) == s
  {
  }

  /** Decoding an encoding gives the same triple back exactly when the prefix is not empty and printable
      and the whole string keeps the 90-character limit. */
  lemma {:induction false} RoundTrip(encoding: Encoding, hrp: string, values: Data)
    requires encoding != INVALID && NoUpper(hrp)
    ensures DecodeSpec(Encoded(encoding, hrp, values)) == Decoded(encoding, hrp, values)
            <==> |hrp| >= 1 && Printable(hrp) && |hrp| + 7 + |values| <= 90
  {
    hide Printable, NoUpper, NoLower, AllValues, LastOne, Lower, ToChars, FromChars, VerifyChecksum;
    var cs := Checksum(encoding, hrp, values);
    var v := values + cs;
    var tail := ToChars(v);
    var s := Encoded(encoding, hrp, values);
    CharsBack(v);
    CharsLength(v);
    EncodedParts(hrp, tail);
    EncodedAcceptable(hrp, tail);
    LowerStays(hrp);
    ChecksumExact(encoding, hrp, values, cs);
    assert v[..|v| - 6] == values;
  }

  /** A string of 91 characters is encoded, but not decoded. */
  lemma {:induction false} OverlongNotDecoded()
    ensures DecodeSpec(Encoded(BECH32, "a", Zeros(83))) != Decoded(BECH32, "a", Zeros(83))
  {
    assert |Zeros(83)| == 83;
    hide DecodeSpec, Encoded, Zeros;
    RoundTrip(BECH32, "a", Zeros(83));
  }

  lemma {:induction false} CharsLength(v: Data)
    ensures |ToChars(v)| == |v|
  {
  }

  lemma {:induction false} ValuesBack(s: string)
    requires AllValues(s)
    ensures ToChars(FromChars(s)) == Lower(s) && |FromChars(s)| == |s|
  {
    hide ToChar, FromChar;
    forall i | 0 <= i < |s| ensures ToChar(FromChar(s[i]).value) == LowerCase(s[i]) { ValueBack(s[i]); }
  }

  /** Every accepted string is, up to case, the encoding of what it decodes to. */
  lemma {:induction false} AcceptsOnlyEncodings(str: string)
    requires DecodeSpec(str).Decoded?
    ensures var r := DecodeSpec(str);
            r.encoding != INVALID && Encoded(r.encoding, r.hrp, r.data) == Lower(str)
  {
    hide AllValues, LastOne, FromChars, VerifyChecksum, ToChars, Checksum;
    var r := DecodeSpec(str);
    var pos := LastOne(str);
    var tail := str[pos + 1..];
    LastOneIs(str);
    ValuesBack(tail);
    var v := FromChars(tail);
    var cs := v[|v| - 6..];
    assert v == r.data + cs;
    ChecksumExact(r.encoding, r.hrp, r.data, cs);
    assert str == str[..pos] + ['1'] + tail;
    assert Lower(str) == Lower(str[..pos]) + ['1'] + Lower(tail);
  }

  /** Under one encoding and prefix, two accepted lists never differ only within six consecutive values. */
  lemma {:induction false} ChecksumDetectsWindow(hrp: string, u: Data, w: Data, i: nat, j: nat)
    requires |u| == |w| && u != w
    requires i <= j <= |u| && j <= i + 6 && u[..i] == w[..i] && u[j..] == w[j..]
    ensures VerifyChecksum(hrp, u) != INVALID ==> VerifyChecksum(hrp, w) != VerifyChecksum(hrp, u)
  {
    hide Run, ExpandHRP;
    var e := ExpandHRP(hrp);
    var n := |e|;
    assert (e + u)[..n + i] == e + u[..i] && (e + w)[..n + i] == e + w[..i];
    assert (e + u)[n + j..] == u[j..] && (e + w)[n + j..] == w[j..];
    assert (e + u)[n..] == u && (e + w)[n..] == w;
    WindowDetected(e + u, e + w, n + i, n + j);
  }
}
