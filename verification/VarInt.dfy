/** The variable-length integers of src/serialize.h. */
module VarInt {
  import opened Powers

  type Byte = x: nat | x < 256

  datatype Option<T> = None | Some(value: T)

  /** Base-128 digits, the highest first; all but the last of the whole number carry the 0x80 mark,
      and one is taken off at each step so that no number has two encodings. */
  function Head(n: nat, marked: bool): seq<Byte> {
    if n <= 0x7f then [n + if marked then 0x80 else 0]
    else Head(n / 0x80 - 1, true) + [n % 0x80 + if marked then 0x80 else 0]
  }

  function Encoded(n: nat): seq<Byte> { Head(n, false) }

  /** Reads on with `n` already gathered; fails at the end of the stream or above `max`. */
  function Read(s: seq<Byte>, n: nat, max: nat): Option<(nat, seq<Byte>)>
    decreases |s|
  {
    if s == [] || n > max / 0x80 then None
    else
      var n' := n * 0x80 + s[0] % 0x80;
      if s[0] >= 0x80 then if n' == max then None else Read(s[1..], n' + 1, max)
      else Some((n', s[1..]))
  }

  lemma {:induction false} ReadOne(b: Byte, t: seq<Byte>, n: nat, max: nat)
    requires n <= max / 0x80
    ensures var n' := n * 0x80 + b % 0x80;
            Read([b] + t, n, max) == if b < 0x80 then Some((n', t)) else if n' == max then None
              else Read(t, n' + 1, max)
  {
    assert ([b] + t)[1..] == t;
  }

  lemma {:induction false} HeadIs(n: nat, marked: bool)
    ensures var mark: nat := if marked then 0x80 else 0;
            Head(n, marked) == if n <= 0x7f then [n + mark] else Head(n / 0x80 - 1, true) + [n % 0x80 + mark]
  {
  }

  lemma {:induction false} ReadHead(m: nat, t: seq<Byte>, max: nat)
    requires m < max
    ensures Read(Head(m, true) + t, 0, max) == Read(t, m + 1, max)
  {
    hide Read, Head;
    HeadIs(m, true);
    if m <= 0x7f {
      ReadOne(m + 0x80, t, 0, max);
    } else {
      var b: Byte := m % 0x80 + 0x80;
      ReadHead(m / 0x80 - 1, [b] + t, max);
      assert Head(m, true) + t == Head(m / 0x80 - 1, true) + ([b] + t);
      ReadOne(b, t, m / 0x80, max);
    }
  }

  /** Reading gives back every written number within the type, and leaves the rest of the stream. */
  lemma {:induction false} ReadWritten(n: nat, t: seq<Byte>, max: nat)
    requires n <= max
    ensures Read(Encoded(n) + t, 0, max) == Some((n, t))
  {
    hide Read, Head;
    HeadIs(n, false);
    if n <= 0x7f {
      ReadOne(n, t, 0, max);
    } else {
      var b: Byte := n % 0x80;
      ReadHead(n / 0x80 - 1, [b] + t, max);
      assert Encoded(n) + t == Head(n / 0x80 - 1, true) + ([b] + t);
      ReadOne(b, t, n / 0x80, max);
    }
  }

  /** The bytes read for a number in progress. */
  function Gathered(n: nat): seq<Byte> { if n == 0 then [] else Head(n - 1, true) }

  lemma {:induction false} GatheredNext(n: nat, b: Byte)
    ensures var n' := n * 0x80 + b % 0x80;
            (b >= 0x80 ==> Gathered(n' + 1) == Gathered(n) + [b]) && (b < 0x80 ==> Encoded(n') == Gathered(n) + [b])
  {
  }

  lemma {:induction false} ReadIsEncoded(s: seq<Byte>, n: nat, max: nat)
    requires Read(s, n, max).Some?
    ensures var (v, rest) := Read(s, n, max).value; Gathered(n) + s == Encoded(v) + rest
    decreases |s|
  {
    var b := s[0];
    var n' := n * 0x80 + b % 0x80;
    GatheredNext(n, b);
    hide Head;
    assert Gathered(n) + s == (Gathered(n) + [b]) + s[1..];
    if b >= 0x80 {
      ReadIsEncoded(s[1..], n' + 1, max);
    }
  }

  /** Every number has exactly one encoding: what is read is what writing the number gives. */
  lemma {:induction false} OneEncoding(s: seq<Byte>, max: nat)
    requires Read(s, 0, max).Some?
    ensures var (v, rest) := Read(s, 0, max).value; s == Encoded(v) + rest
  {
    ReadIsEncoded(s, 0, max);
  }

  /** The examples of the format. */
  lemma {:induction false} Examples()
    ensures Encoded(0) == [0x00] && Encoded(1) == [0x01] && Encoded(127) == [0x7F]
    ensures Encoded(128) == [0x80, 0x00] && Encoded(255) == [0x80, 0x7F] && Encoded(256) == [0x81, 0x00]
    ensures Encoded(16383) == [0xFE, 0x7F] && Encoded(16384) == [0xFF, 0x00] && Encoded(16511) == [0xFF, 0x7F]
    ensures Encoded(65535) == [0x82, 0xFE, 0x7F]
    ensures Encoded(0x1_0000_0000) == [0x8E, 0xFE, 0xFE, 0xFF, 0x00]
  {
    LongExample();
    assert Encoded(65535) == Head(510, true) + [0x7F] == [0x82, 0xFE] + [0x7F];
  }

  lemma {:induction false} LongExample()
    ensures Encoded(0x1_0000_0000) == [0x8E, 0xFE, 0xFE, 0xFF, 0x00]
  {
    HeadIs(0x1_0000_0000, false);
    HeadIs(0x1ff_ffff, true);
    HeadIs(0x3_fffe, true);
    HeadIs(0x7fe, true);
    HeadIs(0xe, true);
    hide Head;
  }

  /** What is read fits the type. */
  lemma {:induction false} ReadFits(s: seq<Byte>, n: nat, max: nat)
    requires Read(s, n, max).Some? && max % 0x80 == 0x7f
    ensures Read(s, n, max).value.0 <= max
    decreases |s|
  {
    if s[0] >= 0x80 { ReadFits(s[1..], n * 0x80 + s[0] % 0x80 + 1, max); }
  }

  lemma {:induction false} HeadLength(n: nat, marked: bool, k: nat)
    requires k > 0 && n < Pow(0x80, k)
    ensures |Head(n, marked)| <= k
  {
    if n > 0x7f {
      PowNext(0x80, k - 1);
      assert Pow(0x80, 0) == 1;
      HeadLength(n / 0x80 - 1, true, k - 1);
    }
  }

  /** The bytes the writer's buffer has room for. */
  function BufferSize(bits: nat): nat { (bits + 6) / 7 }

  lemma {:induction false} BufferSuffices(n: nat, bits: nat)
    requires bits > 0 && n < Pow2(bits)
    ensures |Encoded(n)| <= BufferSize(bits)
  {
    var k := BufferSize(bits);
    Pow2Monotone(bits, 7 * k);
    PowPow(2, 7, k);
    assert Pow(2, 7) == 0x80 by { PowAdd(2, 4, 3); }
    HeadLength(n, false, k);
  }

  function Reversed(s: seq<Byte>): seq<Byte> { if s == [] then [] else [s[|s| - 1]] + Reversed(s[..|s| - 1]) }

  method WriteVarInt(value: nat, bits: nat) returns (os: seq<Byte>)
    requires bits > 0 && value < Pow2(bits)
    ensures os == Encoded(value)
  {
    hide Pow2, Head, Reversed;
    BufferSuffices(value, bits);
    NothingReversed();
    var tmp := new Byte[BufferSize(bits)](_ => 0);
    var len: nat, n: nat := 0, value;
    assert tmp[..0] == [];
    while n > 0x7f
      invariant len + |Head(n, len > 0)| <= tmp.Length
      invariant Encoded(value) == Head(n, len > 0) + Reversed(tmp[..len])
      decreases n
    {
      ghost var t: seq<Byte> := tmp[..len];
      WriteStep(n, len > 0, t);
      var b: Byte := n % 0x80 + if len > 0 then 0x80 else 0;
      tmp[len] := b;
      assert tmp[..len + 1] == t + [b];
      n := n / 0x80 - 1;
      len := len + 1;
    }
    ghost var t: seq<Byte> := tmp[..len];
    WriteLast(n, len > 0, t);
    var b: Byte := n + if len > 0 then 0x80 else 0;
    tmp[len] := b;
    assert tmp[..len + 1] == t + [b];
    os := Emit(tmp[..len + 1]);
  }

  /** The buffer goes out from its last byte to its first. */
  method Emit(tmp: seq<Byte>) returns (os: seq<Byte>)
    ensures os == Reversed(tmp)
  {
    os := [];
    var len := |tmp|;
    assert tmp[..len] == tmp;
    while len > 0
      invariant 0 <= len <= |tmp|
      invariant Reversed(tmp) == os + Reversed(tmp[..len])
    {
      len := len - 1;
      assert tmp[..len + 1][..len] == tmp[..len];
      os := os + [tmp[len]];
    }
  }

  lemma {:induction false} NothingReversed()
    ensures Reversed([]) == []
  {
  }

  lemma {:induction false} WriteStep(n: nat, marked: bool, t: seq<Byte>)
    requires n > 0x7f
    ensures var b: Byte := n % 0x80 + if marked then 0x80 else 0;
            && |Head(n, marked)| == |Head(n / 0x80 - 1, true)| + 1
            && Head(n, marked) + Reversed(t) == Head(n / 0x80 - 1, true) + Reversed(t + [b])
  {
    var b: Byte := n % 0x80 + if marked then 0x80 else 0;
    assert (t + [b])[..|t|] == t;
  }

  lemma {:induction false} WriteLast(n: nat, marked: bool, t: seq<Byte>)
    requires n <= 0x7f
    ensures var b: Byte := n + if marked then 0x80 else 0;
            |Head(n, marked)| == 1 && Head(n, marked) + Reversed(t) == Reversed(t + [b])
  {
    var b: Byte := n + if marked then 0x80 else 0;
    assert (t + [b])[..|t|] == t;
  }

  method ReadVarInt(s: seq<Byte>, max: nat) returns (r: Option<(nat, seq<Byte>)>)
    ensures r == Read(s, 0, max)
  {
    var n: nat, stream := 0, s;
    while true
      invariant Read(s, 0, max) == Read(stream, n, max)
      decreases |stream|
    {
      if stream == [] {
        return None;
      }
      var chData := stream[0];
      stream := stream[1..];
      if n > max / 0x80 {
        return None;
      }
      n := n * 0x80 + chData % 0x80;
      if chData >= 0x80 {
        if n == max {
          return None;
        }
        n := n + 1;
      } else {
        return Some((n, stream));
      }
    }
  }
}
