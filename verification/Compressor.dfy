/** Compression of amounts and scripts in the coin database (src/compressor.h, src/compressor.cpp). */
module Compressor {
  import opened Powers
  import opened VarInt

  const COIN: nat := 1_0000_0000
  const MAX_MONEY: nat := 2_1000_0000 * COIN
  const UINT64_LIMIT: nat := 0x1_0000_0000_0000_0000
  const UINT32_LIMIT: nat := 0x1_0000_0000

  // ----- Amounts -----

  /** Takes off up to nine trailing zeroes. */
  function Strip(n: nat, e: nat): (nat, nat)
    requires e <= 9
    decreases 9 - e
  {
    if n % 10 == 0 && e < 9 then Strip(n / 10, e + 1) else (n, e)
  }

  /** A positive number and the zeroes after it, as many as can be taken off. */
  ghost predicate Normal(m: nat, e: nat) { m > 0 && e <= 9 && (e < 9 ==> m % 10 != 0) }

  function Code(m: nat, e: nat): nat
    requires Normal(m, e)
  {
    if e < 9 then 1 + (m / 10 * 9 + m % 10 - 1) * 10 + e else 1 + (m - 1) * 10 + 9
  }

  function Parts(x: nat): (nat, nat)
    requires x > 0
  {
    var e, y := (x - 1) % 10, (x - 1) / 10;
    if e < 9 then (y / 9 * 10 + y % 9 + 1, e) else (y + 1, e)
  }

  lemma {:induction false} StripNormal(n: nat, e: nat)
    requires n > 0 && e <= 9
    ensures Normal(Strip(n, e).0, Strip(n, e).1)
    ensures Strip(n, e).1 >= e && n == Strip(n, e).0 * Pow(10, Strip(n, e).1 - e)
    decreases 9 - e
  {
    if n % 10 == 0 && e < 9 {
      StripNormal(n / 10, e + 1);
      var (m, f) := Strip(n / 10, e + 1);
      PowNext(10, f - e - 1);
      hide Pow, Normal;
      TenTimes(n, m, Pow(10, f - e - 1));
    }
  }

  lemma {:induction false} TenTimes(n: nat, m: nat, p: nat)
    requires n % 10 == 0 && n / 10 == m * p
    ensures n == m * (10 * p)
  {
    assert n == 10 * (m * p);
  }

  lemma {:induction false} StripUnique(m: nat, e: nat, k: nat)
    requires e + k <= 9 && Normal(m, e + k)
    ensures Strip(m * Pow(10, k), e) == (m, e + k)
    decreases k
  {
    if k > 0 {
      PowNext(10, k - 1);
      StripUnique(m, e + 1, k - 1);
      hide Pow, Normal;
      TenOf(m, Pow(10, k - 1));
    } else {
      PowZero(10, m);
    }
  }

  lemma {:induction false} TenOf(m: nat, p: nat)
    ensures (m * (10 * p)) % 10 == 0 && (m * (10 * p)) / 10 == m * p
  {
    assert m * (10 * p) == 10 * (m * p);
  }

  lemma {:induction false} PowZero(b: nat, m: nat)
    ensures m * Pow(b, 0) == m
  {
  }

  lemma {:induction false} PartsOfCode(m: nat, e: nat)
    requires Normal(m, e)
    ensures Code(m, e) > 0 && Parts(Code(m, e)) == (m, e)
  {
    if e < 9 {
      var y := m / 10 * 9 + m % 10 - 1;
      DivIs(y * 10 + e, 10, y, e);
      DivIs(y, 9, m / 10, m % 10 - 1);
    } else {
      DivIs((m - 1) * 10 + 9, 10, m - 1, 9);
    }
  }

  lemma {:induction false} CodeOfParts(x: nat)
    requires x > 0
    ensures Normal(Parts(x).0, Parts(x).1) && Code(Parts(x).0, Parts(x).1) == x
  {
    var e, y := (x - 1) % 10, (x - 1) / 10;
    if e < 9 { DivIs(y / 9 * 10 + y % 9 + 1, 10, y / 9, y % 9 + 1); }
  }

  ghost function Compressed(n: nat): nat {
    if n == 0 then 0 else
      StripNormal(n, 0);
      Code(Strip(n, 0).0, Strip(n, 0).1)
  }

  ghost function Decompressed(x: nat): nat {
    if x == 0 then 0 else Parts(x).0 * Pow(10, Parts(x).1)
  }

  /** Decompression undoes compression on all naturals. */
  lemma {:induction false} DecompressCompressed(n: nat)
    ensures Decompressed(Compressed(n)) == n
  {
    hide Strip, Code, Parts, Pow;
    if n > 0 {
      StripNormal(n, 0);
      PartsOfCode(Strip(n, 0).0, Strip(n, 0).1);
    }
  }

  /** Compression undoes decompression on all naturals. */
  lemma {:induction false} CompressDecompressed(x: nat)
    ensures Compressed(Decompressed(x)) == x
  {
    hide Strip, Code, Parts;
    if x > 0 {
      CodeOfParts(x);
      var (m, e) := Parts(x);
      StripUnique(m, 0, e);
      PowPositive(10, e);
      MulMonotone(1, m, 1, Pow(10, e));
    }
  }

  /** The codes of round amounts: 0.01 coins, 1 coin, 50 coins and 21 million coins. */
  lemma {:induction false} RoundAmounts()
    ensures Compressed(0) == 0 && Compressed(1) == 1
    ensures Compressed(1_000_000) == 7 && Compressed(100_000_000) == 9
    ensures Compressed(5_000_000_000) == 50 && Compressed(2_100_000_000_000_000) == 21_000_000
  {
    Shortened(1, 0);
    Shortened(1, 6);
    Shortened(1, 8);
    Shortened(5, 9);
    Shortened(2_100_000, 9);
    PowAdd(10, 4, 4);
    assert Pow(10, 0) == 1 && Pow(10, 4) == 10_000 && Pow(10, 6) == 1_000_000 && Pow(10, 9) == 10 * Pow(10, 8);
  }

  lemma {:induction false} Shortened(m: nat, e: nat)
    requires Normal(m, e)
    ensures Compressed(m * Pow(10, e)) == Code(m, e)
  {
    StripUnique(m, 0, e);
    PowPositive(10, e);
    MulMonotone(1, m, 1, Pow(10, e));
  }

  /** The two results of CompressAmount, on 64 bits. */
  lemma {:induction false} CodeOn64Bits(m: nat, e: nat)
    requires Normal(m, e) && m < UINT64_LIMIT
    ensures e < 9 ==>
      (1 + (m / 10 * 9 + m % 10 - 1) * 10 % UINT64_LIMIT + e) % UINT64_LIMIT == Code(m, e) % UINT64_LIMIT
    ensures e == 9 ==>
      (1 + (m - 1) * 10 % UINT64_LIMIT + 9) % UINT64_LIMIT == Code(m, e) % UINT64_LIMIT
  {
    var y := if e < 9 then (m / 10 * 9 + m % 10 - 1) * 10 else (m - 1) * 10;
    assert Code(m, e) == 1 + y + e;
    hide Code, Normal;
    WrapSum(y, 1 + e);
  }

  lemma {:induction false} Within64Bits(v: nat)
    requires v < UINT64_LIMIT
    ensures v % UINT64_LIMIT == v
  {
  }

  lemma {:induction false} WrapSum(a: nat, b: nat)
    ensures (a % UINT64_LIMIT + b) % UINT64_LIMIT == (a + b) % UINT64_LIMIT
  {
    var q, v := a / UINT64_LIMIT, a % UINT64_LIMIT + b;
    DivBounds(v, UINT64_LIMIT);
    DivIs(a + b, UINT64_LIMIT, q + v / UINT64_LIMIT, v % UINT64_LIMIT);
  }

  /** The code on 64 bits: it wraps for some amounts far out of range, and for none in range. */
  method CompressAmount(amount: nat) returns (x: nat)
    requires amount < UINT64_LIMIT
    ensures x == Compressed(amount) % UINT64_LIMIT
    ensures amount <= MAX_MONEY ==> x == Compressed(amount)
  {
    hide Code, Compressed;
    if amount <= MAX_MONEY {
      CompressedFits(amount);
      Within64Bits(Compressed(amount));
    }
    if amount == 0 {
      CompressedIs(0);
      return 0;
    }
    CompressedIs(amount);
    hide Strip, Normal;
    var n, e := TakeOffZeroes(amount);
    x := Combine(n, e);
  }

  method Combine(m: nat, e: nat) returns (x: nat)
    requires Normal(m, e) && m < UINT64_LIMIT
    ensures x == Code(m, e) % UINT64_LIMIT
  {
    CodeOn64Bits(m, e);
    hide Code;
    if e < 9 {
      var d, n := m % 10, m / 10;
      x := (1 + (n * 9 + d - 1) * 10 % UINT64_LIMIT + e) % UINT64_LIMIT;
    } else {
      x := (1 + (m - 1) * 10 % UINT64_LIMIT + 9) % UINT64_LIMIT;
    }
  }

  method TakeOffZeroes(amount: nat) returns (n: nat, e: nat)
    requires amount > 0
    ensures (n, e) == Strip(amount, 0) && 0 < n <= amount && e <= 9
  {
    n, e := amount, 0;
    while n % 10 == 0 && e < 9
      invariant 0 <= e <= 9 && 0 < n <= amount
      invariant Strip(n, e) == Strip(amount, 0)
    {
      n := n / 10;
      e := e + 1;
    }
  }

  lemma {:induction false} CompressedIs(n: nat)
    ensures n == 0 ==> Compressed(n) == 0
    ensures n > 0 ==> Normal(Strip(n, 0).0, Strip(n, 0).1) && Compressed(n) == Code(Strip(n, 0).0, Strip(n, 0).1)
  {
    if n > 0 { StripNormal(n, 0); }
  }

  /** The largest 64-bit number is beyond what the code can hold. */
  lemma {:induction false} LargestAmountWraps()
    ensures Compressed(UINT64_LIMIT - 1) >= UINT64_LIMIT
  {
  }

  lemma {:induction false} WrapTimesTen(v: nat, n: nat, p: nat)
    requires v == (n * p) % UINT64_LIMIT
    ensures (v * 10) % UINT64_LIMIT == (n * (10 * p)) % UINT64_LIMIT
  {
    var q, w := (n * p) / UINT64_LIMIT, v * 10;
    DivBounds(n * p, UINT64_LIMIT);
    DivBounds(w, UINT64_LIMIT);
    assert n * (10 * p) == (n * p) * 10;
    DivIs(n * (10 * p), UINT64_LIMIT, 10 * q + w / UINT64_LIMIT, w % UINT64_LIMIT);
  }

  /** On 64 bits the multiplications wrap, which no amount in range meets. */
  method DecompressAmount(code: nat) returns (n: nat)
    requires code < UINT64_LIMIT
    ensures n == Decompressed(code) % UINT64_LIMIT
  {
    if code == 0 {
      return 0;
    }
    ghost var (m, e0) := Parts(code);
    var x := code - 1;
    var e := x % 10;
    x := x / 10;
    if e < 9 {
      var d := x % 9 + 1;
      x := x / 9;
      n := x * 10 + d;
    } else {
      n := x + 1;
    }
    hide Parts;
    assert n == m < UINT64_LIMIT && e == e0;
    assert Pow(10, 0) == 1;
    while e > 0
      invariant 0 <= e <= e0
      invariant n == (m * Pow(10, e0 - e)) % UINT64_LIMIT
    {
      WrapTimesTen(n, m, Pow(10, e0 - e));
      PowNext(10, e0 - e);
      n := (n * 10) % UINT64_LIMIT;
      e := e - 1;
    }
  }

  // ----- Scripts -----

  const OP_RETURN: Byte := 0x6a
  const OP_DUP: Byte := 0x76
  const OP_EQUAL: Byte := 0x87
  const OP_EQUALVERIFY: Byte := 0x88
  const OP_HASH160: Byte := 0xa9
  const OP_CHECKSIG: Byte := 0xac
  const MAX_SCRIPT_SIZE: nat := 10000
  const SPECIAL_SCRIPTS: nat := 6

  type Script = seq<Byte>

  /** The public-key functions of the curve library. */
  datatype Curve = Curve(isFullyValid: seq<Byte> -> bool, decompress: seq<Byte> -> Option<seq<Byte>>)

  /** Decompression finds the full key of every valid one from its x coordinate and the parity of y, and
      finds only such keys for one of 33 bytes. */
  ghost predicate Correct(c: Curve) {
    && (forall k: seq<Byte> :: |k| == 65 && k[0] == 4 && c.isFullyValid(k) ==> c.decompress(ShortKey(k)) == Some(k))
    && (forall k: seq<Byte> :: |k| == 33 && c.decompress(k).Some? ==> IsFullKeyOf(c, c.decompress(k).value, k))
  }

  ghost predicate IsFullKeyOf(c: Curve, full: seq<Byte>, short: seq<Byte>) {
    |full| == 65 && full[0] == 4 && c.isFullyValid(full) && ShortKey(full) == short
  }

  ghost function ShortKey(k: seq<Byte>): seq<Byte>
    requires |k| == 65
  {
    [2 + k[64] % 2] + k[1..33]
  }

  predicate IsToKeyID(s: Script) {
    |s| == 25 && s[0] == OP_DUP && s[1] == OP_HASH160 && s[2] == 20 && s[23] == OP_EQUALVERIFY && s[24] == OP_CHECKSIG
  }

  predicate IsToScriptID(s: Script) { |s| == 23 && s[0] == OP_HASH160 && s[1] == 20 && s[22] == OP_EQUAL }

  predicate IsToShortKey(s: Script) {
    |s| == 35 && s[0] == 33 && s[34] == OP_CHECKSIG && (s[1] == 0x02 || s[1] == 0x03)
  }

  predicate IsToFullKey(c: Curve, s: Script) {
    |s| == 67 && s[0] == 65 && s[66] == OP_CHECKSIG && s[1] == 0x04 && c.isFullyValid(s[1..66])
  }

  function CompressScript(c: Curve, s: Script): Option<seq<Byte>> {
    if IsToKeyID(s) then Some([0x00] + s[3..23])
    else if IsToScriptID(s) then Some([0x01] + s[2..22])
    else if IsToShortKey(s) then Some([s[1]] + s[2..34])
    else if IsToFullKey(c, s) then Some([0x04 + s[65] % 2] + s[2..34])
    else None
  }

  function GetSpecialScriptSize(nSize: nat): nat {
    if nSize == 0 || nSize == 1 then 20 else if nSize == 2 || nSize == 3 || nSize == 4 || nSize == 5 then 32 else 0
  }

  function DecompressScript(c: Curve, nSize: nat, data: seq<Byte>): Option<Script> {
    if nSize == 0 then Some([OP_DUP, OP_HASH160, 20] + data + [OP_EQUALVERIFY, OP_CHECKSIG])
    else if nSize == 1 then Some([OP_HASH160, 20] + data + [OP_EQUAL])
    else if nSize == 2 || nSize == 3 then Some([33, nSize] + data + [OP_CHECKSIG])
    else if nSize == 4 || nSize == 5 then
      match c.decompress([nSize - 2] + data) {
        case Some(key) => Some([65] + key + [OP_CHECKSIG])
        case None => None
      }
    else None
  }

  /** A special form starts with its tag, has the tag's length and decompresses to the script. */
  lemma {:induction false} SpecialBack(c: Curve, s: Script)
    requires Correct(c) && CompressScript(c, s).Some?
    ensures var z := CompressScript(c, s).value;
            && |z| > 0 && z[0] < SPECIAL_SCRIPTS && |z| == 1 + GetSpecialScriptSize(z[0])
            && DecompressScript(c, z[0], z[1..]) == Some(s)
  {
    var z := CompressScript(c, s).value;
    if IsToKeyID(s) {
      assert s == [OP_DUP, OP_HASH160, 20] + z[1..] + [OP_EQUALVERIFY, OP_CHECKSIG];
    } else if IsToScriptID(s) {
      assert s == [OP_HASH160, 20] + z[1..] + [OP_EQUAL];
    } else if IsToShortKey(s) {
      assert s == [33, s[1]] + z[1..] + [OP_CHECKSIG];
    } else {
      FullKeyForm(s);
      assert z[1..] == s[2..34];
    }
  }

  lemma {:induction false} FullKeyForm(s: Script)
    requires |s| == 67 && s[0] == 65 && s[66] == OP_CHECKSIG
    ensures ShortKey(s[1..66]) == [2 + s[65] % 2] + s[2..34]
    ensures s == [65] + s[1..66] + [OP_CHECKSIG]
  {
    var key := s[1..66];
    assert key[64] == s[65];
    assert key[1..33] == s[2..34];
  }

  /** The special forms byte by byte: for a key hash, a script hash, a compressed and a full public key. */
  lemma {:induction false} SpecialForms(c: Curve, hash: seq<Byte>, x: seq<Byte>, parity: Byte, key: seq<Byte>)
    requires |hash| == 20 && |x| == 32 && parity < 2 && |key| == 65 && key[0] == 4 && c.isFullyValid(key)
    ensures CompressScript(c, [0x76, 0xa9, 0x14] + hash + [0x88, 0xac]) == Some([0x00] + hash)
    ensures CompressScript(c, [0xa9, 0x14] + hash + [0x87]) == Some([0x01] + hash)
    ensures CompressScript(c, [0x21, 0x02 + parity] + x + [0xac]) == Some([0x02 + parity] + x)
    ensures CompressScript(c, [0x41] + key + [0xac]) == Some([0x04 + key[64] % 2] + key[1..33])
  {
    var s, t: Script := [0x76, 0xa9, 0x14] + hash + [0x88, 0xac], [0xa9, 0x14] + hash + [0x87];
    assert s[3..23] == hash && t[2..22] == hash;
    var u, v: Script := [0x21, 0x02 + parity] + x + [0xac], [0x41] + key + [0xac];
    assert u[2..34] == x && v[1..66] == key && v[2..34] == key[1..33];
  }

  /** Any other script is written after its length plus six, in full. */
  lemma {:induction false} PlainForm(c: Curve, s: Script)
    requires CompressScript(c, s) == None && |s| + 6 < 0x1_0000_0000
    ensures Written(c, s) == Encoded(|s| + 6) + s
  {
    hide CompressScript, Encoded;
  }

  /** The bytes a script is written as; the length goes through a 32-bit variable. */
  function Written(c: Curve, s: Script): seq<Byte> {
    match CompressScript(c, s)
    case Some(z) => z
    case None => Encoded((|s| + SPECIAL_SCRIPTS) % UINT32_LIMIT) + s
  }

  /** What reading a script from the stream gives: the script and the rest, or a failure at its end. */
  function Taken(c: Curve, before: Script, data: seq<Byte>): Option<(Script, seq<Byte>)> {
    match Read(data, 0, UINT32_LIMIT - 1)
    case None => None
    case Some((nSize, t)) =>
      if nSize < SPECIAL_SCRIPTS then
        var k := GetSpecialScriptSize(nSize);
        if |t| < k then None
        else Some((match DecompressScript(c, nSize, t[..k]) case Some(s) => s case None => before, t[k..]))
      else
        var n := nSize - SPECIAL_SCRIPTS;
        if |t| < n then None
        else if n > MAX_SCRIPT_SIZE then Some((before + [OP_RETURN], t[n..]))
        else Some((t[..n], t[n..]))
  }

  lemma {:induction false} FullKeyForward(c: Curve, key: seq<Byte>, tag: Byte, data: seq<Byte>)
    requires 4 <= tag <= 5 && |data| == 32 && IsFullKeyOf(c, key, [tag - 2] + data)
    ensures CompressScript(c, [65] + key + [OP_CHECKSIG]) == Some([tag] + data)
  {
    var s: Script := [65] + key + [OP_CHECKSIG];
    assert s[1..66] == key && s[65] == key[64];
    assert ShortKey(key)[0] == tag - 2 && ShortKey(key)[1..] == key[1..33] == s[2..34];
  }

  /** What a special form decompresses to has that special form: no other script shares it, and every script
      that has one is found. */
  lemma {:induction false} SpecialForward(c: Curve, tag: Byte, data: seq<Byte>)
    requires Correct(c) && tag < SPECIAL_SCRIPTS && |data| == GetSpecialScriptSize(tag)
    requires DecompressScript(c, tag, data).Some?
    ensures CompressScript(c, DecompressScript(c, tag, data).value) == Some([tag] + data)
  {
    var s := DecompressScript(c, tag, data).value;
    if tag == 0 {
      assert s[3..23] == data;
    } else if tag == 1 {
      assert s[2..22] == data;
    } else if tag <= 3 {
      assert s[2..34] == data;
    } else {
      var key := c.decompress([tag - 2] + data).value;
      assert IsFullKeyOf(c, key, [tag - 2] + data);
      FullKeyForward(c, key, tag, data);
    }
  }

  lemma {:induction false} TakenSpecial(c: Curve, before: Script, z: seq<Byte>, s: Script, t: seq<Byte>)
    requires |z| > 0 && z[0] < SPECIAL_SCRIPTS && |z| == 1 + GetSpecialScriptSize(z[0])
    requires DecompressScript(c, z[0], z[1..]) == Some(s)
    ensures Taken(c, before, z + t) == Some((s, t))
  {
    hide DecompressScript, GetSpecialScriptSize;
    var k := GetSpecialScriptSize(z[0]);
    var u := z[1..] + t;
    assert Encoded(z[0]) == [z[0]];
    assert z + t == Encoded(z[0]) + u;
    ReadWritten(z[0], u, UINT32_LIMIT - 1);
    assert u[..k] == z[1..] && u[k..] == t;
  }

  lemma {:induction false} TakenPlain(c: Curve, before: Script, s: Script, t: seq<Byte>)
    requires |s| + SPECIAL_SCRIPTS < UINT32_LIMIT
    ensures Taken(c, before, Encoded(|s| + SPECIAL_SCRIPTS) + s + t)
            == Some((if |s| > MAX_SCRIPT_SIZE then before + [OP_RETURN] else s, t))
  {
    hide DecompressScript, GetSpecialScriptSize, Encoded;
    var n := |s| + SPECIAL_SCRIPTS;
    assert Encoded(n) + s + t == Encoded(n) + (s + t);
    ReadWritten(n, s + t, UINT32_LIMIT - 1);
    assert (s + t)[..|s|] == s && (s + t)[|s|..] == t;
  }

  /** Reading undoes writing exactly for the scripts up to the size limit; longer ones come back as OP_RETURN. */
  lemma {:induction false} ScriptRoundTrip(c: Curve, before: Script, s: Script, t: seq<Byte>)
    requires Correct(c) && |s| + SPECIAL_SCRIPTS < UINT32_LIMIT
    ensures Taken(c, before, Written(c, s) + t) == Some((if |s| > 10000 then before + [0x6a] else s, t))
  {
    hide Taken, Correct;
    if CompressScript(c, s).Some? {
      SpecialBack(c, s);
      TakenSpecial(c, before, CompressScript(c, s).value, s, t);
    } else {
      TakenPlain(c, before, s, t);
    }
  }

  // ----- On the stream -----

  class DataStream {
    var data: seq<Byte>

    constructor ()
      ensures data == []
    {
      data := [];
    }

    method SerScript(c: Curve, script: Script)
      modifies this
      ensures data == old(data) + Written(c, script)
    {
      var compr := CompressScript(c, script);
      if compr.Some? {
        data := data + compr.value;
        return;
      }
      var nSize := (|script| + SPECIAL_SCRIPTS) % UINT32_LIMIT;
      Pow2Of32Bits();
      var size := WriteVarInt(nSize, 32);
      assert data + size + script == data + (size + script);
      data := data + size;
      data := data + script;
    }

    /** Fails at the end of the stream; the script is left as it was when its key does not decompress. */
    method UnserScript(c: Curve, before: Script) returns (r: Option<Script>)
      modifies this
      ensures r.Some? <==> Taken(c, before, old(data)).Some?
      ensures r.Some? ==> Taken(c, before, old(data)) == Some((r.value, data))
    {
      hide DecompressScript, GetSpecialScriptSize;
      var read := ReadVarInt(data, UINT32_LIMIT - 1);
      if read == None {
        return None;
      }
      var nSize := read.value.0;
      data := read.value.1;
      if nSize < SPECIAL_SCRIPTS {
        var k := GetSpecialScriptSize(nSize);
        if |data| < k {
          return None;
        }
        var vch := data[..k];
        data := data[k..];
        var script := DecompressScript(c, nSize, vch);
        return Some(if script.Some? then script.value else before);
      }
      nSize := nSize - SPECIAL_SCRIPTS;
      if |data| < nSize {
        return None;
      }
      if nSize > MAX_SCRIPT_SIZE {
        r := Some(before + [OP_RETURN]);
      } else {
        r := Some(data[..nSize]);
      }
      data := data[nSize..];
    }

    method SerAmount(amount: nat)
      requires amount < UINT64_LIMIT
      modifies this
      ensures data == old(data) + Encoded(Compressed(amount) % UINT64_LIMIT)
    {
      hide Compressed, Encoded;
      var x := CompressAmount(amount);
      Pow2Of64Bits();
      var bytes := WriteVarInt(x, 64);
      data := data + bytes;
    }

    method UnserAmount() returns (r: Option<nat>)
      modifies this
      ensures r.Some? <==> Read(old(data), 0, UINT64_LIMIT - 1).Some?
      ensures r.Some? ==>
        var (x, rest) := Read(old(data), 0, UINT64_LIMIT - 1).value;
        data == rest && r.value == Decompressed(x) % UINT64_LIMIT
    {
      hide Decompressed;
      var read := ReadVarInt(data, UINT64_LIMIT - 1);
      if read == None {
        return None;
      }
      ReadFits(data, 0, UINT64_LIMIT - 1);
      data := read.value.1;
      var n := DecompressAmount(read.value.0);
      r := Some(n);
    }
  }

  lemma {:induction false} Pow2Of32Bits()
    ensures Pow2(32) == UINT32_LIMIT
  {
    PowAdd(2, 4, 4);
    PowAdd(2, 8, 8);
    PowAdd(2, 16, 16);
  }

  lemma {:induction false} Pow2Of64Bits()
    ensures Pow2(64) == UINT64_LIMIT
  {
    Pow2Of32Bits();
    Pow2Add(32, 32);
  }

  /** An output written and read back: amounts in range and scripts within the limit come back unchanged. */
  method TxOutRoundTrip(c: Curve, amount: nat, script: Script, before: Script, s: DataStream)
    returns (back: nat, script': Script)
    requires Correct(c) && amount <= MAX_MONEY && |script| <= MAX_SCRIPT_SIZE
    requires s.data == []
    modifies s
    ensures back == amount && script' == script && s.data == []
  {
    hide Taken, Written, Correct, Encoded, Compressed, Decompressed;
    CompressedFits(amount);
    s.SerAmount(amount);
    s.SerScript(c, script);
    assert s.data == Encoded(Compressed(amount)) + Written(c, script);
    ReadWritten(Compressed(amount), Written(c, script), UINT64_LIMIT - 1);
    DecompressCompressed(amount);
    var n := s.UnserAmount();
    assert s.data == Written(c, script) + [];
    ScriptRoundTrip(c, before, script, []);
    var r := s.UnserScript(c, before);
    back, script' := n.value, r.value;
  }

  lemma {:induction false} CompressedFits(amount: nat)
    requires amount <= MAX_MONEY
    ensures Compressed(amount) < UINT64_LIMIT
  {
    if amount > 0 {
      StripNormal(amount, 0);
      var (m, e) := Strip(amount, 0);
      PowPositive(10, e);
      MulMonotone(m, m, 1, Pow(10, e));
    }
  }
}
