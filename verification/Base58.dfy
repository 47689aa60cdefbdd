/** Base58 (src/base58.cpp): both codecs with their buffers, their round trips, and the checked form. */
module Base58 {
  import opened Powers
  import opened Digits

  type Byte = x: nat | x < 256

  datatype Option<T> = None | Some(value: T)

  // ----- The alphabet -----

  const DIGITS := "123456789"
  const UPPER_A := "ABCDEFGH"
  const UPPER_J := "JKLMN"
  const UPPER_P := "PQRSTUVWXYZ"
  const LOWER_A := "abcdefghijk"
  const LOWER_M := "mnopqrstuvwxyz"

  /** All alphanumeric characters except "0", "I", "O" and "l". */
  const ALPHABET: string := DIGITS + UPPER_A + UPPER_J + UPPER_P + LOWER_A + LOWER_M

  /** The digit of a character, -1 for the characters outside the alphabet. */
  function MapBase58(c: char): int {
    if '1' <= c <= '9' then c as int - '1' as int
    else if 'A' <= c <= 'H' then 9 + (c as int - 'A' as int)
    else if 'J' <= c <= 'N' then 17 + (c as int - 'J' as int)
    else if 'P' <= c <= 'Z' then 22 + (c as int - 'P' as int)
    else if 'a' <= c <= 'k' then 33 + (c as int - 'a' as int)
    else if 'm' <= c <= 'z' then 44 + (c as int - 'm' as int)
    else -1
  }

  lemma {:induction false} Chunks()
    ensures forall d :: 0 <= d < 9 ==> MapBase58(DIGITS[d]) == d
    ensures forall d :: 0 <= d < 8 ==> MapBase58(UPPER_A[d]) == 9 + d
    ensures forall d :: 0 <= d < 5 ==> MapBase58(UPPER_J[d]) == 17 + d
    ensures forall d :: 0 <= d < 11 ==> MapBase58(UPPER_P[d]) == 22 + d
    ensures forall d :: 0 <= d < 11 ==> MapBase58(LOWER_A[d]) == 33 + d
    ensures forall d :: 0 <= d < 14 ==> MapBase58(LOWER_M[d]) == 44 + d
  {
  }

  lemma {:induction false} DigitOfChar(d: nat)
    requires d < 58
    ensures |ALPHABET| == 58 && MapBase58(ALPHABET[d]) == d
  {
    Chunks();
    hide MapBase58;
    var c := ALPHABET[d];
    if d < 9 { assert c == DIGITS[d]; }
    else if d < 17 { assert c == UPPER_A[d - 9]; }
    else if d < 22 { assert c == UPPER_J[d - 17]; }
    else if d < 33 { assert c == UPPER_P[d - 22]; }
    else if d < 44 { assert c == LOWER_A[d - 33]; }
    else { assert c == LOWER_M[d - 44]; }
  }

  /** The alphabet is the digits and letters in the order of their codes, but for 0, O, I and l. */
  lemma {:induction false} AlphabetIs(c: char)
    ensures MapBase58(c) >= 0
            <==> ('0' <= c <= '9' || 'A' <= c <= 'Z' || 'a' <= c <= 'z') && c != '0' && c != 'O' && c != 'I' && c != 'l'
    ensures forall d: char :: MapBase58(c) >= 0 && MapBase58(d) >= 0 ==> (c < d <==> MapBase58(c) < MapBase58(d))
  {
  }

  lemma {:induction false} MapInjective(a: char, b: char)
    requires MapBase58(a) == MapBase58(b) >= 0
    ensures a == b && MapBase58(a) < 58
  {
    assert a as int == b as int;
  }

  lemma {:induction false} CharOfDigit(c: char)
    requires MapBase58(c) >= 0
    ensures MapBase58(c) < 58 == |ALPHABET| && ALPHABET[MapBase58(c)] == c
  {
    MapInjective(c, c);
    DigitOfChar(MapBase58(c));
    hide MapBase58;
    MapInjective(c, ALPHABET[MapBase58(c)]);
  }

  predicate IsBase58(s: string) { forall i :: 0 <= i < |s| ==> MapBase58(s[i]) >= 0 }

  function ToChar(d: nat): char
    requires d < 58
  {
    DigitOfChar(d);
    ALPHABET[d]
  }

  function ToChars(ds: seq<nat>): string
    requires forall i :: 0 <= i < |ds| ==> ds[i] < 58
  {
    seq(|ds|, i requires 0 <= i < |ds| => ToChar(ds[i]))
  }

  function FromChars(s: string): seq<nat>
    requires IsBase58(s)
  {
    seq(|s|, i requires 0 <= i < |s| => MapBase58(s[i]))
  }

  lemma {:induction false} CharsBack(ds: seq<nat>)
    requires Below(ds, 58)
    ensures IsBase58(ToChars(ds)) && FromChars(ToChars(ds)) == ds
  {
    hide MapBase58;
    forall i | 0 <= i < |ds| ensures MapBase58(ToChars(ds)[i]) == ds[i] {
      DigitOfChar(ds[i]);
    }
  }

  lemma {:induction false} CharsLength(s: string)
    requires IsBase58(s)
    ensures |FromChars(s)| == |s|
  {
  }

  lemma {:induction false} DigitsBack(s: string)
    requires IsBase58(s)
    ensures Below(FromChars(s), 58) && ToChars(FromChars(s)) == s
  {
    hide MapBase58;
    forall i | 0 <= i < |s| ensures FromChars(s)[i] < 58 && ToChar(FromChars(s)[i]) == s[i] {
      CharOfDigit(s[i]);
    }
  }

  // ----- Leading zeroes -----

  function Repeat<T>(x: T, n: nat): seq<T> { seq(n, _ => x) }

  /** How often `x` leads the sequence. */
  function Leading<T(==)>(s: seq<T>, x: T): (n: nat)
    ensures n <= |s|
  {
    if s != [] && s[0] == x then 1 + Leading(s[1..], x) else 0
  }

  lemma {:induction false} LeadingSplit<T>(s: seq<T>, x: T)
    ensures var n := Leading(s, x);
            s == Repeat(x, n) + s[n..] && (n < |s| ==> s[n] != x)
  {
    if s != [] && s[0] == x {
      LeadingSplit(s[1..], x);
    }
  }

  lemma {:induction false} LeadingOf<T>(x: T, n: nat, t: seq<T>)
    requires t != [] ==> t[0] != x
    ensures Leading(Repeat(x, n) + t, x) == n && (Repeat(x, n) + t)[n..] == t
  {
    if n > 0 {
      LeadingOf(x, n - 1, t);
      assert (Repeat(x, n) + t)[1..] == Repeat(x, n - 1) + t;
    } else {
      assert Repeat(x, n) + t == t;
    }
  }

  // ----- What the codecs compute -----

  ghost function Encoded(input: seq<Byte>): string {
    var z := Leading<nat>(input, 0);
    DigitsValue(58, Value(256, input[z..]));
    Repeat('1', z) + ToChars(ToDigits(58, Value(256, input[z..])))
  }

  ghost function Decoded(w: string): seq<Byte>
    requires IsBase58(w)
  {
    var z := Leading(w, '1');
    DigitsValue(256, Value(58, FromChars(w[z..])));
    Repeat<nat>(0, z) + ToDigits(256, Value(58, FromChars(w[z..])))
  }

  /** The digit 0 is the character '1'. */
  lemma {:induction false} ZeroIsOne(c: char)
    ensures MapBase58('1') == 0 && ToChar(0) == '1' && (MapBase58(c) == 0 ==> c == '1')
  {
    CharOfDigit('1');
    if MapBase58(c) == 0 { MapInjective(c, '1'); }
  }

  lemma {:induction false} NoLeadingOne(ds: seq<nat>)
    requires Below(ds, 58) && Minimal(ds)
    ensures ToChars(ds) != [] ==> ToChars(ds)[0] != '1'
  {
    if ds != [] {
      DigitOfChar(ds[0]);
      ZeroIsOne('1');
    }
  }

  lemma {:induction false} NoLeadingZero(w: string)
    requires IsBase58(w) && (w != [] ==> w[0] != '1')
    ensures Minimal(FromChars(w)) && Below(FromChars(w), 58)
  {
    DigitsBack(w);
    if w != [] { ZeroIsOne(w[0]); }
  }

  /** Decoding undoes encoding, for every byte string. */
  lemma {:induction false} DecodeEncoded(input: seq<Byte>)
    ensures IsBase58(Encoded(input)) && Decoded(Encoded(input)) == input
  {
    hide MapBase58, Value, ToDigits, ToChars, FromChars, Repeat;
    var z := Leading<nat>(input, 0);
    var rest := input[z..];
    LeadingSplit<nat>(input, 0);
    var n := Value(256, rest);
    var ds := ToDigits(58, n);
    DigitsValue(58, n);
    CharsBack(ds);
    NoLeadingOne(ds);
    LeadingOf('1', z, ToChars(ds));
    OnesAreBase58(z, ToChars(ds));
    DigitsUnique(256, rest);
  }

  lemma {:induction false} OnesAreBase58(z: nat, s: string)
    requires IsBase58(s)
    ensures IsBase58(Repeat('1', z) + s)
  {
  }

  /** Encoding undoes decoding, for every accepted string. */
  lemma {:induction false} EncodeDecoded(w: string)
    requires IsBase58(w)
    ensures Encoded(Decoded(w)) == w
  {
    hide MapBase58, Value, ToDigits, ToChars, FromChars, Repeat;
    var z := Leading(w, '1');
    LeadingSplit(w, '1');
    var rest := w[z..];
    var n := Value(58, FromChars(rest));
    NoLeadingZero(rest);
    DigitsValue(256, n);
    LeadingOf<nat>(0, z, ToDigits(256, n));
    DigitsUnique(58, FromChars(rest));
    DigitsBack(rest);
  }

  // ----- The buffers are large enough -----

  lemma {:induction false} PowersOf58()
    ensures Pow(58, 1) == 58 && Pow(58, 2) == 3364 && Pow(58, 4) == 11316496 && Pow(58, 8) == 128063081718016
    ensures Pow(58, 16) == 16400152899115243850138976256
    ensures Pow(58, 32) == 268965015114358137726910587140455987105619365599731777536
    ensures Pow(58, 64)
            == 72342179355466901471258927612150153907721848234316445933056526044582001260898145151856420451025374266490194231296
  {
    PowAdd(58, 1, 1);
    PowAdd(58, 2, 2);
    PowAdd(58, 4, 4);
    PowAdd(58, 8, 8);
    PowAdd(58, 16, 16);
    PowAdd(58, 32, 32);
  }

  lemma {:induction false} PowersOf256()
    ensures Pow(256, 1) == 256 && Pow(256, 2) == 65536 && Pow(256, 4) == 4294967296
            && Pow(256, 8) == 18446744073709551616
    ensures Pow(256, 16) == 340282366920938463463374607431768211456
    ensures Pow(256, 32) == 115792089237316195423570985008687907853269984665640564039457584007913129639936
  {
    PowAdd(256, 1, 1);
    PowAdd(256, 2, 2);
    PowAdd(256, 4, 4);
    PowAdd(256, 8, 8);
    PowAdd(256, 16, 16);
  }

  /** 11 / 8 base-58 digits for a byte are enough, and 1.38 is more than that. */
  lemma {:induction false} EncodeFits(m: nat)
    ensures Pow(256, m) <= Pow(58, m * 138 / 100 + 1)
  {
    hide Pow;
    PowersOf58();
    PowersOf256();
    PowAdd(58, 8, 2);
    PowAdd(58, 10, 1);
    SteepPowers(256, 8, 58, 11, m, m * 138 / 100 + 1);
  }

  /** 52 / 71 bytes for a base-58 digit are enough, and 0.733 is more than that. */
  lemma {:induction false} DecodeFits(m: nat)
    ensures Pow(58, m) <= Pow(256, m * 733 / 1000 + 1)
  {
    hide Pow;
    PowersOf58();
    PowersOf256();
    PowAdd(58, 64, 4);
    PowAdd(58, 68, 2);
    PowAdd(58, 70, 1);
    PowAdd(256, 32, 16);
    PowAdd(256, 48, 4);
    SteepPowers(58, 71, 256, 52, m, m * 733 / 1000 + 1);
  }

  // ----- EncodeBase58 -----

  /** Taking in one more digit of a string over base `b` keeps below the string's bound. */
  lemma {:induction false} TakeDigit(b: nat, s: seq<nat>, k: nat)
    requires b > 0 && Below(s, b) && k < |s|
    ensures MulAdd(Value(b, s[..k]), b, s[k]) == Value(b, s[..k + 1]) < Pow(b, |s|)
  {
    assert s[..k + 1] == s[..k] + [s[k]];
    ValueSnoc(b, s[..k], s[k]);
    ValueBelow(b, s[..k + 1]);
    PowMonotone(b, k + 1, |s|);
  }

  lemma {:induction false} LeadingAt<T>(s: seq<T>, x: T, n: nat)
    requires n <= |s| && (forall i :: 0 <= i < n ==> s[i] == x) && (n < |s| ==> s[n] != x)
    ensures Leading(s, x) == n
  {
    LeadingOf(x, n, s[n..]);
    assert Repeat(x, n) + s[n..] == s;
  }

  lemma {:induction false} NextChar(ds: seq<nat>, j: nat)
    requires j < |ds| && forall i :: 0 <= i < |ds| ==> ds[i] < 58
    ensures ToChars(ds[..j + 1]) == ToChars(ds[..j]) + [ToChar(ds[j])]
  {
  }

  method EncodeBase58(input: seq<Byte>) returns (str: string)
    ensures str == Encoded(input)
  {
    hide Value, ToDigits, ToChar, ToChars, Holds, Leading, MulAdd, Pow;
    var zeroes := 0;
    while zeroes < |input| && input[zeroes] == 0
      invariant 0 <= zeroes <= |input|
      invariant forall i :: 0 <= i < zeroes ==> input[i] == 0
    {
      zeroes := zeroes + 1;
    }
    LeadingAt<nat>(input, 0, zeroes);
    var rest: seq<nat> := input[zeroes..];
    var size := |rest| * 138 / 100 + 1;
    EncodeFits(|rest|);
    var b58 := new nat[size](_ => 0);
    HoldsZero(b58[..], 58);
    NoDigits(256);
    assert rest[..0] == [];
    var length := 0;
    for k := 0 to |rest|
      modifies b58
      invariant Holds(b58[..], length, 58, Value(256, rest[..k]))
    {
      TakeDigit(256, rest, k);
      length := MultiplyAdd(b58, length, 58, 256, rest[k], Value(256, rest[..k]));
    }
    assert rest[..|rest|] == rest;
    str := ReadOut(b58[..], length, zeroes, Value(256, rest));
  }

  /** Skips leading zeroes of the buffer (there are none) and translates the rest. */
  method ReadOut(b58: seq<nat>, length: nat, zeroes: nat, ghost v: nat) returns (str: string)
    requires Holds(b58, length, 58, v)
    ensures Below(ToDigits(58, v), 58) && str == Repeat('1', zeroes) + ToChars(ToDigits(58, v))
  {
    hide ToDigits, ToChar, ToChars;
    var it := |b58| - length;
    while it != |b58| && b58[it] == 0
      invariant |b58| - length <= it <= |b58|
      invariant forall j :: |b58| - length <= j < it ==> b58[j] == 0
      decreases |b58| - it
    {
      it := it + 1;
    }
    DigitsValue(58, v);
    assert length > 0 ==> b58[|b58| - length] == b58[|b58| - length..][0];
    assert it == |b58| - length;
    str := Translate(b58[it..], Repeat('1', zeroes));
  }

  method Translate(ds: seq<nat>, start: string) returns (str: string)
    requires forall i :: 0 <= i < |ds| ==> ds[i] < 58
    ensures str == start + ToChars(ds)
  {
    hide ToChar, ToChars;
    NoChars();
    str := start;
    assert ds[..0] == [];
    for j := 0 to |ds|
      invariant str == start + ToChars(ds[..j])
    {
      NextChar(ds, j);
      str := str + [ToChar(ds[j])];
    }
    assert ds[..|ds|] == ds;
  }

  lemma {:induction false} NoChars()
    ensures ToChars([]) == []
  {
  }

  // ----- DecodeBase58 -----

  predicate IsSpace(c: char) { c == ' ' || 9 <= c as int <= 13 }

  /** Space, tab, line feed, vertical tab, form feed and carriage return. */
  lemma {:induction false} SpaceIs(c: char)
    ensures IsSpace(c) <==> c as int in {32, 9, 10, 11, 12, 13}
  {
  }

  predicate AllSpaces(s: string) { forall i :: 0 <= i < |s| ==> IsSpace(s[i]) }

  predicate NoSpaces(s: string) { forall i :: 0 <= i < |s| ==> !IsSpace(s[i]) }

  ghost function DropSpaces(s: string): string { if s != [] && IsSpace(s[0]) then DropSpaces(s[1..]) else s }

  /** The characters up to the first space. */
  ghost function Word(s: string): (w: string)
    ensures |w| <= |s|
  {
    if s != [] && !IsSpace(s[0]) then [s[0]] + Word(s[1..]) else []
  }

  /** Spaces, one word over the alphabet, spaces; and a result within the limit. */
  ghost function DecodeResult(str: string, maxLen: int): Option<seq<Byte>> {
    var t := DropSpaces(str);
    var w := Word(t);
    if 0 as char !in str && IsBase58(w) && AllSpaces(t[|w|..]) && (|Decoded(w)| <= maxLen || Decoded(w) == [])
    then Some(Decoded(w)) else None
  }

  lemma {:induction false} Dropped(s: string, k: nat)
    requires k <= |s| && AllSpaces(s[..k]) && (k < |s| ==> !IsSpace(s[k]))
    ensures DropSpaces(s) == s[k..]
  {
    if k > 0 {
      assert IsSpace(s[..k][0]);
      assert s[1..][..k - 1] == s[..k][1..];
      Dropped(s[1..], k - 1);
      assert s[1..][k - 1..] == s[k..];
    } else {
      assert s[0..] == s;
    }
  }

  lemma {:induction false} WordStarts(s: string, k: nat)
    requires k <= |s| && NoSpaces(s[..k])
    ensures |Word(s)| >= k && Word(s)[..k] == s[..k]
  {
    if k > 0 {
      assert !IsSpace(s[..k][0]);
      assert s[1..][..k - 1] == s[..k][1..];
      WordStarts(s[1..], k - 1);
      assert Word(s)[..k] == [s[0]] + Word(s[1..])[..k - 1];
      assert s[..k] == [s[0]] + s[1..][..k - 1];
    }
  }

  lemma {:induction false} WordEnds(s: string, k: nat)
    requires k <= |s| && NoSpaces(s[..k]) && (k < |s| ==> IsSpace(s[k]))
    ensures Word(s) == s[..k]
  {
    if k > 0 {
      assert !IsSpace(s[..k][0]);
      assert s[1..][..k - 1] == s[..k][1..];
      WordEnds(s[1..], k - 1);
      assert s[..k] == [s[0]] + s[1..][..k - 1];
    }
  }

  lemma {:induction false} Base58HasNoSpaces(s: string)
    requires IsBase58(s)
    ensures NoSpaces(s) && 0 as char !in s
  {
  }

  lemma {:induction false} DigitsLonger(base: nat, m: nat, n: nat)
    requires base >= 2 && m <= n
    ensures |ToDigits(base, m)| <= |ToDigits(base, n)|
  {
    if m > 0 {
      QuotientSmaller(m, base);
      QuotientSmaller(n, base);
      DivMonotone(m, n, base);
      DigitsLonger(base, m / base, n / base);
    }
  }

  lemma {:induction false} PrefixSmaller(b: nat, s: seq<nat>, k: nat)
    requires k <= |s| && b > 0
    ensures Value(b, s[..k]) <= Value(b, s)
    decreases |s| - k
  {
    if k < |s| {
      PrefixSmaller(b, s, k + 1);
      assert s[..k + 1] == s[..k] + [s[k]];
      ValueSnoc(b, s[..k], s[k]);
      MulMonotone(Value(b, s[..k]), Value(b, s[..k]), 1, b);
    } else {
      assert s[..k] == s;
    }
  }

  /** What the scan knows: `z` ones lead, and the `k` characters seen belong to the word. */
  ghost predicate Scanned(t: string, z: nat, k: nat) {
    z <= k <= |t| && Leading(t, '1') == z && NoSpaces(t[..k]) && IsBase58(t[..k])
  }

  lemma {:induction false} ScannedTail(t: string, z: nat, k: nat)
    requires Scanned(t, z, k)
    ensures IsBase58(t[z..k])
  {
    assert t[z..k] == t[..k][z..];
  }

  ghost function ScanValue(t: string, z: nat, k: nat): nat
    requires Scanned(t, z, k)
  {
    ScannedTail(t, z, k);
    Value(58, FromChars(t[z..k]))
  }

  lemma {:induction false} ScannedOnes(t: string, z: nat)
    requires z <= |t| && (forall i :: 0 <= i < z ==> t[i] == '1') && (z < |t| ==> t[z] != '1')
    ensures Scanned(t, z, z) && ScanValue(t, z, z) == 0
  {
    LeadingAt(t, '1', z);
    assert t[z..z] == [];
    assert FromChars([]) == [];
  }

  lemma {:induction false} FromCharsSnoc(s: string, c: char)
    requires IsBase58(s) && MapBase58(c) >= 0
    ensures IsBase58(s + [c]) && FromChars(s + [c]) == FromChars(s) + [MapBase58(c)]
  {
  }

  lemma {:induction false} ScannedGrows(t: string, z: nat, k: nat)
    requires Scanned(t, z, k) && k < |t| && !IsSpace(t[k]) && MapBase58(t[k]) >= 0
    ensures Scanned(t, z, k + 1) && IsBase58(t[z..k]) && IsBase58(t[z..k + 1])
    ensures FromChars(t[z..k + 1]) == FromChars(t[z..k]) + [MapBase58(t[k])]
  {
    hide MapBase58, Leading;
    assert t[..k + 1] == t[..k] + [t[k]];
    assert t[z..k] == t[..k][z..];
    assert t[z..k + 1] == t[z..k] + [t[k]];
    FromCharsSnoc(t[z..k], t[k]);
  }

  lemma {:induction false} ScannedNext(t: string, z: nat, k: nat)
    requires Scanned(t, z, k) && k < |t| && !IsSpace(t[k]) && MapBase58(t[k]) >= 0
    ensures Scanned(t, z, k + 1)
    ensures ScanValue(t, z, k + 1) == MulAdd(ScanValue(t, z, k), 58, MapBase58(t[k]))
    ensures ScanValue(t, z, k + 1) < Pow(58, |t| - z)
  {
    ScannedGrows(t, z, k);
    hide MapBase58, Value, Pow, Scanned, IsBase58, FromChars;
    ValueSnoc(58, FromChars(t[z..k]), MapBase58(t[k]));
    DigitsBack(t[z..k + 1]);
    assert |FromChars(t[z..k + 1])| == k + 1 - z by { CharsLength(t[z..k + 1]); }
    ValueBelow(58, FromChars(t[z..k + 1]));
    PowMonotone(58, k + 1 - z, |t| - z);
  }

  lemma {:induction false} LeadingOfWord(t: string, z: nat, w: string)
    requires z <= |w| <= |t| && w == t[..|w|] && Leading(t, '1') == z
    ensures Leading(w, '1') == z
  {
    LeadingSplit(t, '1');
    assert forall i :: 0 <= i < z ==> t[i] == Repeat('1', z)[i];
    LeadingAt(w, '1', z);
  }

  /** A word that has not ended yet decodes to at least what has been read of it. */
  lemma {:induction false} WordAtLeast(t: string, z: nat, k: nat)
    requires Scanned(t, z, k) && IsBase58(Word(t))
    ensures |Decoded(Word(t))| >= z + |ToDigits(256, ScanValue(t, z, k))|
  {
    hide ToDigits, Value, MapBase58;
    var w := Word(t);
    WordStarts(t, k);
    WordPrefix(t);
    LeadingOfWord(t, z, w);
    var ds := FromChars(w[z..]);
    assert t[z..k] == w[z..][..k - z];
    assert FromChars(t[z..k]) == ds[..k - z];
    PrefixSmaller(58, ds, k - z);
    DigitsLonger(256, ScanValue(t, z, k), Value(58, ds));
  }

  lemma {:induction false} WordPrefix(t: string)
    ensures Word(t) == t[..|Word(t)|]
  {
    if t != [] && !IsSpace(t[0]) { WordPrefix(t[1..]); }
  }

  lemma {:induction false} WordDecoded(t: string, z: nat, k: nat)
    requires Scanned(t, z, k) && (k < |t| ==> IsSpace(t[k]))
    ensures Word(t) == t[..k] && Decoded(Word(t)) == Repeat<nat>(0, z) + ToDigits(256, ScanValue(t, z, k))
  {
    hide ToDigits, Value, MapBase58;
    WordEnds(t, k);
    LeadingOfWord(t, z, t[..k]);
    assert t[..k][z..] == t[z..k];
  }

  method DecodeBase58(str: string, maxLen: int) returns (r: Option<seq<Byte>>)
    ensures r == DecodeResult(str, maxLen)
  {
    hide DropSpaces, Word, Decoded, IsBase58, AllSpaces;
    if 0 as char in str {
      return None;
    }
    var psz := 0;
    while psz < |str| && IsSpace(str[psz])
      invariant 0 <= psz <= |str| && forall i :: 0 <= i < psz ==> IsSpace(str[i])
    {
      psz := psz + 1;
    }
    SpacesAre(str[..psz]);
    Dropped(str, psz);
    r := DecodeWord(str[psz..], maxLen);
  }

  lemma {:induction false} SpacesAre(s: string)
    requires forall i :: 0 <= i < |s| ==> IsSpace(s[i])
    ensures AllSpaces(s)
  {
  }

  /** The part after the leading spaces: ones, digits, trailing spaces. */
  method DecodeWord(t: string, maxLen: int) returns (r: Option<seq<Byte>>)
    ensures var w := Word(t);
            r == if IsBase58(w) && AllSpaces(t[|w|..]) && (|Decoded(w)| <= maxLen || Decoded(w) == [])
                 then Some(Decoded(w)) else None
  {
    hide Word, Decoded, IsBase58, AllSpaces, Scanned, ScanValue, Holds, ToDigits, Value, Pow, MapBase58, IsSpace,
      MulAdd;
    var zeroes: nat := 0;
    while zeroes < |t| && t[zeroes] == '1'
      invariant zeroes <= |t| && (zeroes == 0 || zeroes <= maxLen) && forall i :: 0 <= i < zeroes ==> t[i] == '1'
    {
      zeroes := zeroes + 1;
      if zeroes > maxLen {
        OnesTooLong(t, zeroes);
        return None;
      }
    }
    ScannedOnes(t, zeroes);
    var size := (|t| - zeroes) * 733 / 1000 + 1;
    DecodeFits(|t| - zeroes);
    var b256 := new nat[size](_ => 0);
    HoldsZero(b256[..], 256);
    var length: nat, k: nat := 0, zeroes;
    while k < |t| && !IsSpace(t[k])
      modifies b256
      invariant zeroes <= k <= |t| && Scanned(t, zeroes, k)
      invariant Holds(b256[..], length, 256, ScanValue(t, zeroes, k))
      invariant length + zeroes <= maxLen || length + zeroes == 0
    {
      var carry := MapBase58(t[k]);
      if carry == -1 {
        BadCharacter(t, zeroes, k);
        return None;
      }
      MapRange(t[k]);
      ScannedNext(t, zeroes, k);
      length := MultiplyAdd(b256, length, 256, 58, carry, ScanValue(t, zeroes, k));
      k := k + 1;
      HeldLength(b256[..], length, 256, ScanValue(t, zeroes, k));
      if length + zeroes > maxLen {
        TooLong(t, zeroes, k, maxLen);
        return None;
      }
    }
    WordDecoded(t, zeroes, k);
    ScannedIsBase58(t, zeroes, k);
    HeldLength(b256[..], length, 256, ScanValue(t, zeroes, k));
    var rest := k;
    while rest < |t| && IsSpace(t[rest])
      invariant k <= rest <= |t| && forall i :: k <= i < rest ==> IsSpace(t[i])
    {
      rest := rest + 1;
    }
    TrailingSpaces(t, k, rest);
    if rest != |t| {
      return None;
    }
    var vch: seq<nat> := Repeat<nat>(0, zeroes) + b256[size - length..];
    r := Some(vch);
  }

  lemma {:induction false} MapRange(c: char)
    requires MapBase58(c) != -1
    ensures 0 <= MapBase58(c) < 58
  {
  }

  lemma {:induction false} HeldLength(s: seq<nat>, length: nat, base: nat, v: nat)
    requires Holds(s, length, base, v)
    ensures length <= |s| && s[|s| - length..] == ToDigits(base, v) && length == |ToDigits(base, v)|
  {
  }

  lemma {:induction false} ScannedIsBase58(t: string, z: nat, k: nat)
    requires Scanned(t, z, k)
    ensures IsBase58(t[..k])
  {
  }

  lemma {:induction false} OnesTooLong(t: string, n: nat)
    requires 0 < n <= |t| && forall i :: 0 <= i < n ==> t[i] == '1'
    ensures IsBase58(Word(t)) ==> |Decoded(Word(t))| >= n
  {
    if IsBase58(Word(t)) {
      WordStarts(t, n);
      assert forall i :: 0 <= i < n ==> Word(t)[i] == Word(t)[..n][i];
      LeadingMany(Word(t), '1', n);
    }
  }

  lemma {:induction false} LeadingMany<T>(s: seq<T>, x: T, n: nat)
    requires n <= |s| && forall i :: 0 <= i < n ==> s[i] == x
    ensures Leading(s, x) >= n
  {
    LeadingSplit(s, x);
  }

  lemma {:induction false} BadCharacter(t: string, z: nat, k: nat)
    requires Scanned(t, z, k) && k < |t| && !IsSpace(t[k]) && MapBase58(t[k]) == -1
    ensures !IsBase58(Word(t))
  {
    assert t[..k + 1] == t[..k] + [t[k]];
    WordStarts(t, k + 1);
    assert Word(t)[k] == Word(t)[..k + 1][k];
  }

  lemma {:induction false} TooLong(t: string, z: nat, k: nat, maxLen: int)
    requires Scanned(t, z, k) && z < k && z + |ToDigits(256, ScanValue(t, z, k))| > maxLen
    ensures IsBase58(Word(t)) ==> |Decoded(Word(t))| > maxLen && Decoded(Word(t)) != []
  {
    if IsBase58(Word(t)) {
      WordAtLeast(t, z, k);
      ScanPositive(t, z, k);
      hide Value, Word, Decoded, ScanValue;
      DigitsValue(256, ScanValue(t, z, k));
    }
  }

  /** The first character after the ones is not a zero digit. */
  lemma {:induction false} ScanPositive(t: string, z: nat, k: nat)
    requires Scanned(t, z, k) && z < k
    ensures ScanValue(t, z, k) > 0
  {
    LeadingSplit(t, '1');
    assert t[z..k][0] == t[z];
    ScannedTail(t, z, k);
    hide MapBase58, Value, Pow;
    NoLeadingZero(t[z..k]);
    ValueAtLeast(58, FromChars(t[z..k]));
    PowPositive(58, k - z - 1);
  }

  lemma {:induction false} TrailingSpaces(t: string, k: nat, rest: nat)
    requires k <= rest <= |t| && (forall i :: k <= i < rest ==> IsSpace(t[i])) && (rest < |t| ==> !IsSpace(t[rest]))
    ensures AllSpaces(t[k..]) <==> rest == |t|
  {
    if rest < |t| { assert t[k..][rest - k] == t[rest]; }
  }

  // ----- The laws of the string codec -----

  lemma {:induction false} PlainWord(s: string)
    requires NoSpaces(s)
    ensures DropSpaces(s) == s && Word(s) == s && s[|s|..] == []
  {
    assert s[..|s|] == s && s[..0] == [] && s[0..] == s;
    Dropped(s, 0);
    WordEnds(s, |s|);
  }

  /** Every byte string within the limit comes back from its encoding; a longer one is refused. */
  lemma {:induction false} DecodeOfEncode(input: seq<Byte>, maxLen: int)
    ensures DecodeResult(Encoded(input), maxLen) == if |input| <= maxLen || input == [] then Some(input) else None
  {
    DecodeEncoded(input);
    hide Encoded, Decoded, IsBase58, DropSpaces, Word, NoSpaces;
    Base58HasNoSpaces(Encoded(input));
    PlainWord(Encoded(input));
  }

  /** An accepted string without whitespace is the encoding of what it decodes to. */
  lemma {:induction false} EncodeOfDecode(str: string, maxLen: int)
    requires NoSpaces(str) && DecodeResult(str, maxLen).Some?
    ensures Encoded(DecodeResult(str, maxLen).value) == str
  {
    hide Encoded, Decoded, IsBase58, DropSpaces, Word;
    PlainWord(str);
    EncodeDecoded(str);
  }

  /** Whitespace around the word changes nothing. */
  lemma {:induction false} SpacesAround(a: string, w: string, b: string, maxLen: int)
    requires AllSpaces(a) && AllSpaces(b) && NoSpaces(w)
    ensures DecodeResult(a + w + b, maxLen) == DecodeResult(w, maxLen)
  {
    hide Decoded, IsBase58, DropSpaces, Word;
    var str := a + w + b;
    PlainWord(w);
    if w == [] {
      assert str == a + b && str[..|str|] == str && str[|str|..] == [];
      Dropped(str, |str|);
    } else {
      assert str[..|a|] == a && str[|a|..] == w + b;
      Dropped(str, |a|);
      assert (w + b)[..|w|] == w && (w + b)[|w|..] == b;
      WordEnds(w + b, |w|);
    }
    assert 0 as char in str <==> 0 as char in w;
  }

  // ----- Base58Check -----

  const INT_MAX: int := 0x7fff_ffff

  /** The first four bytes of the double hash. */
  ghost predicate IsChecksum(sum: seq<Byte> -> seq<Byte>) { forall x :: |sum(x)| == 4 }

  ghost function DecodeCheckResult(sum: seq<Byte> -> seq<Byte>, str: string, maxLen: int): Option<seq<Byte>> {
    match DecodeResult(str, if maxLen > 0x7fff_fffb then 0x7fff_ffff else maxLen + 4)
    case None => None
    case Some(v) =>
      if |v| >= 4 && sum(v[..|v| - 4]) == v[|v| - 4..] then Some(v[..|v| - 4]) else None
  }

  method EncodeBase58Check(input: seq<Byte>, sum: seq<Byte> -> seq<Byte>) returns (str: string)
    ensures str == Encoded(input + sum(input))
  {
    str := EncodeBase58(input + sum(input));
  }

  method DecodeBase58Check(str: string, sum: seq<Byte> -> seq<Byte>, maxLen: int) returns (r: Option<seq<Byte>>)
    ensures r == DecodeCheckResult(sum, str, maxLen)
  {
    hide DecodeResult;
    r := DecodeBase58(str, if maxLen > INT_MAX - 4 then INT_MAX else maxLen + 4);
    if r == None || |r.value| < 4 {
      return None;
    }
    var n := |r.value| - 4;
    if sum(r.value[..n]) != r.value[n..] {
      return None;
    }
    r := Some(r.value[..n]);
  }

  /** A checked string decodes to its payload, for every payload the 32-bit limit admits. */
  lemma {:induction false} CheckRoundTrip(sum: seq<Byte> -> seq<Byte>, input: seq<Byte>, maxLen: int)
    requires IsChecksum(sum) && |input| <= maxLen && |input| + 4 <= INT_MAX
    ensures DecodeCheckResult(sum, Encoded(input + sum(input)), maxLen) == Some(input)
  {
    hide DecodeResult, Encoded;
    var v: seq<Byte> := input + sum(input);
    assert |sum(input)| == 4;
    DecodeOfEncode(v, if maxLen > INT_MAX - 4 then INT_MAX else maxLen + 4);
    assert v[..|v| - 4] == input && v[|v| - 4..] == sum(input);
  }

  /** Only encodings of a payload with its checksum are accepted. */
  lemma {:induction false} CheckAccepts(sum: seq<Byte> -> seq<Byte>, str: string, maxLen: int)
    requires NoSpaces(str) && DecodeCheckResult(sum, str, maxLen).Some?
    ensures var x := DecodeCheckResult(sum, str, maxLen).value; str == Encoded(x + sum(x))
  {
    var limit := if maxLen > INT_MAX - 4 then INT_MAX else maxLen + 4;
    EncodeOfDecode(str, limit);
    hide DecodeResult, Encoded;
    var v := DecodeResult(str, limit).value;
    assert v == v[..|v| - 4] + v[|v| - 4..];
  }
}
