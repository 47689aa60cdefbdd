/** The signature cache's cuckoo table (src/cuckoocache.h): eight places for each element, lazy erasure
    through discard flags, and ageing by epochs.
 */
module CuckooCache {
  import opened Powers

  const UINT32_LIMIT: nat := 0x1_0000_0000

  // ----- Bit-packed flags -----

  function Mask(k: nat): bv8
    requires k < 8
  {
    match k
    case 0 => 1
    case 1 => 2
    case 2 => 4
    case 3 => 8
    case 4 => 16
    case 5 => 32
    case 6 => 64
    case 7 => 128
  }

  lemma {:induction false} MasksApart(j: nat, k: nat)
    requires j < 8 && k < 8
    ensures Mask(k) != 0 && (j != k ==> Mask(j) & Mask(k) == 0)
  {
  }

  lemma {:induction false} MaskIs(k: nat)
    requires k < 8
    ensures Mask(k) == 1 << k
  {
  }

  lemma {:induction false} SetMask(b: bv8, m: bv8, o: bv8)
    requires m != 0
    ensures (b | m) & m != 0 && (b & !m) & m == 0
    ensures o & m == 0 ==> (b | m) & o == b & o && (b & !m) & o == b & o
  {
  }

  predicate Flag(mem: seq<bv8>, s: nat)
    requires s / 8 < |mem|
  {
    mem[s / 8] & Mask(s % 8) != 0
  }

  lemma {:induction false} FlagSet(mem: seq<bv8>, s: nat, x: nat)
    requires s / 8 < |mem| && x / 8 < |mem|
    ensures Flag(mem[s / 8 := mem[s / 8] | Mask(s % 8)], x) <==> x == s || Flag(mem, x)
  {
    MasksApart(x % 8, s % 8);
    hide Mask;
    SetMask(mem[s / 8], Mask(s % 8), Mask(x % 8));
  }

  lemma {:induction false} FlagUnset(mem: seq<bv8>, s: nat, x: nat)
    requires s / 8 < |mem| && x / 8 < |mem|
    ensures Flag(mem[s / 8 := mem[s / 8] & !Mask(s % 8)], x) <==> x != s && Flag(mem, x)
  {
    MasksApart(x % 8, s % 8);
    hide Mask;
    SetMask(mem[s / 8], Mask(s % 8), Mask(x % 8));
  }

  /** The bytes allocated for `size` flags: the sum wraps at 32 bits. */
  function FlagBytes(size: nat): nat { (size + 7) % UINT32_LIMIT / 8 }

  /** Every flag has a byte exactly for sizes up to 2^32 - 8; the seven sizes above get none at all. */
  lemma {:induction false} FlagBytesSuffice(size: nat)
    requires size < UINT32_LIMIT
    ensures size <= 8 * FlagBytes(size) <==> size <= UINT32_LIMIT - 8
    ensures size > UINT32_LIMIT - 8 ==> FlagBytes(size) == 0
  {
  }

  lemma {:induction false} NoByteForFlags()
    ensures FlagBytes(0xffff_fff8) == 0x1fff_ffff && FlagBytes(0xffff_fff9) == 0
  {
  }

  function AllSet(n: nat): (r: seq<bool>)
    ensures |r| == n && forall i :: 0 <= i < n ==> r[i]
  {
    seq(n, _ => true)
  }

  /** Flags for garbage collection, eight to a byte. */
  class BitPackedFlags {
    const size: nat
    var mem: seq<bv8>

    /** Every flag has a byte. */
    ghost predicate Covers()
      reads this
    {
      size <= 8 * |mem|
    }

    /** All flags start set, if there are bytes for them. */
    constructor (size: nat)
      requires size < UINT32_LIMIT
      ensures this.size == size && |mem| == FlagBytes(size)
      ensures Covers() <==> size <= UINT32_LIMIT - 8
      ensures Covers() ==> Flags() == AllSet(size)
    {
      this.size := size;
      mem := seq(FlagBytes(size), _ => 0xff);
      new;
      FlagBytesSuffice(size);
      if Covers() {
        forall x | 0 <= x < size ensures IsSet(x) { AllOnes(x % 8); }
      }
    }

    predicate IsSet(s: nat)
      requires s / 8 < |mem|
      reads this
    {
      Flag(mem, s)
    }

    /** What the bits stand for. */
    ghost function Flags(): (r: seq<bool>)
      requires Covers()
      reads this
      ensures |r| == size && forall x :: 0 <= x < size ==> (r[x] <==> IsSet(x))
    {
      seq(size, x requires 0 <= x < size reads this requires Covers() => IsSet(x))
    }

    method BitSet(s: nat)
      requires Covers() && s < size
      modifies this
      ensures Covers() && Flags() == old(Flags())[s := true]
    {
      hide Flag, Mask;
      var mem' := mem[s / 8 := mem[s / 8] | Mask(s % 8)];
      forall x: nat | x < size ensures Flag(mem', x) <==> x == s || Flag(mem, x) { FlagSet(mem, s, x); }
      mem := mem';
    }

    method BitUnset(s: nat)
      requires Covers() && s < size
      modifies this
      ensures Covers() && Flags() == old(Flags())[s := false]
    {
      hide Flag, Mask;
      var mem' := mem[s / 8 := mem[s / 8] & !Mask(s % 8)];
      forall x: nat | x < size ensures Flag(mem', x) <==> x != s && Flag(mem, x) { FlagUnset(mem, s, x); }
      mem := mem';
    }
  }

  lemma {:induction false} AllOnes(k: nat)
    requires k < 8
    ensures 0xff & Mask(k) != 0
  {
  }

  // ----- What the table keeps -----

  function One<T>(x: T, discard: bool): multiset<T> { if discard then multiset{} else multiset{x} }

  /** The elements in slots that may not be overwritten. */
  ghost function Kept<T>(table: seq<T>, discard: seq<bool>): multiset<T>
    requires |table| == |discard|
  {
    if table == [] then multiset{}
    else var n := |table| - 1; Kept(table[..n], discard[..n]) + One(table[n], discard[n])
  }

  /** How many kept slots belong to the living (true) or the dying (false) epoch. */
  ghost function Count(discard: seq<bool>, epoch: seq<bool>, which: bool): nat
    requires |discard| == |epoch|
  {
    if discard == [] then 0
    else
      var n := |discard| - 1;
      Count(discard[..n], epoch[..n], which) + Unit(discard[n], epoch[n], which)
  }

  function Unit(discard: bool, epoch: bool, which: bool): nat { if !discard && epoch == which then 1 else 0 }

  lemma {:induction false} AddBoth<T>(a: multiset<T>, o: multiset<T>, b: multiset<T>, n: multiset<T>, last: multiset<T>)
    requires a + o == b + n
    ensures (a + last) + o == (b + last) + n
  {
    assert (a + last) + o == (a + o) + last;
    assert (b + last) + n == (b + n) + last;
  }

  lemma {:induction false} Exchange<T>(a: multiset<T>, o: multiset<T>, n: multiset<T>)
    ensures (a + n) + o == (a + o) + n
  {
  }

  lemma {:induction false} KeptUpdate<T>(table: seq<T>, discard: seq<bool>, i: nat, x: T, d: bool)
    requires |table| == |discard| && i < |table|
    ensures Kept(table[i := x], discard[i := d]) + One(table[i], discard[i]) == Kept(table, discard) + One(x, d)
  {
    hide One;
    var n := |table| - 1;
    var t, f := table[i := x], discard[i := d];
    if i == n {
      assert t[..n] == table[..n] && f[..n] == discard[..n];
      Exchange(Kept(table[..n], discard[..n]), One(table[i], discard[i]), One(x, d));
    } else {
      KeptUpdate(table[..n], discard[..n], i, x, d);
      assert t[..n] == table[..n][i := x] && f[..n] == discard[..n][i := d];
      AddBoth(Kept(t[..n], f[..n]), One(table[i], discard[i]), Kept(table[..n], discard[..n]), One(x, d),
        One(table[n], discard[n]));
    }
  }

  lemma {:induction false} CountUpdate(discard: seq<bool>, epoch: seq<bool>, i: nat, d: bool, e: bool, which: bool)
    requires |discard| == |epoch| && i < |discard|
    ensures Count(discard[i := d], epoch[i := e], which) + Unit(discard[i], epoch[i], which)
            == Count(discard, epoch, which) + Unit(d, e, which)
  {
    var n := |discard| - 1;
    var f, g := discard[i := d], epoch[i := e];
    if i == n {
      assert f[..n] == discard[..n] && g[..n] == epoch[..n];
    } else {
      CountUpdate(discard[..n], epoch[..n], i, d, e, which);
      assert f[..n] == discard[..n][i := d] && g[..n] == epoch[..n][i := e];
    }
  }

  lemma {:induction false} KeptHas<T>(table: seq<T>, discard: seq<bool>, x: T)
    requires |table| == |discard| && x in Kept(table, discard)
    ensures exists i :: 0 <= i < |table| && !discard[i] && table[i] == x
  {
    var n := |table| - 1;
    if x in Kept(table[..n], discard[..n]) {
      KeptHas(table[..n], discard[..n], x);
      var i :| 0 <= i < n && !discard[..n][i] && table[..n][i] == x;
      assert !discard[i] && table[i] == x;
    } else {
      assert !discard[n] && table[n] == x;
    }
  }

  lemma {:induction false} KeptAt<T>(table: seq<T>, discard: seq<bool>, i: nat)
    requires |table| == |discard| && i < |table| && !discard[i]
    ensures table[i] in Kept(table, discard)
  {
    var n := |table| - 1;
    if i < n { KeptAt(table[..n], discard[..n], i); }
  }

  /** Kept slots are living or dying. */
  lemma {:induction false} KeptIsCounted<T>(table: seq<T>, discard: seq<bool>, epoch: seq<bool>)
    requires |table| == |discard| == |epoch|
    ensures |Kept(table, discard)| == Count(discard, epoch, true) + Count(discard, epoch, false) <= |table|
  {
    if table != [] {
      var n := |table| - 1;
      KeptIsCounted(table[..n], discard[..n], epoch[..n]);
    }
  }

  // ----- Ageing -----

  /** The dying epoch becomes discardable, the living one becomes the dying one. */
  function Aged(discard: seq<bool>, epoch: seq<bool>): (r: seq<bool>)
    requires |discard| == |epoch|
    ensures |r| == |discard|
  {
    seq(|discard|, i requires 0 <= i < |discard| => discard[i] || !epoch[i])
  }

  function NoEpoch(n: nat): (r: seq<bool>)
    ensures |r| == n
  {
    seq(n, _ => false)
  }

  lemma {:induction false} AgedCounts(discard: seq<bool>, epoch: seq<bool>)
    requires |discard| == |epoch|
    ensures Count(Aged(discard, epoch), NoEpoch(|epoch|), true) == 0
    ensures Count(Aged(discard, epoch), NoEpoch(|epoch|), false) == Count(discard, epoch, true)
  {
    if discard != [] {
      var n := |discard| - 1;
      AgedCounts(discard[..n], epoch[..n]);
      assert Aged(discard, epoch)[..n] == Aged(discard[..n], epoch[..n]);
      assert NoEpoch(n + 1)[..n] == NoEpoch(n);
    }
  }

  /** The bound the scan counter keeps on an epoch: the epoch size and one scan interval. */
  function EpochBound(epochSize: nat): nat { epochSize + Max(1, epochSize / 16) }

  function Max(a: nat, b: nat): nat { if a > b then a else b }

  /** A scan's new counter: inserts that could fill the epoch, with a floor. */
  ghost function NextScan(epochSize: nat, used: nat): nat
    requires used < epochSize
  {
    Max(1, Max(epochSize / 16, epochSize - used))
  }

  // ----- Locations -----

  function FastRange32(x: nat, n: nat): nat { (x * n) / UINT32_LIMIT }

  /** The place of a hash among `n` slots: its share of the 32-bit range, times `n`, rounded down. */
  lemma {:induction false} FastRangeFits(x: nat, n: nat)
    requires x < UINT32_LIMIT && n > 0
    ensures var r := FastRange32(x, n); r < n && r * 0x1_0000_0000 <= x * n < (r + 1) * 0x1_0000_0000
  {
    MulMonotone(x, UINT32_LIMIT - 1, n, n);
    DivAtMost(x * n, UINT32_LIMIT, n - 1);
  }

  /** Eight 32-bit hashes of every element. */
  ghost predicate HashOk<T(!new)>(hash: T -> seq<nat>) {
    forall x :: |hash(x)| == 8 && forall k :: 0 <= k < 8 ==> hash(x)[k] < UINT32_LIMIT
  }

  function Locations<T>(hash: T -> seq<nat>, size: nat, x: T): (r: seq<nat>)
    ensures |r| == |hash(x)|
  {
    seq(|hash(x)|, k requires 0 <= k < |hash(x)| => FastRange32(hash(x)[k], size))
  }

  lemma {:induction false} LocationsFit<T(!new)>(hash: T -> seq<nat>, size: nat, x: T)
    requires HashOk(hash) && size > 0
    ensures |Locations(hash, size, x)| == 8 && forall k :: 0 <= k < 8 ==> Locations(hash, size, x)[k] < size
  {
    forall k | 0 <= k < 8 ensures Locations(hash, size, x)[k] < size {
      hide FastRange32;
      FastRangeFits(hash(x)[k], size);
    }
  }

  /** Every kept slot is one of its element's eight places. */
  ghost predicate Placed<T>(hash: T -> seq<nat>, table: seq<T>, discard: seq<bool>) {
    |table| == |discard| && forall i :: 0 <= i < |table| && !discard[i] ==> i in Locations(hash, |table|, table[i])
  }

  lemma {:induction false} PlacedUpdate<T>(hash: T -> seq<nat>, table: seq<T>, discard: seq<bool>, i: nat, x: T)
    requires Placed(hash, table, discard) && i < |table| && i in Locations(hash, |table|, x)
    ensures Placed(hash, table[i := x], discard[i := false])
  {
    hide Locations;
  }

  lemma {:induction false} PlacedDiscard<T>(hash: T -> seq<nat>, table: seq<T>, discard: seq<bool>, more: seq<bool>)
    requires Placed(hash, table, discard) && |more| == |discard|
    requires forall i :: 0 <= i < |more| && discard[i] ==> more[i]
    ensures Placed(hash, table, more)
  {
    hide Locations;
  }

  /** The state of the slots, with `x` in hand: an element to be stored, or moved out of the table with its epoch. */
  ghost predicate Moving<T>(table: seq<T>, discard: seq<bool>, epoch: seq<bool>, x: T, e: bool,
                            kept: multiset<T>, living: nat, dying: nat)
  {
    && |table| == |discard| == |epoch|
    && Kept(table, discard) + multiset{x} == kept
    && Count(discard, epoch, true) + (if e then 1 else 0) == living
    && Count(discard, epoch, false) + (if e then 0 else 1) == dying
  }

  /** Swapping the element in hand with a kept one keeps the books. */
  lemma {:induction false} MovingSwap<T>(table: seq<T>, discard: seq<bool>, epoch: seq<bool>, x: T, e: bool,
                                         kept: multiset<T>, living: nat, dying: nat, i: nat)
    requires Moving(table, discard, epoch, x, e, kept, living, dying) && i < |table| && !discard[i]
    ensures Moving(table[i := x], discard, epoch[i := e], table[i], epoch[i], kept, living, dying)
  {
    KeptUpdate(table, discard, i, x, false);
    CountUpdate(discard, epoch, i, false, e, true);
    CountUpdate(discard, epoch, i, false, e, false);
    assert discard[i := false] == discard;
  }

  /** Putting it into a discardable slot keeps everything. */
  lemma {:induction false} MovingPut<T>(table: seq<T>, discard: seq<bool>, epoch: seq<bool>, x: T, e: bool,
                                        kept: multiset<T>, living: nat, dying: nat, i: nat)
    requires Moving(table, discard, epoch, x, e, kept, living, dying) && i < |table| && discard[i]
    ensures Kept(table[i := x], discard[i := false]) == kept
    ensures Count(discard[i := false], epoch[i := e], true) == living
    ensures Count(discard[i := false], epoch[i := e], false) == dying
  {
    KeptUpdate(table, discard, i, x, false);
    CountUpdate(discard, epoch, i, false, e, true);
    CountUpdate(discard, epoch, i, false, e, false);
  }

  lemma {:induction false} MovingStart<T>(table: seq<T>, discard: seq<bool>, epoch: seq<bool>, x: T)
    requires |table| == |discard| == |epoch|
    ensures Moving(table, discard, epoch, x, true, Kept(table, discard) + multiset{x}, Count(discard, epoch, true) + 1,
            Count(discard, epoch, false))
  {
  }

  lemma {:induction false} MovingDrop<T>(table: seq<T>, discard: seq<bool>, epoch: seq<bool>, x: T, e: bool,
                                         kept: multiset<T>, living: nat, dying: nat)
    requires Moving(table, discard, epoch, x, e, kept, living, dying)
    ensures Kept(table, discard) + multiset{x} == kept
    ensures Count(discard, epoch, true) <= living && Count(discard, epoch, false) <= dying
  {
  }

  /** The index a `std::find` over the locations gives: the first match, or the length. */
  function Find(s: seq<nat>, x: nat): (k: nat)
    ensures k <= |s| && (k < |s| ==> s[k] == x)
    ensures x in s ==> k < |s|
  {
    if s == [] then 0 else if s[0] == x then 0 else 1 + Find(s[1..], x)
  }

  /** The place to swap with: the one after the place last looked at. */
  function NextPlace(locs: seq<nat>, last: nat): nat
    requires |locs| == 8
  {
    locs[(1 + Find(locs, last)) % 8]
  }

  /** The first swap is with the second place, since the search for the invalid place comes back empty. */
  lemma {:induction false} FirstSwap(locs: seq<nat>, size: nat)
    requires |locs| == 8 && size < UINT32_LIMIT && forall m :: 0 <= m < 8 ==> locs[m] < size
    ensures NextPlace(locs, UINT32_LIMIT - 1) == locs[1]
  {
  }

  /** The first place that is `last` is the `k`-th, and the next place is the same again. */
  predicate Doubled(locs: seq<nat>, last: nat, k: nat)
    requires |locs| == 8
  {
    k < 7 && locs[k] == last && locs[k + 1] == last && last !in locs[..k]
  }

  /** An element just put in is moved out by the next swap exactly when its place is listed twice in a row,
      with no earlier mention. */
  lemma {:induction false} JustPlacedMoves(locs: seq<nat>, last: nat)
    requires |locs| == 8
    ensures NextPlace(locs, last) == last <==> exists k :: Doubled(locs, last, k)
  {
    hide Doubled;
    FindFirst(locs, last);
    var k := Find(locs, last);
    assert k == 7 ==> locs[0] in locs[..k];
    assert k == 8 ==> locs[1] in locs;
    DoubledIs(locs, last, k);
    assert NextPlace(locs, last) == last ==> Doubled(locs, last, k);
    if j :| Doubled(locs, last, j) {
      DoubledIs(locs, last, j);
      FindIs(locs, last, j);
    }
  }

  lemma {:induction false} DoubledIs(locs: seq<nat>, last: nat, k: nat)
    requires |locs| == 8
    ensures Doubled(locs, last, k) <==> k < 7 && locs[k] == last && locs[k + 1] == last && last !in locs[..k]
  {
  }

  lemma {:induction false} FindFirst(s: seq<nat>, x: nat)
    ensures x !in s[..Find(s, x)]
  {
    if s != [] && s[0] != x {
      FindFirst(s[1..], x);
      assert s[..Find(s, x)] == [s[0]] + s[1..][..Find(s[1..], x)];
    }
  }

  lemma {:induction false} FindIs(s: seq<nat>, x: nat, k: nat)
    requires k < |s| && s[k] == x && x !in s[..k]
    ensures Find(s, x) == k
  {
    if k > 0 {
      assert s[0] in s[..k];
      assert s[1..][..k - 1] == s[1..k] && forall y :: y in s[1..k] ==> y in s[..k];
      FindIs(s[1..], x, k - 1);
    }
  }

  /** So it is moved back for a place listed twice in a row, and not for one repeated later. */
  lemma {:induction false} JustPlacedMovesBack()
    ensures NextPlace([5, 5, 0, 1, 2, 3, 4, 6], 5) == 5
    ensures NextPlace([5, 1, 5, 2, 3, 4, 6, 7], 5) == 1
  {
    var locs: seq<nat> := [5, 5, 0, 1, 2, 3, 4, 6];
    assert locs[0] == 5 && Find(locs, 5) == 0;
    var others: seq<nat> := [5, 1, 5, 2, 3, 4, 6, 7];
    assert others[0] == 5 && Find(others, 5) == 0;
  }

  /** The first of the places whose value is `x`, or their number. */
  ghost function FirstIn<T>(values: seq<T>, locs: seq<nat>, x: T): (k: nat)
    requires forall m :: 0 <= m < |locs| ==> locs[m] < |values|
    ensures k <= |locs| && (k < |locs| ==> values[locs[k]] == x) && forall m :: 0 <= m < k ==> values[locs[m]] != x
  {
    if locs == [] then 0 else if values[locs[0]] == x then 0 else 1 + FirstIn(values, locs[1..], x)
  }

  datatype Shelves<T> = Shelves(table: seq<T>, discard: seq<bool>, epoch: seq<bool>)

  /** Where the chain of displacements ends: an element goes to the first of its places that may be
      overwritten, or else changes with the one in its next place, which goes on; the last one is dropped. */
  ghost function Settle<T(!new)>(hash: T -> seq<nat>, s: Shelves<T>, e: T, last: nat, lastEpoch: bool, depth: nat):
    (Shelves<T>, multiset<T>)
    requires |s.table| == |s.discard| == |s.epoch| > 0 && HashOk(hash)
    decreases depth
  {
    if depth == 0 then (s, multiset{e})
    else
      LocationsFit(hash, |s.table|, e);
      var locs := Locations(hash, |s.table|, e);
      var k := FirstIn(s.discard, locs, true);
      if k < 8 then
        (Shelves(s.table[locs[k] := e], s.discard[locs[k] := false], s.epoch[locs[k] := lastEpoch]), multiset{})
      else
        var loc := NextPlace(locs, last);
        Settle(hash, Shelves(s.table[loc := e], s.discard, s.epoch[loc := lastEpoch]), s.table[loc], loc, s.epoch[loc],
          depth - 1)
  }

  lemma {:induction false} SettleStep<T(!new)>(hash: T -> seq<nat>, s: Shelves<T>, e: T, last: nat, lastEpoch: bool,
                                        depth: nat, locs: seq<nat>, k: nat)
    requires |s.table| == |s.discard| == |s.epoch| > 0 && HashOk(hash) && depth > 0
    requires locs == Locations(hash, |s.table|, e) && |locs| == 8 && (forall m :: 0 <= m < 8 ==> locs[m] < |s.table|)
    requires k == FirstIn(s.discard, locs, true)
    ensures k < 8 ==>
      Settle(hash, s, e, last, lastEpoch, depth)
      == (Shelves(s.table[locs[k] := e], s.discard[locs[k] := false], s.epoch[locs[k] := lastEpoch]), multiset{})
    ensures k >= 8 ==> NextPlace(locs, last) in locs && NextPlace(locs, last) < |s.table|
    ensures k >= 8 ==>
      var loc := NextPlace(locs, last);
      Settle(hash, s, e, last, lastEpoch, depth)
      == Settle(hash, Shelves(s.table[loc := e], s.discard, s.epoch[loc := lastEpoch]), s.table[loc], loc, s.epoch[loc],
         depth - 1)
  {
    hide FirstIn, HashOk, Locations;
  }

  lemma {:induction false} SettleDone<T(!new)>(hash: T -> seq<nat>, s: Shelves<T>, e: T, last: nat, lastEpoch: bool)
    requires |s.table| == |s.discard| == |s.epoch| > 0 && HashOk(hash)
    ensures Settle(hash, s, e, last, lastEpoch, 0) == (s, multiset{e})
  {
  }

  /** A place that may be overwritten is enough for an element to get in without another going out. */
  lemma {:induction false} FreePlaceSuffices<T(!new)>(hash: T -> seq<nat>, s: Shelves<T>, e: T, last: nat,
                                               lastEpoch: bool, depth: nat)
    requires |s.table| == |s.discard| == |s.epoch| > 0 && HashOk(hash) && depth > 0
    requires exists i :: 0 <= i < |s.discard| && s.discard[i] && i in Locations(hash, |s.table|, e)
    ensures Settle(hash, s, e, last, lastEpoch, depth).1 == multiset{}
  {
    hide HashOk, Locations;
    LocationsFit(hash, |s.table|, e);
    var locs := Locations(hash, |s.table|, e);
    var i :| 0 <= i < |s.discard| && s.discard[i] && i in locs;
    var m :| 0 <= m < 8 && locs[m] == i;
    assert s.discard[locs[m]] == true;
  }

  // ----- The cache -----

  /** The epochs stay within their bound: the living one even if every insert until the next scan adds to it. */
  ghost predicate EpochsOk(discard: seq<bool>, epoch: seq<bool>, counter: nat, epochSize: nat) {
    && |discard| == |epoch| && epochSize >= 1
    && Count(discard, epoch, true) + counter <= EpochBound(epochSize)
    && Count(discard, epoch, false) <= EpochBound(epochSize)
  }

  ghost predicate RoomForOne(discard: seq<bool>, epoch: seq<bool>, counter: nat, epochSize: nat) {
    |discard| == |epoch| && EpochsOk(discard, epoch, counter + 1, epochSize)
  }

  lemma {:induction false} RoomBound(discard: seq<bool>, epoch: seq<bool>, counter: nat, epochSize: nat)
    requires RoomForOne(discard, epoch, counter, epochSize)
    ensures epochSize >= 1 && Count(discard, epoch, true) + 1 + counter <= EpochBound(epochSize)
    ensures Count(discard, epoch, false) <= EpochBound(epochSize)
  {
  }

  lemma {:induction false} AgedRoom(discard: seq<bool>, epoch: seq<bool>, epochSize: nat)
    requires EpochsOk(discard, epoch, 0, epochSize)
    ensures RoomForOne(Aged(discard, epoch), NoEpoch(|epoch|), epochSize, epochSize)
  {
    AgedCounts(discard, epoch);
  }

  lemma {:induction false} ScanRoom(discard: seq<bool>, epoch: seq<bool>, epochSize: nat)
    requires EpochsOk(discard, epoch, 0, epochSize) && Count(discard, epoch, true) < epochSize
    ensures RoomForOne(discard, epoch, NextScan(epochSize, Count(discard, epoch, true)), epochSize)
  {
  }

  lemma {:induction false} WithinBound(discard: seq<bool>, epoch: seq<bool>, counter: nat, epochSize: nat, living: nat,
                                       dying: nat)
    requires |discard| == |epoch| && epochSize >= 1
    requires Count(discard, epoch, true) <= living && Count(discard, epoch, false) <= dying
    requires living + counter <= EpochBound(epochSize) && dying <= EpochBound(epochSize)
    ensures EpochsOk(discard, epoch, counter, epochSize)
  {
  }

  /** An element found in one of its places is kept again, as one of the living epoch. */
  lemma {:induction false} Refreshed<T>(hash: T -> seq<nat>, table: seq<T>, discard: seq<bool>, epoch: seq<bool>,
                                        counter: nat, epochSize: nat, loc: nat)
    requires Placed(hash, table, discard) && RoomForOne(discard, epoch, counter, epochSize) && loc < |table|
    requires loc in Locations(hash, |table|, table[loc])
    ensures Placed(hash, table, discard[loc := false])
    ensures EpochsOk(discard[loc := false], epoch[loc := true], counter, epochSize)
    ensures Kept(table, discard[loc := false])
            == Kept(table, discard) + (if discard[loc] then multiset{table[loc]} else multiset{})
    ensures !discard[loc] ==> table[loc] in Kept(table, discard)
  {
    PlacedUpdate(hash, table, discard, loc, table[loc]);
    assert table[loc := table[loc]] == table;
    KeptUpdate(table, discard, loc, table[loc], false);
    CountUpdate(discard, epoch, loc, false, true, true);
    CountUpdate(discard, epoch, loc, false, true, false);
    if !discard[loc] {
      assert discard[loc := false] == discard;
      KeptAt(table, discard, loc);
    }
  }

  /** The product wraps at 32 bits. */
  function EpochSize(size: nat): nat { Max(1, (45 * size) % UINT32_LIMIT / 100) }

  /** An epoch takes at most 45 per cent of the slots, but at least one. */
  function EpochCap(size: nat): nat { Max(1, 45 * size / 100) }

  lemma {:induction false} EpochsLeaveRoom(size: nat, epochSize: nat)
    requires size > 20 && epochSize <= EpochCap(size)
    ensures 2 * EpochBound(epochSize) < size
  {
  }

  lemma {:induction false} EpochFits(size: nat)
    ensures 1 <= EpochSize(size) <= EpochCap(size)
  {
  }

  /** An epoch has its 45 per cent exactly up to the last size whose product does not wrap. */
  lemma {:induction false} EpochIsFull(size: nat)
    requires size < UINT32_LIMIT
    ensures EpochSize(size) == EpochCap(size) <==> size <= 95443717
  {
    if size > 95443717 {
      assert 45 * size - UINT32_LIMIT >= 45 * size % UINT32_LIMIT;
    }
  }

  /** One slot more, and an epoch is a single slot. */
  lemma {:induction false} EpochCollapses()
    ensures EpochSize(95443717) == 42949672 && EpochSize(95443718) == 1
  {
  }

  lemma {:induction false} FreshOk<T>(newSize: nat, size: nat, epochSize: nat, table: seq<T>, hash: T -> seq<nat>,
                                      discard: seq<bool>, epoch: seq<bool>)
    requires newSize < UINT32_LIMIT && size == Max(2, newSize) && epochSize >= 1
    requires |table| == |discard| == |epoch| && forall i :: 0 <= i < |discard| ==> discard[i]
    requires Count(discard, epoch, true) == Count(discard, epoch, false) == 0
    ensures Placed(hash, table, discard) && EpochsOk(discard, epoch, epochSize, epochSize)
    ensures 2 <= size < UINT32_LIMIT
    ensures size <= UINT32_LIMIT - 8 <==> newSize <= UINT32_LIMIT - 8
    ensures epochSize >= 1
  {
    hide Locations;
  }

  class Cache<T(==, !new)> {
    const size: nat
    const epochSize: nat
    const depthLimit: nat
    const hash: T -> seq<nat>
    var table: seq<T>
    const collectionFlags: BitPackedFlags
    ghost var discard: seq<bool>  // what the collection flags hold: true where a slot may be overwritten
    var epoch: seq<bool>
    var counter: nat

    ghost predicate Flagged()
      reads this, collectionFlags
    {
      collectionFlags.size == size && collectionFlags.Covers() && discard == collectionFlags.Flags()
    }

    ghost predicate Shaped()
      reads this, collectionFlags
    {
      && size == |table| == |discard| == |epoch| && 2 <= size < UINT32_LIMIT && Flagged()
      && depthLimit >= 1 && epochSize <= EpochCap(size) && HashOk(hash) && Placed(hash, table, discard)
    }

    ghost predicate Valid()
      reads this, collectionFlags
    {
      Shaped() && EpochsOk(discard, epoch, counter, epochSize)
    }

    /** Usable exactly for sizes whose flags all have a byte.  `depthLimit` is the truncated float logarithm of the
        size, at least 1. */
    constructor (newSize: nat, depthLimit: nat, hash: T -> seq<nat>, blank: T)
      requires newSize < UINT32_LIMIT && HashOk(hash) && depthLimit >= 1
      ensures fresh(collectionFlags) && size == Max(2, newSize) && this.hash == hash
      ensures Valid() <==> newSize <= UINT32_LIMIT - 8
      ensures epochSize == EpochSize(size) && counter == epochSize
      ensures epochSize == EpochCap(size) <==> size <= 95443717
      ensures this.depthLimit == depthLimit
      ensures |table| == |discard| && Kept(table, discard) == multiset{}
    {
      var n := Max(2, newSize);
      size, this.hash := n, hash;
      this.depthLimit := depthLimit;
      table, discard, epoch := seq(n, _ => blank), AllSet(n), NoEpoch(n);
      collectionFlags := new BitPackedFlags(n);
      epochSize := EpochSize(n);
      counter := EpochSize(n);
      new;
      hide Kept, Count, Placed, HashOk, Locations, EpochCap, EpochSize, EpochsOk, EpochBound, Max, AllSet, NoEpoch;
      Empty(table, discard, epoch);
      EpochFits(size);
      EpochIsFull(size);
      FreshOk(newSize, size, epochSize, table, hash, discard, epoch);
    }

    method EpochCheck()
      requires Valid()
      modifies this`discard, this`epoch, this`counter, collectionFlags
      ensures Shaped() && RoomForOne(discard, epoch, counter, epochSize)
      ensures old(counter) != 0 ==> counter == old(counter) - 1 && discard == old(discard) && epoch == old(epoch)
      ensures old(counter) == 0 && old(Count(discard, epoch, true)) >= epochSize ==>
        counter == epochSize && discard == Aged(old(discard), old(epoch)) && epoch == NoEpoch(size)
      ensures old(counter) == 0 && old(Count(discard, epoch, true)) < epochSize ==>
        var used := old(Count(discard, epoch, true));
        && counter == (if epochSize / 16 < epochSize - used then epochSize - used
                       else if epochSize < 16 then 1 else epochSize / 16)
        && discard == old(discard) && epoch == old(epoch)
    {
      if counter != 0 {
        counter := counter - 1;
        return;
      }
      var used := CountLiving();
      if used >= epochSize {
        AgedRoom(discard, epoch, epochSize);
        PlacedDiscard(hash, table, discard, Aged(discard, epoch));
        Age();
        counter := epochSize;
      } else {
        ScanRoom(discard, epoch, epochSize);
        counter := Max(1, Max(epochSize / 16, epochSize - used));
      }
    }

    /** Marks a slot as one that may be overwritten. */
    method AllowErase(n: nat)
      requires Flagged() && n < size
      modifies this`discard, collectionFlags
      ensures Flagged() && discard == old(discard)[n := true]
    {
      collectionFlags.BitSet(n);
      discard := discard[n := true];
    }

    /** Marks a slot as one to keep. */
    method PleaseKeep(n: nat)
      requires Flagged() && n < size
      modifies this`discard, collectionFlags
      ensures Flagged() && discard == old(discard)[n := false]
    {
      collectionFlags.BitUnset(n);
      discard := discard[n := false];
    }

    /** Counts the living epoch's slots that have not been erased. */
    method CountLiving() returns (used: nat)
      requires Flagged() && |epoch| == size
      ensures used == Count(discard, epoch, true)
    {
      used := 0;
      for i := 0 to size
        invariant used == Count(discard[..i], epoch[..i], true)
      {
        assert discard[..i + 1][..i] == discard[..i] && epoch[..i + 1][..i] == epoch[..i];
        if epoch[i] && !collectionFlags.IsSet(i) { used := used + 1; }
      }
      assert discard[..size] == discard && epoch[..size] == epoch;
    }

    method Age()
      requires Flagged() && |epoch| == size
      modifies this`discard, this`epoch, collectionFlags
      ensures Flagged() && discard == Aged(old(discard), old(epoch)) && epoch == NoEpoch(size)
    {
      for i := 0 to size
        invariant Flagged() && |epoch| == size
        invariant forall k :: 0 <= k < i ==> discard[k] == (old(discard)[k] || !old(epoch)[k]) && !epoch[k]
        invariant forall k :: i <= k < size ==> discard[k] == old(discard)[k] && epoch[k] == old(epoch)[k]
      {
        if epoch[i] {
          epoch := epoch[i := false];
        } else {
          AllowErase(i);
        }
      }
    }

    /** The first of the places that holds the element, 8 if none does. */
    method FindElement(e: T, locs: seq<nat>) returns (k: nat)
      requires |locs| == 8 && (forall m :: 0 <= m < 8 ==> locs[m] < size) && size == |table|
      ensures k == FirstIn(table, locs, e)
    {
      k := 0;
      while k < 8 && table[locs[k]] != e
        invariant k <= 8 && forall m :: 0 <= m < k ==> table[locs[m]] != e
      {
        k := k + 1;
      }
    }

    /** The first of the places that may be overwritten, 8 if none may. */
    method FindDiscardable(locs: seq<nat>) returns (k: nat)
      requires |locs| == 8 && (forall m :: 0 <= m < 8 ==> locs[m] < size) && Flagged()
      ensures k == FirstIn(discard, locs, true)
    {
      k := 0;
      while k < 8 && !collectionFlags.IsSet(locs[k])
        invariant k <= 8 && forall m :: 0 <= m < k ==> !discard[locs[m]]
      {
        k := k + 1;
      }
    }

    /** Stores `e`: after the epoch check, whose flags are `checked`, the kept elements and the new one
        are all there but at most one. */
    method Insert(e: T) returns (ghost checked: Shelves<T>, ghost already: bool, ghost dropped: multiset<T>)
      requires Valid()
      modifies this, collectionFlags
      ensures Valid()
      ensures checked == if old(counter) == 0 && old(Count(discard, epoch, true)) >= epochSize
                         then Shelves(old(table), Aged(old(discard), old(epoch)), NoEpoch(size))
                         else Shelves(old(table), old(discard), old(epoch))
      ensures |checked.discard| == |checked.epoch| == |old(table)| == size > 0 && HashOk(hash)
      ensures InsertStep(checked, e, already, dropped)
      ensures already ==> e in Kept(old(table), checked.discard)
      ensures Kept(table, discard) + dropped
              == Kept(old(table), checked.discard) + (if already then multiset{} else multiset{e})
      ensures |dropped| <= 1
      ensures (exists i :: 0 <= i < size && checked.discard[i] && i in Locations(hash, size, e)) ==>
              dropped == multiset{}
    {
      hide Placed, EpochsOk, Kept, Count, HashOk, Locations, Aged, Settle, FirstIn;
      EpochCheck();
      checked, already, dropped := Shelves(table, discard, epoch), false, multiset{};
      LocationsFit(hash, size, e);
      var locs := Locations(hash, size, e);
      var k := FindElement(e, locs);
      if k < 8 {
        already := !discard[locs[k]];
        Refreshed(hash, table, discard, epoch, counter, epochSize, locs[k]);
        assert locs[k] in locs;
        PleaseKeep(locs[k]);
        epoch := epoch[locs[k] := true];
        return;
      }
      if exists i :: 0 <= i < size && checked.discard[i] && i in Locations(hash, size, e) {
        FreePlaceSuffices(hash, checked, e, UINT32_LIMIT - 1, true, depthLimit);
      }
      dropped := Displace(e);
    }

    /** Where insert leaves the slots: an element found in one of its places is kept there as one of the
        living epoch, any other starts a chain of displacements. */
    ghost predicate InsertStep(s: Shelves<T>, e: T, already: bool, dropped: multiset<T>)
      requires |s.table| == |s.discard| == |s.epoch| > 0 && HashOk(hash)
      reads this
    {
      LocationsFit(hash, |s.table|, e);
      var locs := Locations(hash, |s.table|, e);
      var k := FirstIn(s.table, locs, e);
      if k < 8 then
        && Shelves(table, discard, epoch) == Shelves(s.table, s.discard[locs[k] := false], s.epoch[locs[k] := true])
        && already == !s.discard[locs[k]] && dropped == multiset{}
      else
        !already && (Shelves(table, discard, epoch), dropped) == Settle(hash, s, e, UINT32_LIMIT - 1, true, depthLimit)
    }

    method PutAt(loc: nat, e: T, lastEpoch: bool, ghost kept: multiset<T>, ghost living: nat, ghost dying: nat)
      requires Shaped() && Moving(table, discard, epoch, e, lastEpoch, kept, living, dying)
      requires loc < size && loc in Locations(hash, size, e) && discard[loc]
      requires epochSize >= 1 && living + counter <= EpochBound(epochSize) && dying <= EpochBound(epochSize)
      modifies this`table, this`discard, this`epoch, collectionFlags
      ensures Valid() && Kept(table, discard) == kept
      ensures table == old(table)[loc := e] && discard == old(discard)[loc := false]
              && epoch == old(epoch)[loc := lastEpoch]
    {
      hide Placed, EpochsOk, Kept, Count, HashOk, Locations, Moving, EpochBound;
      MovingPut(table, discard, epoch, e, lastEpoch, kept, living, dying, loc);
      PlacedUpdate(hash, table, discard, loc, e);
      WithinBound(discard[loc := false], epoch[loc := lastEpoch], counter, epochSize, living, dying);
      PleaseKeep(loc);
      table, epoch := table[loc := e], epoch[loc := lastEpoch];
    }

    method SwapAt(loc: nat, e: T, lastEpoch: bool, ghost kept: multiset<T>, ghost living: nat, ghost dying: nat)
      returns (e': T, lastEpoch': bool)
      requires Shaped() && Moving(table, discard, epoch, e, lastEpoch, kept, living, dying)
      requires loc < size && loc in Locations(hash, size, e) && !discard[loc]
      modifies this`table, this`epoch
      ensures Shaped() && Moving(table, discard, epoch, e', lastEpoch', kept, living, dying)
      ensures table == old(table)[loc := e] && epoch == old(epoch)[loc := lastEpoch]
      ensures e' == old(table)[loc] && lastEpoch' == old(epoch)[loc]
    {
      hide Placed, Kept, Count, HashOk, Locations, Moving;
      MovingSwap(table, discard, epoch, e, lastEpoch, kept, living, dying, loc);
      PlacedUpdate(hash, table, discard, loc, e);
      assert discard[loc := false] == discard;
      e', lastEpoch' := table[loc], epoch[loc];
      table, epoch := table[loc := e], epoch[loc := lastEpoch];
    }

    /** One round: the element goes to a place that may be overwritten, or changes with another. */
    method Round(e: T, lastLoc: nat, lastEpoch: bool, ghost depth: nat, ghost kept: multiset<T>, ghost living: nat,
                 ghost dying: nat)
      returns (placed: bool, e': T, lastLoc': nat, lastEpoch': bool)
      requires Shaped() && depth > 0 && Moving(table, discard, epoch, e, lastEpoch, kept, living, dying)
      requires epochSize >= 1 && living + counter <= EpochBound(epochSize) && dying <= EpochBound(epochSize)
      modifies this`table, this`discard, this`epoch, collectionFlags
      ensures Shaped()
      ensures placed ==> Valid() && Kept(table, discard) == kept
      ensures placed ==> old(Settle(hash, Shelves(table, discard, epoch), e, lastLoc, lastEpoch, depth))
                         == (Shelves(table, discard, epoch), multiset{})
      ensures !placed ==> Moving(table, discard, epoch, e', lastEpoch', kept, living, dying)
      ensures !placed ==> old(Settle(hash, Shelves(table, discard, epoch), e, lastLoc, lastEpoch, depth))
                          == Settle(hash, Shelves(table, discard, epoch), e', lastLoc', lastEpoch', depth - 1)
    {
      hide Placed, EpochsOk, Kept, Count, HashOk, Locations, Moving, NextPlace, EpochBound, FirstIn, Settle, EpochCap,
        Flagged;
      LocationsFit(hash, size, e);
      var locs := Locations(hash, size, e);
      var k := FindDiscardable(locs);
      SettleStep(hash, Shelves(table, discard, epoch), e, lastLoc, lastEpoch, depth, locs, k);
      placed, e', lastLoc', lastEpoch' := k < 8, e, lastLoc, lastEpoch;
      if placed {
        PutAt(locs[k], e, lastEpoch, kept, living, dying);
      } else {
        lastLoc' := NextPlace(locs, lastLoc);
        e', lastEpoch' := SwapAt(lastLoc', e, lastEpoch, kept, living, dying);
      }
    }

    /** The rounds, up to the depth limit. */
    method Rounds(e0: T, ghost kept: multiset<T>, ghost living: nat, ghost dying: nat) returns (placed: bool, e: T)
      requires Shaped() && Moving(table, discard, epoch, e0, true, kept, living, dying)
      requires epochSize >= 1 && living + counter <= EpochBound(epochSize) && dying <= EpochBound(epochSize)
      modifies this`table, this`discard, this`epoch, collectionFlags
      ensures Shaped()
      ensures placed ==> Valid() && Kept(table, discard) == kept
      ensures !placed ==> exists lastEpoch :: Moving(table, discard, epoch, e, lastEpoch, kept, living, dying)
      ensures old(Settle(hash, Shelves(table, discard, epoch), e0, UINT32_LIMIT - 1, true, depthLimit))
              == (Shelves(table, discard, epoch), if placed then multiset{} else multiset{e})
    {
      hide Placed, EpochsOk, Kept, Count, HashOk, Locations, Moving, EpochBound, Settle, EpochCap, Flagged;
      ghost var end := Settle(hash, Shelves(table, discard, epoch), e0, UINT32_LIMIT - 1, true, depthLimit);
      var lastLoc: nat, lastEpoch := UINT32_LIMIT - 1, true;
      e := e0;
      for depth := 0 to depthLimit
        invariant Shaped() && Moving(table, discard, epoch, e, lastEpoch, kept, living, dying)
        invariant end == Settle(hash, Shelves(table, discard, epoch), e, lastLoc, lastEpoch, depthLimit - depth)
      {
        placed, e, lastLoc, lastEpoch := Round(e, lastLoc, lastEpoch, depthLimit - depth, kept, living, dying);
        if placed { return; }
      }
      placed := false;
      SettleDone(hash, Shelves(table, discard, epoch), e, lastLoc, lastEpoch);
    }

    /** Puts the element into a place of its own, moving others on to theirs, up to the depth limit. */
    method Displace(e0: T) returns (ghost dropped: multiset<T>)
      requires Shaped() && RoomForOne(discard, epoch, counter, epochSize)
      modifies this`table, this`discard, this`epoch, collectionFlags
      ensures Valid() && |dropped| <= 1
      ensures Kept(table, discard) + dropped == Kept(old(table), old(discard)) + multiset{e0}
      ensures (Shelves(table, discard, epoch), dropped)
              == Settle(hash, Shelves(old(table), old(discard), old(epoch)), e0, UINT32_LIMIT - 1, true, depthLimit)
    {
      ghost var kept := Kept(table, discard) + multiset{e0};
      ghost var living, dying := Count(discard, epoch, true) + 1, Count(discard, epoch, false);
      RoomBound(discard, epoch, counter, epochSize);
      MovingStart(table, discard, epoch, e0);
      hide RoomForOne, Locations, Placed, EpochsOk, Kept, Count, HashOk, Moving, EpochBound, Settle, EpochCap, Flagged;
      var placed, e := Rounds(e0, kept, living, dying);
      dropped := if placed then multiset{} else multiset{e};
      if !placed {
        ghost var lastEpoch :| Moving(table, discard, epoch, e, lastEpoch, kept, living, dying);
        MovingDrop(table, discard, epoch, e, lastEpoch, kept, living, dying);
        WithinBound(discard, epoch, counter, epochSize, living, dying);
      }
    }

    method Contains(e: T, erase: bool) returns (found: bool)
      requires Valid()
      modifies this`discard, collectionFlags
      ensures Valid()
      ensures found <==> exists loc :: 0 <= loc < size && loc in Locations(hash, size, e) && table[loc] == e
      ensures e in Kept(table, old(discard)) ==> found
      ensures !(found && erase) ==> discard == old(discard)
      ensures found && erase ==>
        var locs := Locations(hash, size, e);
        && |locs| == 8 && (forall m :: 0 <= m < 8 ==> locs[m] < size)
        && FirstIn(table, locs, e) < 8 && discard == old(discard)[locs[FirstIn(table, locs, e)] := true]
    {
      hide Placed, EpochsOk, Kept, Count, HashOk, Locations, FirstIn;
      LocationsFit(hash, size, e);
      var locs := Locations(hash, size, e);
      KeptIsFound(hash, table, discard, e);
      var k := FindElement(e, locs);
      if k == 8 {
        return false;
      }
      assert locs[k] in locs;
      if erase {
        ErasedOk(hash, table, discard, epoch, counter, epochSize, locs[k]);
        AllowErase(locs[k]);
      }
      found := true;
    }

    /** The load: kept elements never exceed two epochs, which at 45 per cent each leaves room from 21 slots on. */
    lemma {:induction false} Load()
      requires Valid()
      ensures |Kept(table, discard)| <= 2 * EpochBound(epochSize)
      ensures size > 20 ==> |Kept(table, discard)| < size
    {
      KeptIsCounted(table, discard, epoch);
      if size > 20 { EpochsLeaveRoom(size, epochSize); }
    }

    /** Any run of inserts and lookups keeps the invariant. */
    method Run(ops: seq<Op<T>>)
      requires Valid()
      modifies this, collectionFlags
      ensures Valid() && |Kept(table, discard)| <= 2 * EpochBound(epochSize)
      ensures size > 20 ==> |Kept(table, discard)| < size
    {
      for i := 0 to |ops|
        invariant Valid()
      {
        match ops[i]
        case Add(e) =>
          ghost var checked, already, dropped := Insert(e);
        case Look(e, erase) =>
          var found := Contains(e, erase);
      }
      Load();
    }
  }

  datatype Op<T> = Add(e: T) | Look(e: T, erase: bool)

  lemma {:induction false} KeptIsFound<T>(hash: T -> seq<nat>, table: seq<T>, discard: seq<bool>, e: T)
    requires Placed(hash, table, discard)
    ensures e in Kept(table, discard) ==>
            exists loc :: 0 <= loc < |table| && loc in Locations(hash, |table|, e) && table[loc] == e
  {
    hide Locations;
    if e in Kept(table, discard) { KeptHas(table, discard, e); }
  }

  lemma {:induction false} ErasedOk<T>(hash: T -> seq<nat>, table: seq<T>, discard: seq<bool>, epoch: seq<bool>,
                                       counter: nat, epochSize: nat, loc: nat)
    requires Placed(hash, table, discard) && EpochsOk(discard, epoch, counter, epochSize) && loc < |discard|
    ensures Placed(hash, table, discard[loc := true]) && EpochsOk(discard[loc := true], epoch, counter, epochSize)
  {
    PlacedDiscard(hash, table, discard, discard[loc := true]);
    CountUpdate(discard, epoch, loc, true, epoch[loc], true);
    CountUpdate(discard, epoch, loc, true, epoch[loc], false);
    assert epoch[loc := epoch[loc]] == epoch;
  }

  lemma {:induction false} Empty<T>(table: seq<T>, discard: seq<bool>, epoch: seq<bool>)
    requires |table| == |discard| == |epoch| && forall i :: 0 <= i < |discard| ==> discard[i]
    ensures Kept(table, discard) == multiset{} && Count(discard, epoch, true) == 0 && Count(discard, epoch, false) == 0
  {
    if table != [] {
      var n := |table| - 1;
      Empty(table[..n], discard[..n], epoch[..n]);
    }
  }
}
