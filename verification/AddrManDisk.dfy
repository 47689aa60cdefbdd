/** Writing the address manager to disk and reading it back (AddrManImpl::Serialize and
    AddrManImpl::Unserialize in src/addrman.cpp).

    A file is a record of its parts, in the order they are written; the byte codec of single
    addresses is not modelled.  Only part of an entry is written: the rest is memory only.
 */
module AddrManDisk {
  import opened AddrIndex
  import opened AddrManCheck
  import opened AddrMan

  const FILE_FORMAT: nat := 4
  const V1_DETERMINISTIC: nat := 1
  const V2_ASMAP: nat := 2
  const LOWEST_COMPATIBLE: nat := 4
  const INCOMPATIBILITY_BASE: nat := 32
  const BIT_30: int := 0x4000_0000

  /** The fields of an entry that are written. */
  datatype Record = Record(service: Service, time: int, services: set<nat>, source: nat, lastSuccess: int,
    attempts: nat)

  function ToRecord(x: AddrInfo): Record {
    Record(x.service, x.time, x.services, x.source, x.lastSuccess, x.attempts)
  }

  function FromRecord(r: Record): AddrInfo {
    AddrInfo(r.service, r.time, r.services, r.source, 0, 0, r.lastSuccess, r.attempts, 0, false, -1)
  }

  datatype File = File(format: nat, compat: nat, uBuckets: int, newEntries: seq<Record>, triedEntries: seq<Record>,
                       rows: seq<seq<int>>, checksum: nat)

  /** Exclusive or with `1 << 30`. */
  function FlipBit30(n: int): int { if (n / BIT_30) % 2 == 0 then n + BIT_30 else n - BIT_30 }

  // ----- Serialize -----

  /** The ids to write, in the order the map is walked. */
  ghost function Pick(order: seq<int>, info: Infos, tried: bool): seq<int> {
    if order == [] then []
    else
      var n := |order| - 1;
      Pick(order[..n], info, tried)
      + if order[n] in info && (if tried then info[order[n]].inTried else info[order[n]].refCount != 0) then [order[n]]
        else []
  }

  ghost function Records(info: Infos, ids: seq<int>): seq<Record>
    requires forall k :: 0 <= k < |ids| ==> ids[k] in info
  {
    seq(|ids|, k requires 0 <= k < |ids| => ToRecord(info[ids[k]]))
  }

  /** The rank of an id among the new entries written. */
  function IndexOf(ids: seq<int>, id: int): (k: nat)
    ensures k <= |ids| && (id in ids ==> k < |ids| && ids[k] == id)
  {
    if ids == [] then 0 else if ids[0] == id then 0 else 1 + IndexOf(ids[1..], id)
  }

  /** A bucket's references as ranks, in slot order. */
  ghost function Row(slots: seq<int>, ids: seq<int>): seq<int> {
    if slots == [] then []
    else
      var n := |slots| - 1;
      Row(slots[..n], ids) + if slots[n] != -1 then [IndexOf(ids, slots[n])] else []
  }

  ghost function Rows(t: Table, ids: seq<int>): seq<seq<int>> {
    seq(|t|, b requires 0 <= b < |t| => Row(t[b], ids))
  }

  lemma {:induction false} PickIs(order: seq<int>, info: Infos, tried: bool)
    requires Distinct(order)
    ensures var ids := Pick(order, info, tried);
            && Distinct(ids)
            && forall id :: id in ids <==>
               id in order && id in info && (if tried then info[id].inTried else info[id].refCount != 0)
  {
    if order != [] {
      var n := |order| - 1;
      PickIs(order[..n], info, tried);
      assert order == order[..n] + [order[n]];
      assert order[n] !in order[..n];
    }
  }

  // ----- Unserialize -----

  function NewEntry(h: Hashes, ix: Index, r: Record): Index {
    var id := |ix.rnd|;
    ix.(idCount := id + 1, info := ix.info[id := FromRecord(r).(randomPos := |ix.rnd|)],
      addr := ix.addr[r.service := id],
        rnd := ix.rnd + [id], counters := Count(ix.counters, New(h.network(r.service))))
  }

  function TriedEntry(h: Hashes, ix: Index, r: Record): Index {
    var b := TriedBucket(h, r.service);
    var p := Position(h, false, b, r.service);
    if h.valid(r.service) && Slot(ix.triedTable, b, p) == -1 then
      ix.(idCount := ix.idCount + 1,
        info := ix.info[ix.idCount := FromRecord(r).(randomPos := |ix.rnd|, inTried := true)],
        addr := ix.addr[r.service := ix.idCount], rnd := ix.rnd + [ix.idCount],
        triedTable := SetSlot(ix.triedTable, b, p, ix.idCount),
        counters := Count(ix.counters, Tried(h.network(r.service))))
    else ix
  }

  ghost function LoadNew(h: Hashes, rs: seq<Record>): Index {
    if rs == [] then Blank() else NewEntry(h, LoadNew(h, rs[..|rs| - 1]), rs[|rs| - 1])
  }

  ghost function LoadTried(h: Hashes, ix: Index, rs: seq<Record>): Index {
    if rs == [] then ix else TriedEntry(h, LoadTried(h, ix, rs[..|rs| - 1]), rs[|rs| - 1])
  }

  function Refer(ix: Index, b: int, p: int, id: int): Index
    requires id in ix.info
  {
    ix.(newTable := SetSlot(ix.newTable, b, p, id),
      info := ix.info[id := ix.info[id].(refCount := ix.info[id].refCount + 1)])
  }

  /** One bucket entry of the file: to its old slot when the bucketing is unchanged, else to its home slot. */
  function PlaceRef(h: Hashes, ix: Index, b: nat, id: int, restore: bool): Index {
    if id !in ix.info then ix
    else
      var x := ix.info[id];
      if !h.valid(x.service) || x.refCount >= NEW_BUCKETS_PER_ADDRESS then ix
      else
        var p := Position(h, true, b, x.service);
        if restore && Slot(ix.newTable, b, p) == -1 then Refer(ix, b, p, id)
        else
          var home := HomeBucket(h, x);
          var q := Position(h, true, home, x.service);
          if Slot(ix.newTable, home, q) == -1 then Refer(ix, home, q, id) else ix
  }

  ghost function PlaceRow(h: Hashes, ix: Index, b: nat, row: seq<int>, nNew: nat, restore: bool): Index {
    if row == [] then ix
    else
      var n := |row| - 1;
      var prev := PlaceRow(h, ix, b, row[..n], nNew, restore);
      if 0 <= row[n] < nNew then PlaceRef(h, prev, b, row[n], restore) else prev
  }

  ghost function PlaceRows(h: Hashes, ix: Index, rows: seq<seq<int>>, nNew: nat, restore: bool): Index {
    if rows == [] then ix
    else
      var n := |rows| - 1;
      PlaceRow(h, PlaceRows(h, ix, rows[..n], nNew, restore), n, rows[n], nNew, restore)
  }

  // ----- Reading back what was written: entries -----

  /** `ns` lists the new ids and `ts` the tried ones of a consistent manager, all with valid addresses. */
  ghost predicate Source(h: Hashes, ix0: Index, ns: seq<int>, ts: seq<int>) {
    && Ok(h, ix0, {}, {}) && Distinct(ns) && Distinct(ts)
    && (forall id :: id in ns <==> id in ix0.info && !ix0.info[id].inTried)
    && (forall id :: id in ts <==> id in ix0.info && ix0.info[id].inTried)
    && (forall id :: id in ix0.info ==> h.valid(ix0.info[id].service))
  }

  /** An entry as it is after loading, before any reference to it. */
  ghost function Reborn(x: AddrInfo, pos: int, tried: bool): AddrInfo {
    FromRecord(ToRecord(x)).(randomPos := pos, inTried := tried)
  }

  ghost function Range(n: nat): set<int> { if n == 0 then {} else Range(n - 1) + {n - 1} }

  lemma {:induction false} InRange(n: nat)
    ensures forall j :: j in Range(n) <==> 0 <= j < n
  {
    if n > 0 { InRange(n - 1); }
  }

  /** The entries loaded so far: the first `k` new ones, then the first `m` tried ones. */
  ghost predicate Entries(ix0: Index, ns: seq<int>, ts: seq<int>, info: Infos, k: nat, m: nat) {
    && k <= |ns| && m <= |ts| && (m > 0 ==> k == |ns|)
    && (forall j :: j in info <==> 0 <= j < k + m)
    && (forall j :: 0 <= j < k ==> ns[j] in ix0.info && info[j] == Reborn(ix0.info[ns[j]], j, false))
    && (forall j :: 0 <= j < m ==> ts[j] in ix0.info)
    && (forall j :: k <= j < k + m ==> info[j] == Reborn(ix0.info[ts[j - k]], j, true))
  }

  ghost predicate Loading(h: Hashes, ix0: Index, ns: seq<int>, ts: seq<int>, ix: Index, k: nat, m: nat) {
    && Entries(ix0, ns, ts, ix.info, k, m)
    && ix.idCount == |ix.rnd| == k + m
    && ix.newTable == EmptyTable(NEW_BUCKET_COUNT)
    && Ok(h, ix, Range(k), {})
  }

  /** No two ids have the same address. */
  lemma {:induction false} ServicesDiffer(h: Hashes, ix: Index, fl: set<int>, a: int, b: int)
    requires Ok(h, ix, fl, {}) && a in ix.info && b in ix.info && a != b
    ensures ix.info[a].service != ix.info[b].service
  {
    hide Ok;
    OkAddr(h, ix, fl, {}, a);
    OkAddr(h, ix, fl, {}, b);
  }

  lemma {:induction false} OkAddr(h: Hashes, ix: Index, fl: set<int>, det: set<int>, id: int)
    requires Ok(h, ix, fl, det) && id in ix.info
    ensures ix.info[id].service in ix.addr && ix.addr[ix.info[id].service] == id && 0 <= id < ix.idCount
  {
  }

  lemma {:induction false} OkTimes(h: Hashes, ix: Index, fl: set<int>, det: set<int>, id: int)
    requires Ok(h, ix, fl, det) && id in ix.info
    ensures TimesFine(ix.info[id])
  {
  }

  lemma {:induction false} LoadedServices(ix0: Index, ns: seq<int>, ts: seq<int>, info: Infos, k: nat, m: nat)
    requires Entries(ix0, ns, ts, info, k, m)
    ensures k <= |ns| && m <= |ts| && forall j :: j in info <==> 0 <= j < k + m
    ensures forall j :: 0 <= j < k ==> ns[j] in ix0.info && info[j].service == ix0.info[ns[j]].service
    ensures forall j :: 0 <= j < m ==> ts[j] in ix0.info
    ensures forall j :: k <= j < k + m ==> info[j].service == ix0.info[ts[j - k]].service
  {
  }

  /** The next entry's address is not loaded yet. */
  lemma {:induction false} NotLoadedYet(h: Hashes, ix0: Index, ns: seq<int>, ts: seq<int>, ix: Index, k: nat, m: nat,
                                        id: int)
    requires Ok(h, ix0, {}, {}) && Entries(ix0, ns, ts, ix.info, k, m) && Ok(h, ix, Range(k), {}) && id in ix0.info
    requires id !in ns[..k] && id !in ts[..m]
    ensures ix0.info[id].service !in ix.addr
  {
    hide Ok, Entries;
    var s := ix0.info[id].service;
    LoadedServices(ix0, ns, ts, ix.info, k, m);
    forall j | j in ix.info ensures ix.info[j].service != s {
      if j < k {
        assert ns[..k][j] == ns[j];
        ServicesDiffer(h, ix0, {}, ns[j], id);
      } else {
        assert ts[..m][j - k] == ts[j - k];
        ServicesDiffer(h, ix0, {}, ts[j - k], id);
      }
    }
    if s in ix.addr { OkFind(h, ix, Range(k), {}, s); }
  }

  lemma {:induction false} NotBefore(s: seq<int>, k: nat)
    requires Distinct(s) && k < |s|
    ensures s[k] !in s[..k]
  {
  }

  lemma {:induction false} NewEntryLoads(h: Hashes, ix0: Index, ns: seq<int>, ts: seq<int>, ix: Index, k: nat)
    requires Source(h, ix0, ns, ts) && Loading(h, ix0, ns, ts, ix, k, 0) && k < |ns|
    ensures ns[k] in ix0.info && Loading(h, ix0, ns, ts, NewEntry(h, ix, ToRecord(ix0.info[ns[k]])), k + 1, 0)
  {
    hide Ok;
    var id := ns[k];
    var x := Reborn(ix0.info[id], |ix.rnd|, false);
    NotBefore(ns, k);
    NotLoadedYet(h, ix0, ns, ts, ix, k, 0, id);
    OkTimes(h, ix0, {}, {}, id);
    CreateOk(h, ix, Range(k), {}, x);
  }

  lemma {:induction false} RecountTried(c: Counters, net: nat)
    ensures Count(Uncount(Count(c, New(net)), New(net)), Tried(net)) == Count(c, Tried(net))
  {
    var a, b := Count(Uncount(Count(c, New(net)), New(net)), Tried(net)), Count(c, Tried(net));
    assert a.nets == b.nets;
  }

  /** A tried entry is created straight in its empty slot. */
  lemma {:induction false} TriedEntryOk(h: Hashes, ix: Index, fl: set<int>, r: Record)
    requires Ok(h, ix, fl, {}) && r.service !in ix.addr && r.lastSuccess > 0 && h.valid(r.service)
    requires TriedSlot(h, ix.triedTable, r.service) == -1 && ix.idCount !in fl
    ensures Ok(h, TriedEntry(h, ix, r), fl, {})
  {
    hide Ok;
    var id, net := ix.idCount, h.network(r.service);
    var x := FromRecord(r).(randomPos := |ix.rnd|);
    CreateOk(h, ix, fl, {}, x);
    var ix1 := ix.(idCount := id + 1, info := ix.info[id := x], addr := ix.addr[r.service := id], rnd := ix.rnd + [id],
                   counters := Count(ix.counters, New(net)));
    DetachOk(h, ix1, fl + {id}, {}, id);
    var ix2 := ix1.(counters := Uncount(ix1.counters, New(net)));
    TryOk(h, ix2, fl + {id}, {} + {id}, id);
    RecountTried(ix.counters, net);
    assert (fl + {id}) - {id} == fl && ({} + {id}) - {id} == {};
    assert ix1.info[id := x.(inTried := true)] == ix.info[id := x.(inTried := true)];
  }

  /** Two tried entries do not hash to one slot. */
  lemma {:induction false} TriedSlotsDiffer(h: Hashes, ix: Index, fl: set<int>, a: int, b: int)
    requires Ok(h, ix, fl, {}) && a in ix.info && b in ix.info && ix.info[a].inTried && ix.info[b].inTried && a != b
    ensures var s, t := ix.info[a].service, ix.info[b].service;
            TriedBucket(h, s) != TriedBucket(h, t)
              || Position(h, false, TriedBucket(h, s), s) != Position(h, false, TriedBucket(h, t), t)
  {
    hide RandomOk, AddrOk, NewOk, RefsOk, CountersOk, TimesOk;
  }

  lemma {:induction false} OkTriedHolder(h: Hashes, ix: Index, fl: set<int>, b: nat, p: nat)
    requires Ok(h, ix, fl, {}) && Slot(ix.triedTable, b, p) != -1
    ensures var id := Slot(ix.triedTable, b, p);
            id in ix.info && ix.info[id].inTried && b == TriedBucket(h, ix.info[id].service)
              && p == Position(h, false, b, ix.info[id].service)
  {
    hide RandomOk, AddrOk, NewOk, RefsOk, CountersOk, TimesOk;
  }

  lemma {:induction false} SlotStillEmpty(h: Hashes, ix0: Index, ns: seq<int>, ts: seq<int>, ix: Index, m: nat)
    requires Source(h, ix0, ns, ts) && Loading(h, ix0, ns, ts, ix, |ns|, m) && m < |ts|
    ensures ts[m] in ix0.info && TriedSlot(h, ix.triedTable, ix0.info[ts[m]].service) == -1
  {
    hide Ok;
    var k := |ns|;
    var id := ts[m];
    var s := ix0.info[id].service;
    var b := TriedBucket(h, s);
    forall j | k <= j < k + m ensures var t := ix.info[j].service;
      b != TriedBucket(h, t) || Position(h, false, b, s) != Position(h, false, TriedBucket(h, t), t)
    {
      NotBefore(ts, m);
      assert ts[..m][j - k] == ts[j - k];
      TriedSlotsDiffer(h, ix0, {}, id, ts[j - k]);
    }
    if TriedSlot(h, ix.triedTable, s) != -1 { OkTriedHolder(h, ix, Range(k), b, Position(h, false, b, s)); }
  }

  lemma {:induction false} TriedEntryLoads(h: Hashes, ix0: Index, ns: seq<int>, ts: seq<int>, ix: Index, m: nat)
    requires Source(h, ix0, ns, ts) && Loading(h, ix0, ns, ts, ix, |ns|, m) && m < |ts|
    ensures ts[m] in ix0.info && Loading(h, ix0, ns, ts, TriedEntry(h, ix, ToRecord(ix0.info[ts[m]])), |ns|, m + 1)
  {
    hide Ok, Entries;
    var k := |ns|;
    var id := ts[m];
    assert id in ts;
    var r := ToRecord(ix0.info[id]);
    NotBefore(ts, m);
    assert id !in ns[..k] by { assert ns[..k] == ns; }
    NotLoadedYet(h, ix0, ns, ts, ix, k, m, id);
    OkTimes(h, ix0, {}, {}, id);
    SlotStillEmpty(h, ix0, ns, ts, ix, m);
    InRange(k);
    TriedEntryOk(h, ix, Range(k), r);
    EntriesTried(ix0, ns, ts, ix.info, m);
  }

  lemma {:induction false} EntriesTried(ix0: Index, ns: seq<int>, ts: seq<int>, info: Infos, m: nat)
    requires Entries(ix0, ns, ts, info, |ns|, m) && m < |ts| && ts[m] in ix0.info
    ensures Entries(ix0, ns, ts, info[|ns| + m := Reborn(ix0.info[ts[m]], |ns| + m, true)], |ns|, m + 1)
  {
  }

  // ----- Reading back what was written: references -----

  /** The new id of an old one. */
  ghost function Renamed(ns: seq<int>, ts: seq<int>, id: int): int {
    if id == -1 then -1 else if id in ns then IndexOf(ns, id) else |ns| + IndexOf(ts, id)
  }

  /** The loaded entries, apart from their reference counts. */
  ghost predicate Settled(ix0: Index, ns: seq<int>, ts: seq<int>, info: Infos) {
    && (forall j :: j in info <==> 0 <= j < |ns| + |ts|)
    && (forall j :: 0 <= j < |ns| ==> ns[j] in ix0.info && info[j].(refCount := 0) == Reborn(ix0.info[ns[j]], j, false))
    && (forall j :: 0 <= j < |ts| ==> ts[j] in ix0.info)
    && (forall j :: |ns| <= j < |ns| + |ts| ==> info[j].(refCount := 0) == Reborn(ix0.info[ts[j - |ns|]], j, true))
  }

  /** The new table is restored up to slot `p` of bucket `b`, and empty from there on. */
  ghost predicate Restored(t0: Table, t: Table, ns: seq<int>, ts: seq<int>, b: int, p: int) {
    forall c, q :: Slot(t, c, q) == if c < b || (c == b && q < p) then Renamed(ns, ts, Slot(t0, c, q)) else -1
  }

  ghost predicate Placing(h: Hashes, ix0: Index, ns: seq<int>, ts: seq<int>, ix: Index, b: int, p: int) {
    Ok(h, ix, Range(|ns|), {}) && Settled(ix0, ns, ts, ix.info) && Restored(ix0.newTable, ix.newTable, ns, ts, b, p)
  }

  lemma {:induction false} IndexOfIs(ids: seq<int>, k: nat)
    requires Distinct(ids) && k < |ids|
    ensures IndexOf(ids, ids[k]) == k
  {
    var j := IndexOf(ids, ids[k]);
    assert ids[k] in ids && ids[j] == ids[k];
  }

  /** Only the old id itself gets the new id of a new entry. */
  lemma {:induction false} RenamedBack(ns: seq<int>, ts: seq<int>, id: int, k: nat)
    requires k < |ns| && Renamed(ns, ts, id) == k
    ensures id == ns[k]
  {
  }

  lemma {:induction false} OkRefs(h: Hashes, ix: Index, fl: set<int>, id: int)
    requires Ok(h, ix, fl, {}) && id in ix.info
    ensures ix.info[id].refCount == |Buckets(h, ix.newTable, id, ix.info[id].service)| <= NEW_BUCKETS_PER_ADDRESS
  {
    hide RandomOk, AddrOk, NewOk, TriedOk, CountersOk, TimesOk, Buckets;
  }

  /** Before its reference in bucket `b` is back, an entry has fewer references than it had. */
  lemma {:induction false} RoomForReference(h: Hashes, ix0: Index, ns: seq<int>, ts: seq<int>, ix: Index, b: nat,
                                            p: nat, k: nat)
    requires Ok(h, ix0, {}, {}) && Ok(h, ix, Range(|ns|), {}) && Restored(ix0.newTable, ix.newTable, ns, ts, b, p)
    requires k < |ns| && k in ix.info && ns[k] in ix0.info && ix.info[k].service == ix0.info[ns[k]].service
    requires b < NEW_BUCKET_COUNT && Slot(ix0.newTable, b, p) == ns[k] && p == Position(h, true, b, ix.info[k].service)
    ensures ix.info[k].refCount < NEW_BUCKETS_PER_ADDRESS
  {
    hide Ok;
    var s := ix.info[k].service;
    OkRefs(h, ix, Range(|ns|), k);
    OkRefs(h, ix0, {}, ns[k]);
    var now, was := Buckets(h, ix.newTable, k, s), Buckets(h, ix0.newTable, ns[k], s);
    forall c | c in now ensures c in was - {b} {
      var q := Position(h, true, c, s);
      assert Slot(ix.newTable, c, q) == k;
      RenamedBack(ns, ts, Slot(ix0.newTable, c, q), k);
    }
    SubsetSize(now, was - {b});
  }

  lemma {:induction false} RestoredEmpty(t0: Table, t: Table, ns: seq<int>, ts: seq<int>, b: int, p: int)
    requires Restored(t0, t, ns, ts, b, p) && Slot(t0, b, p) == -1
    ensures Restored(t0, t, ns, ts, b, p + 1)
  {
  }

  lemma {:induction false} RestoredNext(t0: Table, t: Table, ns: seq<int>, ts: seq<int>, b: nat, p: nat)
    requires Shaped(t, NEW_BUCKET_COUNT) && b < NEW_BUCKET_COUNT && p < BUCKET_SIZE && Restored(t0, t, ns, ts, b, p)
    ensures Restored(t0, SetSlot(t, b, p, Renamed(ns, ts, Slot(t0, b, p))), ns, ts, b, p + 1)
  {
    SetSlotIs(t, NEW_BUCKET_COUNT, b, p, Renamed(ns, ts, Slot(t0, b, p)));
  }

  lemma {:induction false} RestoredRow(t0: Table, t: Table, ns: seq<int>, ts: seq<int>, b: int)
    requires Shaped(t0, NEW_BUCKET_COUNT) && Restored(t0, t, ns, ts, b, BUCKET_SIZE)
    ensures Restored(t0, t, ns, ts, b + 1, 0)
  {
  }

  lemma {:induction false} SettledRefer(ix0: Index, ns: seq<int>, ts: seq<int>, info: Infos, k: int, n: int)
    requires Settled(ix0, ns, ts, info) && k in info
    ensures Settled(ix0, ns, ts, info[k := info[k].(refCount := n)])
  {
  }

  lemma {:induction false} SettledEntry(ix0: Index, ns: seq<int>, ts: seq<int>, info: Infos, k: nat)
    requires Settled(ix0, ns, ts, info) && k < |ns|
    ensures ns[k] in ix0.info && k in info && !info[k].inTried
    ensures info[k].service == ix0.info[ns[k]].service
  {
    var y := info[k].(refCount := 0);
    assert y == Reborn(ix0.info[ns[k]], k, false);
  }

  /** A reference of the file goes back to the slot it was in. */
  lemma {:induction false} ReferenceReturns(h: Hashes, ix0: Index, ns: seq<int>, ts: seq<int>, ix: Index, b: nat,
                                            p: nat)
    requires Source(h, ix0, ns, ts) && Placing(h, ix0, ns, ts, ix, b, p) && b < NEW_BUCKET_COUNT && p < BUCKET_SIZE
    requires Slot(ix0.newTable, b, p) != -1
    ensures var k := IndexOf(ns, Slot(ix0.newTable, b, p));
            k < |ns| && Placing(h, ix0, ns, ts, PlaceRef(h, ix, b, k, true), b, p + 1)
  {
    hide Ok, Settled, Restored;
    var id := Slot(ix0.newTable, b, p);
    OkReference(h, ix0, {}, {}, b, p);
    assert id in ns;
    var k := IndexOf(ns, id);
    SettledEntry(ix0, ns, ts, ix.info, k);
    RoomForReference(h, ix0, ns, ts, ix, b, p, k);
    RestoredHere(ix0.newTable, ix.newTable, ns, ts, b, p);
    AddRefOk(h, ix, Range(|ns|), {}, b, p, k);
    FloatMore(h, Refer(ix, b, p, k), Range(|ns|) - {k}, Range(|ns|), {});
    SettledRefer(ix0, ns, ts, ix.info, k, ix.info[k].refCount + 1);
    ShapedNew(h, ix, Range(|ns|), {});
    RestoredNext(ix0.newTable, ix.newTable, ns, ts, b, p);
  }

  lemma {:induction false} RestoredHere(t0: Table, t: Table, ns: seq<int>, ts: seq<int>, b: int, p: int)
    requires Restored(t0, t, ns, ts, b, p)
    ensures Slot(t, b, p) == -1
  {
  }

  lemma {:induction false} RowReturns(h: Hashes, ix0: Index, ns: seq<int>, ts: seq<int>, ix: Index, b: nat, p: nat)
    requires Source(h, ix0, ns, ts) && Placing(h, ix0, ns, ts, ix, b, 0) && b < NEW_BUCKET_COUNT && p <= BUCKET_SIZE
    requires Shaped(ix0.newTable, NEW_BUCKET_COUNT)
    ensures Placing(h, ix0, ns, ts, PlaceRow(h, ix, b, Row(ix0.newTable[b][..p], ns), |ns|, true), b, p)
  {
    hide PlaceRef, Placing, Source, Row, IndexOf;
    if p > 0 {
      var slots := ix0.newTable[b];
      RowReturns(h, ix0, ns, ts, ix, b, p - 1);
      hide PlaceRow;
      var before := PlaceRow(h, ix, b, Row(slots[..p - 1], ns), |ns|, true);
      RowNext(slots, ns, p - 1);
      if slots[p - 1] == -1 {
        PlacingEmpty(h, ix0, ns, ts, before, b, p - 1);
      } else {
        ReferenceReturns(h, ix0, ns, ts, before, b, p - 1);
        PlaceRowNext(h, ix, b, Row(slots[..p - 1], ns), IndexOf(ns, slots[p - 1]), |ns|);
      }
    } else {
      NoRow(ix0.newTable[b], ns);
    }
  }

  lemma {:induction false} NoRow(slots: seq<int>, ns: seq<int>)
    ensures Row(slots[..0], ns) == []
  {
  }

  lemma {:induction false} PlacingEmpty(h: Hashes, ix0: Index, ns: seq<int>, ts: seq<int>, ix: Index, b: nat, p: nat)
    requires Placing(h, ix0, ns, ts, ix, b, p) && Slot(ix0.newTable, b, p) == -1
    ensures Placing(h, ix0, ns, ts, ix, b, p + 1)
  {
    hide Ok, Settled, Restored;
    RestoredEmpty(ix0.newTable, ix.newTable, ns, ts, b, p);
  }

  lemma {:induction false} RowNext(slots: seq<int>, ns: seq<int>, p: nat)
    requires p < |slots|
    ensures slots[p] == -1 ==> Row(slots[..p + 1], ns) == Row(slots[..p], ns)
    ensures slots[p] != -1 ==> Row(slots[..p + 1], ns) == Row(slots[..p], ns) + [IndexOf(ns, slots[p])]
  {
    assert slots[..p + 1][..p] == slots[..p];
  }

  lemma {:induction false} PlaceRowNext(h: Hashes, ix: Index, b: nat, row: seq<int>, e: int, nNew: nat)
    ensures PlaceRow(h, ix, b, row + [e], nNew, true)
            == if 0 <= e < nNew then PlaceRef(h, PlaceRow(h, ix, b, row, nNew, true), b, e, true)
               else PlaceRow(h, ix, b, row, nNew, true)
  {
    assert (row + [e])[..|row|] == row;
  }

  lemma {:induction false} RowsReturn(h: Hashes, ix0: Index, ns: seq<int>, ts: seq<int>, ix: Index, k: nat)
    requires Source(h, ix0, ns, ts) && Placing(h, ix0, ns, ts, ix, 0, 0) && k <= NEW_BUCKET_COUNT
    requires Shaped(ix0.newTable, NEW_BUCKET_COUNT)
    ensures Placing(h, ix0, ns, ts, PlaceRows(h, ix, Rows(ix0.newTable, ns)[..k], |ns|, true), k, 0)
  {
    hide Placing, Source, PlaceRow, Row;
    var rows := Rows(ix0.newTable, ns);
    if k > 0 {
      RowsReturn(h, ix0, ns, ts, ix, k - 1);
      assert rows[..k][..k - 1] == rows[..k - 1];
      var before := PlaceRows(h, ix, rows[..k - 1], |ns|, true);
      RowReturns(h, ix0, ns, ts, before, k - 1, BUCKET_SIZE);
      assert ix0.newTable[k - 1][..BUCKET_SIZE] == ix0.newTable[k - 1];
      PlacingRow(h, ix0, ns, ts, PlaceRow(h, before, k - 1, rows[k - 1], |ns|, true), k - 1);
    }
  }

  lemma {:induction false} PlacingRow(h: Hashes, ix0: Index, ns: seq<int>, ts: seq<int>, ix: Index, b: nat)
    requires Placing(h, ix0, ns, ts, ix, b, BUCKET_SIZE) && Shaped(ix0.newTable, NEW_BUCKET_COUNT)
    ensures Placing(h, ix0, ns, ts, ix, b + 1, 0)
  {
    hide Ok, Settled, Restored;
    RestoredRow(ix0.newTable, ix.newTable, ns, ts, b);
  }

  // ----- The round trip -----

  /** Everything is back under new ids: entries with their written fields, reference counts and both tables. */
  ghost predicate SameManager(h: Hashes, ix0: Index, ix: Index, ns: seq<int>, ts: seq<int>) {
    && Ok(h, ix, {}, {})
    && (forall id :: id in ix.info <==> 0 <= id < |ns| + |ts|)
    && (forall id :: id in ix0.info ==> SameEntry(ix0.info[id], ix.info, Renamed(ns, ts, id)))
    && (forall b, p :: Slot(ix.newTable, b, p) == Renamed(ns, ts, Slot(ix0.newTable, b, p)))
    && (forall b, p :: Slot(ix.triedTable, b, p) == Renamed(ns, ts, Slot(ix0.triedTable, b, p)))
  }

  ghost predicate SameEntry(x: AddrInfo, info: Infos, id: int) {
    && id in info && info[id].refCount == x.refCount && info[id].inTried == x.inTried
    && info[id].service == x.service && info[id].time == x.time && info[id].services == x.services
    && info[id].source == x.source && info[id].lastSuccess == x.lastSuccess && info[id].attempts == x.attempts
  }

  /** Different old ids have different new ids, and every new id is taken. */
  lemma {:induction false} RenamingIsBijective(h: Hashes, ix0: Index, ns: seq<int>, ts: seq<int>, a: int, b: int)
    requires Source(h, ix0, ns, ts) && a in ix0.info && b in ix0.info
    ensures 0 <= Renamed(ns, ts, a) < |ns| + |ts|
    ensures Renamed(ns, ts, a) == Renamed(ns, ts, b) ==> a == b
  {
    hide Ok;
    OkAddr(h, ix0, {}, {}, a);
    OkAddr(h, ix0, {}, {}, b);
    assert a in ns || a in ts;
    assert b in ns || b in ts;
  }

  lemma {:induction false} RenamedNew(h: Hashes, ix0: Index, ns: seq<int>, ts: seq<int>, k: nat)
    requires Source(h, ix0, ns, ts) && k < |ns|
    ensures ns[k] in ix0.info && !ix0.info[ns[k]].inTried && Renamed(ns, ts, ns[k]) == k
  {
    hide Ok;
    assert ns[k] in ns;
    IndexOfIs(ns, k);
    OkAddr(h, ix0, {}, {}, ns[k]);
  }

  lemma {:induction false} RenamedTried(h: Hashes, ix0: Index, ns: seq<int>, ts: seq<int>, k: nat)
    requires Source(h, ix0, ns, ts) && k < |ts|
    ensures ts[k] in ix0.info && ix0.info[ts[k]].inTried && Renamed(ns, ts, ts[k]) == |ns| + k
  {
    hide Ok;
    assert ts[k] in ts;
    IndexOfIs(ts, k);
    OkAddr(h, ix0, {}, {}, ts[k]);
  }

  lemma {:induction false} SettledTried(ix0: Index, ns: seq<int>, ts: seq<int>, info: Infos, k: nat)
    requires Settled(ix0, ns, ts, info) && k < |ts|
    ensures ts[k] in ix0.info && |ns| + k in info && info[|ns| + k].inTried
            && ToRecord(info[|ns| + k]) == ToRecord(ix0.info[ts[k]])
  {
    var y := info[|ns| + k].(refCount := 0);
    assert y == Reborn(ix0.info[ts[|ns| + k - |ns|]], |ns| + k, true);
  }

  lemma {:induction false} SettledNew(ix0: Index, ns: seq<int>, ts: seq<int>, info: Infos, k: nat)
    requires Settled(ix0, ns, ts, info) && k < |ns|
    ensures ns[k] in ix0.info && k in info && !info[k].inTried && ToRecord(info[k]) == ToRecord(ix0.info[ns[k]])
  {
    var y := info[k].(refCount := 0);
    assert y == Reborn(ix0.info[ns[k]], k, false);
  }

  ghost predicate TableRenamed(t0: Table, t: Table, ns: seq<int>, ts: seq<int>) {
    forall b, p :: Slot(t, b, p) == Renamed(ns, ts, Slot(t0, b, p))
  }

  /** With the new table back, so are the reference counts. */
  lemma {:induction false} RefCountsReturn(h: Hashes, ix0: Index, ns: seq<int>, ts: seq<int>, ix: Index, k: nat)
    requires Source(h, ix0, ns, ts) && Ok(h, ix, Range(|ns|), {}) && Settled(ix0, ns, ts, ix.info)
    requires TableRenamed(ix0.newTable, ix.newTable, ns, ts) && k < |ns|
    ensures ns[k] in ix0.info && k in ix.info && ix.info[k].refCount == ix0.info[ns[k]].refCount
  {
    hide Ok, Settled;
    SettledNew(ix0, ns, ts, ix.info, k);
    RenamedNew(h, ix0, ns, ts, k);
    var s := ix.info[k].service;
    OkRefs(h, ix, Range(|ns|), k);
    OkRefs(h, ix0, {}, ns[k]);
    forall c: nat | c < NEW_BUCKET_COUNT
      ensures Slot(ix.newTable, c, Position(h, true, c, s)) == k <==>
              Slot(ix0.newTable, c, Position(h, true, c, s)) == ns[k]
    {
      var q := Position(h, true, c, s);
      if Slot(ix.newTable, c, q) == k { RenamedBack(ns, ts, Slot(ix0.newTable, c, q), k); }
    }
    assert Buckets(h, ix.newTable, k, s) == Buckets(h, ix0.newTable, ns[k], s);
  }

  lemma {:induction false} RestoredAll(t0: Table, t: Table, ns: seq<int>, ts: seq<int>)
    requires Shaped(t0, NEW_BUCKET_COUNT) && Restored(t0, t, ns, ts, NEW_BUCKET_COUNT, 0)
    ensures TableRenamed(t0, t, ns, ts)
  {
  }

  lemma {:induction false} UnfloatAll(h: Hashes, ix: Index, fl: set<int>)
    requires Ok(h, ix, fl, {}) && forall id :: id in ix.info && !ix.info[id].inTried ==> ix.info[id].refCount >= 1
    ensures Ok(h, ix, {}, {})
  {
    hide RandomOk, AddrOk, NewOk, TriedOk, CountersOk, TimesOk, Buckets;
  }

  lemma {:induction false} OkNewCount(h: Hashes, ix: Index, id: int)
    requires Ok(h, ix, {}, {}) && id in ix.info
    ensures ix.info[id].inTried ==> ix.info[id].refCount == 0
    ensures !ix.info[id].inTried ==> ix.info[id].refCount >= 1
  {
    hide RandomOk, AddrOk, NewOk, TriedOk, CountersOk, TimesOk, Buckets;
  }

  lemma {:induction false} OkTriedOwn(h: Hashes, ix: Index, fl: set<int>, id: int)
    requires Ok(h, ix, fl, {}) && id in ix.info && ix.info[id].inTried
    ensures TriedSlot(h, ix.triedTable, ix.info[id].service) == id
  {
    hide RandomOk, AddrOk, NewOk, RefsOk, CountersOk, TimesOk;
  }

  /** The tried table is determined by the tried entries, so it is back as well. */
  lemma {:induction false} TriedTableReturns(h: Hashes, ix0: Index, ns: seq<int>, ts: seq<int>, ix: Index, b: nat,
                                             p: nat)
    requires Source(h, ix0, ns, ts) && Ok(h, ix, Range(|ns|), {}) && Settled(ix0, ns, ts, ix.info)
    ensures Slot(ix.triedTable, b, p) == Renamed(ns, ts, Slot(ix0.triedTable, b, p))
  {
    hide Ok, Settled;
    var id, j := Slot(ix0.triedTable, b, p), Slot(ix.triedTable, b, p);
    if id != -1 {
      OkTriedHolder(h, ix0, {}, b, p);
      assert id in ts;
      var k := IndexOf(ts, id);
      RenamedTried(h, ix0, ns, ts, k);
      SettledTried(ix0, ns, ts, ix.info, k);
      OkTriedOwn(h, ix, Range(|ns|), |ns| + k);
    } else if j != -1 {
      OkTriedHolder(h, ix, Range(|ns|), b, p);
      SettledRange(ix0, ns, ts, ix.info, j);
      var k := j - |ns|;
      RenamedTried(h, ix0, ns, ts, k);
      SettledTried(ix0, ns, ts, ix.info, k);
      OkTriedOwn(h, ix0, {}, ts[k]);
    }
  }

  lemma {:induction false} SettledRange(ix0: Index, ns: seq<int>, ts: seq<int>, info: Infos, j: int)
    requires Settled(ix0, ns, ts, info) && j in info && info[j].inTried
    ensures |ns| <= j < |ns| + |ts|
  {
    if 0 <= j < |ns| { SettledNew(ix0, ns, ts, info, j); }
  }

  /** The loaded index, once all references are back, is the manager that was written. */
  lemma {:induction false} AllIsBack(h: Hashes, ix0: Index, ns: seq<int>, ts: seq<int>, ix: Index)
    requires Source(h, ix0, ns, ts) && Placing(h, ix0, ns, ts, ix, NEW_BUCKET_COUNT, 0)
    ensures SameManager(h, ix0, ix, ns, ts)
  {
    hide Ok, Settled, Restored;
    ShapedNew(h, ix0, {}, {});
    RestoredAll(ix0.newTable, ix.newTable, ns, ts);
    SettledKeys(ix0, ns, ts, ix.info);
    forall id | id in ix.info && !ix.info[id].inTried ensures ix.info[id].refCount >= 1 {
      NewBack(h, ix0, ns, ts, ix, id);
    }
    UnfloatAll(h, ix, Range(|ns|));
    forall id | id in ix0.info ensures SameEntry(ix0.info[id], ix.info, Renamed(ns, ts, id)) {
      EntryBack(h, ix0, ns, ts, ix, id);
    }
    forall b, p ensures Slot(ix.triedTable, b, p) == Renamed(ns, ts, Slot(ix0.triedTable, b, p)) {
      if b >= 0 && p >= 0 { TriedTableReturns(h, ix0, ns, ts, ix, b, p); }
    }
  }

  lemma {:induction false} SettledKeys(ix0: Index, ns: seq<int>, ts: seq<int>, info: Infos)
    requires Settled(ix0, ns, ts, info)
    ensures forall id :: id in info <==> 0 <= id < |ns| + |ts|
  {
  }

  lemma {:induction false} NewBack(h: Hashes, ix0: Index, ns: seq<int>, ts: seq<int>, ix: Index, id: int)
    requires Source(h, ix0, ns, ts) && Ok(h, ix, Range(|ns|), {}) && Settled(ix0, ns, ts, ix.info)
    requires TableRenamed(ix0.newTable, ix.newTable, ns, ts) && id in ix.info && !ix.info[id].inTried
    ensures ix.info[id].refCount >= 1
  {
    hide Ok, Settled;
    SettledKeys(ix0, ns, ts, ix.info);
    if id >= |ns| {
      SettledTried(ix0, ns, ts, ix.info, id - |ns|);
    } else {
      RefCountsReturn(h, ix0, ns, ts, ix, id);
      RenamedNew(h, ix0, ns, ts, id);
      OkNewCount(h, ix0, ns[id]);
    }
  }

  lemma {:induction false} EntryBack(h: Hashes, ix0: Index, ns: seq<int>, ts: seq<int>, ix: Index, id: int)
    requires Source(h, ix0, ns, ts) && Ok(h, ix, {}, {}) && Ok(h, ix, Range(|ns|), {}) && Settled(ix0, ns, ts, ix.info)
    requires TableRenamed(ix0.newTable, ix.newTable, ns, ts) && id in ix0.info
    ensures SameEntry(ix0.info[id], ix.info, Renamed(ns, ts, id))
  {
    hide Ok, Settled;
    OkAddr(h, ix0, {}, {}, id);
    if ix0.info[id].inTried {
      assert id in ts;
      var k := IndexOf(ts, id);
      RenamedTried(h, ix0, ns, ts, k);
      SettledTried(ix0, ns, ts, ix.info, k);
      OkNewCount(h, ix0, id);
      OkNewCount(h, ix, |ns| + k);
    } else {
      assert id in ns;
      var k := IndexOf(ns, id);
      RenamedNew(h, ix0, ns, ts, k);
      SettledNew(ix0, ns, ts, ix.info, k);
      RefCountsReturn(h, ix0, ns, ts, ix, k);
    }
  }

  // ----- Unserialize -----

  /** Delete: the entry is swapped to the end of the random order and dropped. */
  function Deleted(h: Hashes, ix: Index, id: int): Index
    requires id in ix.info
  {
    var x, last := ix.info[id], |ix.rnd| - 1;
    if !(0 <= x.randomPos <= last && ix.rnd[last] in ix.info) then ix
    else
      var moved := ix.rnd[last];
      var info := ix.info[moved := ix.info[moved].(randomPos := x.randomPos)];
      ix.(info := info - {id}, addr := ix.addr - {x.service}, rnd := ix.rnd[x.randomPos := moved][..last],
          counters := Uncount(ix.counters, New(h.network(x.service))))
  }

  predicate Unused(ix: Index, id: int) { id in ix.info && !ix.info[id].inTried && ix.info[id].refCount == 0 }

  /** Entries without a reference are dropped. */
  ghost function Pruned(h: Hashes, ix: Index, order: seq<int>): Index {
    if order == [] then ix
    else
      var n := |order| - 1;
      var prev := Pruned(h, ix, order[..n]);
      if Unused(prev, order[n]) then Deleted(h, prev, order[n]) else prev
  }

  /** The tables before pruning. */
  ghost function Tables(h: Hashes, f: File, checksum: nat): Index {
    var ix := LoadTried(h, LoadNew(h, f.newEntries), f.triedEntries);
    PlaceRows(h, ix, f.rows, |f.newEntries|, |f.rows| == NEW_BUCKET_COUNT && Checksum(f) == checksum)
  }

  /** The version and the sizes are ones this reader takes. */
  predicate Readable(f: File) {
    && f.compat >= INCOMPATIBILITY_BASE && f.compat - INCOMPATIBILITY_BASE <= FILE_FORMAT
    && |f.newEntries| <= NEW_BUCKET_COUNT * BUCKET_SIZE && |f.triedEntries| <= TRIED_BUCKET_COUNT * BUCKET_SIZE
    && |f.rows| == if f.format >= V1_DETERMINISTIC then FlipBit30(f.uBuckets) else f.uBuckets
  }

  function Checksum(f: File): nat { if f.format >= V2_ASMAP then f.checksum else 0 }

  /** What reading a file gives, walking the loaded map in some order; nothing when a check fails. */
  ghost function Loaded(h: Hashes, f: File, checksum: nat, order: seq<int>): Option<Index> {
    if !Readable(f) then None
    else
      var ix := Pruned(h, Tables(h, f, checksum), order);
      if Passes(h, ix) then Some(ix) else None
  }

  /** What writing gives, walking the map in some order. */
  ghost function Written(ix: Index, checksum: nat, order: seq<int>): File
    requires Walk(order, ix.info)
  {
    var ns, ts := Pick(order, ix.info, false), Pick(order, ix.info, true);
    PickIs(order, ix.info, false);
    PickIs(order, ix.info, true);
    File(FILE_FORMAT, INCOMPATIBILITY_BASE + LOWEST_COMPATIBLE, FlipBit30(NEW_BUCKET_COUNT), Records(ix.info, ns),
      Records(ix.info, ts),
         Rows(ix.newTable, ns), checksum)
  }

  lemma {:induction false} LoadNewIs(h: Hashes, ix0: Index, ns: seq<int>, ts: seq<int>, k: nat)
    requires Source(h, ix0, ns, ts) && k <= |ns| && (forall j :: 0 <= j < |ns| ==> ns[j] in ix0.info)
    ensures Loading(h, ix0, ns, ts, LoadNew(h, Records(ix0.info, ns)[..k]), k, 0)
  {
    hide Loading, Source, NewEntry;
    var rs := Records(ix0.info, ns);
    if k == 0 {
      LoadingBlank(h, ix0, ns, ts);
      assert rs[..0] == [];
    } else {
      LoadNewIs(h, ix0, ns, ts, k - 1);
      assert rs[..k][..k - 1] == rs[..k - 1];
      NewEntryLoads(h, ix0, ns, ts, LoadNew(h, rs[..k - 1]), k - 1);
    }
  }

  lemma {:induction false} LoadTriedIs(h: Hashes, ix0: Index, ns: seq<int>, ts: seq<int>, ix: Index, m: nat)
    requires Source(h, ix0, ns, ts) && m <= |ts| && (forall j :: 0 <= j < |ts| ==> ts[j] in ix0.info)
    requires Loading(h, ix0, ns, ts, ix, |ns|, 0)
    ensures Loading(h, ix0, ns, ts, LoadTried(h, ix, Records(ix0.info, ts)[..m]), |ns|, m)
  {
    hide Loading, Source, TriedEntry;
    var rs := Records(ix0.info, ts);
    if m == 0 {
      assert rs[..0] == [];
    } else {
      LoadTriedIs(h, ix0, ns, ts, ix, m - 1);
      assert rs[..m][..m - 1] == rs[..m - 1];
      TriedEntryLoads(h, ix0, ns, ts, LoadTried(h, ix, rs[..m - 1]), m - 1);
    }
  }

  lemma {:induction false} LoadingBlank(h: Hashes, ix0: Index, ns: seq<int>, ts: seq<int>)
    ensures Loading(h, ix0, ns, ts, Blank(), 0, 0)
  {
    BlankOk(h);
  }

  lemma {:induction false} LoadedSettled(h: Hashes, ix0: Index, ns: seq<int>, ts: seq<int>, ix: Index)
    requires Loading(h, ix0, ns, ts, ix, |ns|, |ts|)
    ensures Placing(h, ix0, ns, ts, ix, 0, 0)
  {
    hide Ok;
    EmptySlots(NEW_BUCKET_COUNT);
    forall j | 0 <= j < |ns| + |ts| ensures ix.info[j].refCount == 0 {
    }
  }

  lemma {:induction false} PrunedNothing(h: Hashes, ix: Index, order: seq<int>)
    requires forall id :: !Unused(ix, id)
    ensures Pruned(h, ix, order) == ix
  {
    if order != [] { PrunedNothing(h, ix, order[..|order| - 1]); }
  }

  /** The ids written are the new and the tried ids of the manager. */
  lemma {:induction false} PicksAreSource(h: Hashes, ix: Index, order: seq<int>)
    requires Ok(h, ix, {}, {}) && Walk(order, ix.info) && forall id :: id in ix.info ==> h.valid(ix.info[id].service)
    ensures Source(h, ix, Pick(order, ix.info, false), Pick(order, ix.info, true))
  {
    hide Ok;
    PickIs(order, ix.info, false);
    PickIs(order, ix.info, true);
    forall id | id in ix.info ensures ix.info[id].refCount != 0 <==> !ix.info[id].inTried { OkNewCount(h, ix, id); }
  }

  lemma {:induction false} EntriesReturn(h: Hashes, ix: Index, ns: seq<int>, ts: seq<int>)
    requires Source(h, ix, ns, ts)
    requires (forall j :: 0 <= j < |ns| ==> ns[j] in ix.info) && (forall j :: 0 <= j < |ts| ==> ts[j] in ix.info)
    ensures Loading(h, ix, ns, ts, LoadTried(h, LoadNew(h, Records(ix.info, ns)), Records(ix.info, ts)), |ns|, |ts|)
  {
    hide Source, Loading, LoadNew, LoadTried;
    LoadNewIs(h, ix, ns, ts, |ns|);
    var a, b := Records(ix.info, ns), Records(ix.info, ts);
    assert a[..|ns|] == a && b[..|ts|] == b;
    LoadTriedIs(h, ix, ns, ts, LoadNew(h, a), |ts|);
  }

  lemma {:induction false} RowsBack(h: Hashes, ix0: Index, ns: seq<int>, ts: seq<int>, ix: Index)
    requires Source(h, ix0, ns, ts) && Placing(h, ix0, ns, ts, ix, 0, 0) && Shaped(ix0.newTable, NEW_BUCKET_COUNT)
    ensures |Rows(ix0.newTable, ns)| == NEW_BUCKET_COUNT
    ensures SameManager(h, ix0, PlaceRows(h, ix, Rows(ix0.newTable, ns), |ns|, true), ns, ts)
  {
    hide Source, Placing, PlaceRows, SameManager, Row;
    RowsReturn(h, ix0, ns, ts, ix, NEW_BUCKET_COUNT);
    var rows := Rows(ix0.newTable, ns);
    assert rows[..NEW_BUCKET_COUNT] == rows;
    AllIsBack(h, ix0, ns, ts, PlaceRows(h, ix, rows, |ns|, true));
  }

  lemma {:induction false} TablesReturn(h: Hashes, ix: Index, checksum: nat, order: seq<int>)
    requires Ok(h, ix, {}, {}) && Walk(order, ix.info) && forall id :: id in ix.info ==> h.valid(ix.info[id].service)
    ensures SameManager(h, ix, Tables(h, Written(ix, checksum, order), checksum), Pick(order, ix.info, false),
            Pick(order, ix.info, true))
  {
    hide Ok, Source, Loading, Placing, SameManager, Pick, LoadNew, LoadTried, PlaceRows, Rows, Records;
    var ns, ts := Pick(order, ix.info, false), Pick(order, ix.info, true);
    PicksAreSource(h, ix, order);
    ShapedNew(h, ix, {}, {});
    PickIs(order, ix.info, false);
    PickIs(order, ix.info, true);
    PickedIn(order, ix.info, false);
    PickedIn(order, ix.info, true);
    EntriesReturn(h, ix, ns, ts);
    var loaded := LoadTried(h, LoadNew(h, Records(ix.info, ns)), Records(ix.info, ts));
    LoadedSettled(h, ix, ns, ts, loaded);
    RowsBack(h, ix, ns, ts, loaded);
    RecordsSize(ix.info, ns);
  }

  lemma {:induction false} RecordsSize(info: Infos, ids: seq<int>)
    requires forall k :: 0 <= k < |ids| ==> ids[k] in info
    ensures |Records(info, ids)| == |ids|
  {
  }

  // ----- The counts a reader accepts -----

  ghost function Flat(t: Table): seq<int> { if t == [] then [] else Flat(t[..|t| - 1]) + t[|t| - 1] }

  lemma {:induction false} FlatSize(t: Table, buckets: nat)
    requires Shaped(t, buckets)
    ensures |Flat(t)| == buckets * BUCKET_SIZE
  {
    if t != [] { FlatSize(t[..|t| - 1], buckets - 1); }
  }

  lemma {:induction false} FlatHas(t: Table, b: nat, p: nat)
    requires b < |t| && p < |t[b]|
    ensures t[b][p] in Flat(t)
  {
    var n := |t| - 1;
    if b < n { FlatHas(t[..n], b, p); } else { assert t[b][p] in t[n]; }
  }

  /** Distinct ids that all have a slot are no more than the slots. */
  lemma {:induction false} NoMoreThanSlots(ids: seq<int>, t: Table, buckets: nat)
    requires Distinct(ids) && Shaped(t, buckets) && forall k :: 0 <= k < |ids| ==> ids[k] in Flat(t)
    ensures |ids| <= buckets * BUCKET_SIZE
  {
    hide Flat;
    SeqSize(ids);
    SubsetSize(SetOf(ids), SetOf(Flat(t)));
    SetSize(Flat(t));
    FlatSize(t, buckets);
  }

  lemma {:induction false} NewHasSlot(h: Hashes, ix: Index, id: int)
    requires Ok(h, ix, {}, {}) && id in ix.info && !ix.info[id].inTried
    ensures id in Flat(ix.newTable)
  {
    hide Ok, Flat;
    OkRefs(h, ix, {}, id);
    OkNewCount(h, ix, id);
    OkAddr(h, ix, {}, {}, id);
    var s := ix.info[id].service;
    var b :| b in Buckets(h, ix.newTable, id, s);
    FlatHas(ix.newTable, b, Position(h, true, b, s));
  }

  lemma {:induction false} TriedHasSlot(h: Hashes, ix: Index, id: int)
    requires Ok(h, ix, {}, {}) && id in ix.info && ix.info[id].inTried
    ensures id in Flat(ix.triedTable)
  {
    hide Ok, Flat;
    OkTriedOwn(h, ix, {}, id);
    OkAddr(h, ix, {}, {}, id);
    var s := ix.info[id].service;
    FlatHas(ix.triedTable, TriedBucket(h, s), Position(h, false, TriedBucket(h, s), s));
  }

  lemma {:induction false} OkShapes(h: Hashes, ix: Index)
    requires Ok(h, ix, {}, {})
    ensures Shaped(ix.newTable, NEW_BUCKET_COUNT) && Shaped(ix.triedTable, TRIED_BUCKET_COUNT)
  {
    hide RandomOk, AddrOk, RefsOk, CountersOk, TimesOk;
  }

  lemma {:induction false} SizesFit(h: Hashes, ix: Index, ns: seq<int>, ts: seq<int>)
    requires Source(h, ix, ns, ts)
    ensures |ns| <= NEW_BUCKET_COUNT * BUCKET_SIZE && |ts| <= TRIED_BUCKET_COUNT * BUCKET_SIZE
  {
    hide Ok, Flat;
    OkShapes(h, ix);
    forall k | 0 <= k < |ns| ensures ns[k] in Flat(ix.newTable) {
      assert ns[k] in ns;
      NewHasSlot(h, ix, ns[k]);
    }
    forall k | 0 <= k < |ts| ensures ts[k] in Flat(ix.triedTable) {
      assert ts[k] in ts;
      TriedHasSlot(h, ix, ts[k]);
    }
    NoMoreThanSlots(ns, ix.newTable, NEW_BUCKET_COUNT);
    NoMoreThanSlots(ts, ix.triedTable, TRIED_BUCKET_COUNT);
  }

  /** Reading what was written, with the same asmap, loses nothing: the same entries, reference counts and slots
      come back under new ids, whatever orders the two maps are walked in. */
  lemma {:induction false} RoundTrip(h: Hashes, ix: Index, checksum: nat, order: seq<int>, walk: seq<int>)
    requires Ok(h, ix, {}, {}) && Walk(order, ix.info) && forall id :: id in ix.info ==> h.valid(ix.info[id].service)
    ensures var r := Loaded(h, Written(ix, checksum, order), checksum, walk);
            && (r.Some? <==> h.nKey != 0)
            && (r.Some? ==> SameManager(h, ix, r.value, Pick(order, ix.info, false), Pick(order, ix.info, true)))
  {
    var ns, ts := Pick(order, ix.info, false), Pick(order, ix.info, true);
    hide Ok, Pick, Tables, Records, Rows, Passes, Pruned;
    PicksAreSource(h, ix, order);
    SizesFit(h, ix, ns, ts);
    TablesReturn(h, ix, checksum, order);
    var f := Written(ix, checksum, order);
    var back := Tables(h, f, checksum);
    WrittenSizes(h, ix, checksum, order);
    forall id ensures !Unused(back, id) { if id in back.info { OkNewCount(h, back, id); } }
    PrunedNothing(h, back, walk);
    LoadedIsOk(h, f, checksum, walk);
  }

  lemma {:induction false} WrittenSizes(h: Hashes, ix: Index, checksum: nat, order: seq<int>)
    requires Ok(h, ix, {}, {}) && Walk(order, ix.info)
    ensures var f := Written(ix, checksum, order);
            |f.newEntries| == |Pick(order, ix.info, false)| && |f.triedEntries| == |Pick(order, ix.info, true)|
            && |f.rows| == NEW_BUCKET_COUNT == FlipBit30(f.uBuckets)
  {
    OkShapes(h, ix);
  }

  // ----- The loops -----

  predicate Picked(info: Infos, id: int, tried: bool) {
    id in info && if tried then info[id].inTried else info[id].refCount != 0
  }

  lemma {:induction false} PickNext(order: seq<int>, info: Infos, tried: bool, k: nat)
    requires k < |order|
    ensures Picked(info, order[k], tried) ==>
            Pick(order[..k + 1], info, tried) == Pick(order[..k], info, tried) + [order[k]]
    ensures !Picked(info, order[k], tried) ==> Pick(order[..k + 1], info, tried) == Pick(order[..k], info, tried)
  {
    assert order[..k + 1][..k] == order[..k];
  }

  lemma {:induction false} PickPrefix(order: seq<int>, info: Infos, tried: bool, k: nat)
    requires k <= |order|
    ensures Pick(order[..k], info, tried) <= Pick(order, info, tried)
    decreases |order| - k
  {
    if k < |order| {
      PickPrefix(order, info, tried, k + 1);
      PickNext(order, info, tried, k);
    } else {
      assert order[..k] == order;
    }
  }

  /** The rank of a picked id is the number picked before it. */
  lemma {:induction false} PickRank(order: seq<int>, info: Infos, tried: bool, k: nat)
    requires Distinct(order) && k < |order| && Picked(info, order[k], tried)
    ensures var ids := Pick(order, info, tried);
            |Pick(order[..k], info, tried)| < |ids| && IndexOf(ids, order[k]) == |Pick(order[..k], info, tried)|
  {
    hide Pick, Picked;
    var ids, n := Pick(order, info, tried), |Pick(order[..k], info, tried)|;
    PickNext(order, info, tried, k);
    PickPrefix(order, info, tried, k + 1);
    PickIs(order, info, tried);
    assert ids[n] == order[k];
    IndexOfIs(ids, n);
  }

  lemma {:induction false} RecordsNext(info: Infos, ids: seq<int>, id: int)
    requires (forall k :: 0 <= k < |ids| ==> ids[k] in info) && id in info
    ensures Records(info, ids + [id]) == Records(info, ids) + [ToRecord(info[id])]
  {
  }

  lemma {:induction false} PickedIn(order: seq<int>, info: Infos, tried: bool)
    ensures forall k :: 0 <= k < |Pick(order, info, tried)| ==> Pick(order, info, tried)[k] in info
  {
    if order != [] { PickedIn(order[..|order| - 1], info, tried); }
  }

  /** The counters are the numbers of entries to write. */
  lemma {:induction false} PickCounts(h: Hashes, ix: Index, order: seq<int>)
    requires Ok(h, ix, {}, {}) && Walk(order, ix.info)
    ensures |Pick(order, ix.info, false)| == ix.counters.nNew && |Pick(order, ix.info, true)| == ix.counters.nTried
  {
    hide Ok, Pick;
    var ns, ts := Pick(order, ix.info, false), Pick(order, ix.info, true);
    PickIs(order, ix.info, false);
    PickIs(order, ix.info, true);
    SeqSize(ns);
    SeqSize(ts);
    OkCounts(h, ix);
    forall id | id in ix.info ensures ix.info[id].refCount != 0 <==> !ix.info[id].inTried { OkNewCount(h, ix, id); }
    KindSets(h, ix.info, ns, ts);
  }

  lemma {:induction false} KindSets(h: Hashes, info: Infos, ns: seq<int>, ts: seq<int>)
    requires (forall id :: id in ns <==> id in info && !info[id].inTried)
             && (forall id :: id in ts <==> id in info && info[id].inTried)
    ensures SetOf(ns) == NewIds(h, info, {}) && SetOf(ts) == TriedIds(h, info, {})
  {
    forall id ensures id in SetOf(ns) <==> id in NewIds(h, info, {}) { }
    forall id ensures id in SetOf(ts) <==> id in TriedIds(h, info, {}) { }
  }

  lemma {:induction false} OkCounts(h: Hashes, ix: Index)
    requires Ok(h, ix, {}, {})
    ensures ix.counters.nNew == |NewIds(h, ix.info, {})| && ix.counters.nTried == |TriedIds(h, ix.info, {})|
  {
    hide RandomOk, AddrOk, NewOk, RefsOk, TriedOk, TimesOk;
  }

  /** Walks the map once, writing the entries of one kind and noting the rank each id has. */
  method WriteEntries(info: Infos, order: seq<int>, tried: bool, expected: nat)
    returns (rs: seq<Record>, ranks: map<int, int>)
    requires Walk(order, info) && expected == |Pick(order, info, tried)|
    ensures (forall k :: 0 <= k < |Pick(order, info, tried)| ==> Pick(order, info, tried)[k] in info)
            && rs == Records(info, Pick(order, info, tried))
    ensures forall id :: Picked(info, id, tried) ==> id in ranks && ranks[id] == IndexOf(Pick(order, info, tried), id)
  {
    hide Pick, Records;
    rs, ranks := [], map[];
    var nIds := 0;
    NothingPicked(order, info, tried);
    for k := 0 to |order|
      invariant (forall j :: 0 <= j < |Pick(order[..k], info, tried)| ==> Pick(order[..k], info, tried)[j] in info)
      invariant rs == Records(info, Pick(order[..k], info, tried)) && nIds == |Pick(order[..k], info, tried)|
      invariant forall j :: 0 <= j < k && Picked(info, order[j], tried) ==>
                order[j] in ranks && ranks[order[j]] == IndexOf(Pick(order, info, tried), order[j])
    {
      var id := order[k];
      assert id in order;
      PickNext(order, info, tried, k);
      ranks := ranks[id := nIds];
      if Picked(info, id, tried) {
        PickRank(order, info, tried, k);
        assert nIds != expected;
        RecordsNext(info, Pick(order[..k], info, tried), id);
        rs := rs + [ToRecord(info[id])];
        nIds := nIds + 1;
      }
    }
    assert order[..|order|] == order;
    forall id | Picked(info, id, tried)
      ensures id in ranks && ranks[id] == IndexOf(Pick(order, info, tried), id) { assert id in order; }
  }

  lemma {:induction false} NothingPicked(order: seq<int>, info: Infos, tried: bool)
    ensures Pick(order[..0], info, tried) == [] && Records(info, []) == []
  {
  }

  method WriteRow(slots: seq<int>, ranks: map<int, int>, ghost ids: seq<int>) returns (row: seq<int>)
    requires forall i :: 0 <= i < |slots| && slots[i] != -1 ==>
             slots[i] in ranks && ranks[slots[i]] == IndexOf(ids, slots[i])
    ensures row == Row(slots, ids)
  {
    row := [];
    NoRow(slots, ids);
    hide Row;
    for i := 0 to |slots|
      invariant row == Row(slots[..i], ids)
    {
      RowNext(slots, ids, i);
      if slots[i] != -1 { row := row + [ranks[slots[i]]]; }
    }
    assert slots[..|slots|] == slots;
  }

  method Serialize(m: AddrManImpl, order: seq<int>, checksum: nat) returns (f: File)
    requires m.Valid() && Walk(order, m.mapInfo)
    ensures f == Written(m.Ix(), checksum, order)
  {
    ghost var ix := m.Ix();
    ghost var ns := Pick(order, m.mapInfo, false);
    hide Ok, Pick, Records, Row;
    PickCounts(m.h, ix, order);
    OkShapes(m.h, ix);
    var news, ranks := WriteEntries(m.mapInfo, order, false, m.nNew);
    var tried, _ := WriteEntries(m.mapInfo, order, true, m.nTried);
    var rows: seq<seq<int>> := [];
    for bucket := 0 to NEW_BUCKET_COUNT
      invariant |rows| == bucket && forall b :: 0 <= b < bucket ==> rows[b] == Row(m.vvNew[b], ns)
    {
      forall i | 0 <= i < BUCKET_SIZE && m.vvNew[bucket][i] != -1 ensures Picked(m.mapInfo, m.vvNew[bucket][i], false) {
        assert Slot(m.vvNew, bucket, i) == m.vvNew[bucket][i];
        OkReference(m.h, ix, {}, {}, bucket, i);
        OkNewCount(m.h, ix, m.vvNew[bucket][i]);
      }
      var row := WriteRow(m.vvNew[bucket], ranks, ns);
      rows := rows + [row];
    }
    f := File(FILE_FORMAT, INCOMPATIBILITY_BASE + LOWEST_COMPATIBLE, FlipBit30(NEW_BUCKET_COUNT), news, tried, rows,
      checksum);
    assert rows == Rows(ix.newTable, ns);
  }

  method ReadEntries(h: Hashes, news: seq<Record>, tried: seq<Record>) returns (ix: Index)
    ensures ix == LoadTried(h, LoadNew(h, news), tried) && Formed(h, ix)
  {
    hide NewEntry, TriedEntry, Formed;
    ix := Index(0, map[], map[], [], EmptyTable(NEW_BUCKET_COUNT), EmptyTable(TRIED_BUCKET_COUNT),
      Counters(0, 0, map[]));
    for n := 0 to |news|
      invariant ix == LoadNew(h, news[..n])
    {
      assert news[..n + 1][..n] == news[..n];
      ix := NewEntry(h, ix, news[n]);
    }
    assert news[..|news|] == news;
    ghost var loaded := ix;
    NewFormed(h, news);
    TriedFormed(h, loaded, tried);
    for n := 0 to |tried|
      invariant ix == LoadTried(h, loaded, tried[..n])
    {
      assert tried[..n + 1][..n] == tried[..n];
      ix := TriedEntry(h, ix, tried[n]);
    }
    assert tried[..|tried|] == tried;
  }

  method ReadRow(h: Hashes, ix0: Index, bucket: nat, row: seq<int>, nNew: nat, restore: bool) returns (ix: Index)
    ensures ix == PlaceRow(h, ix0, bucket, row, nNew, restore)
    ensures Formed(h, ix0) ==> Formed(h, ix)
  {
    hide PlaceRef, Formed;
    ix := ix0;
    for n := 0 to |row|
      invariant ix == PlaceRow(h, ix0, bucket, row[..n], nNew, restore)
    {
      assert row[..n + 1][..n] == row[..n];
      if 0 <= row[n] < nNew { ix := PlaceRef(h, ix, bucket, row[n], restore); }
    }
    assert row[..|row|] == row;
    if Formed(h, ix0) { RowFormed(h, ix0, bucket, row, nNew, restore); }
  }

  method ReadRows(h: Hashes, ix0: Index, rows: seq<seq<int>>, nNew: nat, restore: bool) returns (ix: Index)
    ensures ix == PlaceRows(h, ix0, rows, nNew, restore)
    ensures Formed(h, ix0) ==> Formed(h, ix)
  {
    hide PlaceRow, Formed;
    ix := ix0;
    for bucket := 0 to |rows|
      invariant ix == PlaceRows(h, ix0, rows[..bucket], nNew, restore)
    {
      assert rows[..bucket + 1][..bucket] == rows[..bucket];
      ix := ReadRow(h, ix, bucket, rows[bucket], nNew, restore);
    }
    assert rows[..|rows|] == rows;
    if Formed(h, ix0) { RowsFormed(h, ix0, rows, nNew, restore); }
  }

  /** Deletes the entries without a reference; the others stay as they are. */
  method PruneUnused(h: Hashes, ix0: Index, order: seq<int>) returns (ix: Index)
    requires Formed(h, ix0) && Walk(order, ix0.info)
    ensures ix == Pruned(h, ix0, order) && Formed(h, ix)
    ensures forall id :: !Unused(ix, id)
    ensures Content(ix.info) == Used(ix0, order)
  {
    hide Deleted, Formed, Used;
    PrunedFormed(h, ix0, order);
    PrunedIs(h, ix0, order);
    NoneUnused(h, ix0, order);
    ix := ix0;
    for k := 0 to |order|
      invariant ix == Pruned(h, ix0, order[..k])
    {
      assert order[..k + 1][..k] == order[..k];
      if Unused(ix, order[k]) { ix := Deleted(h, ix, order[k]); }
    }
    assert order[..|order|] == order;
  }

  // ----- Whatever the file -----

  /** What loading keeps on any file: the shape of the tables, the random order, no stale addresses, ids in
      range, and a counter for every network. */
  ghost predicate Formed(h: Hashes, ix: Index) {
    && Shaped(ix.newTable, NEW_BUCKET_COUNT) && Shaped(ix.triedTable, TRIED_BUCKET_COUNT)
    && RandomOk(ix.info, ix.rnd) && AddrSound(ix.info, ix.addr, ix.idCount) && Netted(h, ix.info, ix.counters)
  }

  ghost predicate Netted(h: Hashes, info: Infos, c: Counters) {
    forall id :: id in info ==> h.network(info[id].service) in c.nets
  }

  lemma {:induction false} FormedIs(h: Hashes, ix: Index)
    requires Formed(h, ix)
    ensures Shaped(ix.newTable, NEW_BUCKET_COUNT) && Shaped(ix.triedTable, TRIED_BUCKET_COUNT) && -1 !in ix.info
    ensures AddrSound(ix.info, ix.addr, ix.idCount) && Networks(h, ix.info) <= ix.counters.nets.Keys
  {
  }

  lemma {:induction false} SetSlotShape(t: Table, buckets: nat, b: int, p: int, id: int)
    requires Shaped(t, buckets)
    ensures Shaped(SetSlot(t, b, p, id), buckets)
  {
  }

  /** An entry under the next id: an older entry with the same address is left without it. */
  lemma {:induction false} EntryFormed(h: Hashes, info: Infos, addr: map<Service, int>, idCount: int, rnd: seq<int>,
                                       c: Counters, x: AddrInfo, kind: Kind)
    requires RandomOk(info, rnd) && AddrSound(info, addr, idCount) && Netted(h, info, c)
    requires x.randomPos == |rnd| && (kind == New(h.network(x.service)) || kind == Tried(h.network(x.service)))
    ensures RandomOk(info[idCount := x], rnd + [idCount])
    ensures AddrSound(info[idCount := x], addr[x.service := idCount], idCount + 1)
    ensures Netted(h, info[idCount := x], Count(c, kind))
  {
  }

  lemma {:induction false} NewFormed(h: Hashes, rs: seq<Record>)
    ensures Formed(h, LoadNew(h, rs)) && LoadNew(h, rs).idCount == |LoadNew(h, rs).rnd|
  {
    if rs == [] {
      EmptySlots(NEW_BUCKET_COUNT);
      EmptySlots(TRIED_BUCKET_COUNT);
    } else {
      var n := |rs| - 1;
      NewFormed(h, rs[..n]);
      var prev, x := LoadNew(h, rs[..n]), FromRecord(rs[n]);
      hide RandomOk, AddrSound, Netted, Count, Shaped;
      EntryFormed(h, prev.info, prev.addr, prev.idCount, prev.rnd, prev.counters, x.(randomPos := |prev.rnd|),
                  New(h.network(x.service)));
    }
  }

  lemma {:induction false} TriedFormed(h: Hashes, ix: Index, rs: seq<Record>)
    requires Formed(h, ix)
    ensures Formed(h, LoadTried(h, ix, rs))
  {
    if rs != [] {
      var n := |rs| - 1;
      TriedFormed(h, ix, rs[..n]);
      TriedEntryFormed(h, LoadTried(h, ix, rs[..n]), rs[n]);
    }
  }

  lemma {:induction false} TriedEntryFormed(h: Hashes, ix: Index, r: Record)
    requires Formed(h, ix)
    ensures Formed(h, TriedEntry(h, ix, r))
  {
    hide RandomOk, AddrSound, Netted, Count, Shaped, SetSlot;
    var b := TriedBucket(h, r.service);
    SetSlotShape(ix.triedTable, TRIED_BUCKET_COUNT, b, Position(h, false, b, r.service), ix.idCount);
    EntryFormed(h, ix.info, ix.addr, ix.idCount, ix.rnd, ix.counters,
                FromRecord(r).(randomPos := |ix.rnd|, inTried := true), Tried(h.network(r.service)));
  }

  lemma {:induction false} ReferFormed(h: Hashes, ix: Index, b: int, p: int, id: int)
    requires Formed(h, ix) && id in ix.info
    ensures Formed(h, Refer(ix, b, p, id))
  {
    SetSlotShape(ix.newTable, NEW_BUCKET_COUNT, b, p, id);
  }

  lemma {:induction false} RefFormed(h: Hashes, ix: Index, b: nat, id: int, restore: bool)
    requires Formed(h, ix)
    ensures Formed(h, PlaceRef(h, ix, b, id, restore))
  {
    hide Formed, Refer;
    if id in ix.info {
      var x := ix.info[id];
      ReferFormed(h, ix, b, Position(h, true, b, x.service), id);
      ReferFormed(h, ix, HomeBucket(h, x), Position(h, true, HomeBucket(h, x), x.service), id);
    }
  }

  lemma {:induction false} RowFormed(h: Hashes, ix: Index, b: nat, row: seq<int>, nNew: nat, restore: bool)
    requires Formed(h, ix)
    ensures Formed(h, PlaceRow(h, ix, b, row, nNew, restore))
  {
    hide Formed, PlaceRef;
    if row != [] {
      var n := |row| - 1;
      RowFormed(h, ix, b, row[..n], nNew, restore);
      RefFormed(h, PlaceRow(h, ix, b, row[..n], nNew, restore), b, row[n], restore);
    }
  }

  lemma {:induction false} RowsFormed(h: Hashes, ix: Index, rows: seq<seq<int>>, nNew: nat, restore: bool)
    requires Formed(h, ix)
    ensures Formed(h, PlaceRows(h, ix, rows, nNew, restore))
  {
    hide Formed, PlaceRow;
    if rows != [] {
      var n := |rows| - 1;
      RowsFormed(h, ix, rows[..n], nNew, restore);
      RowFormed(h, PlaceRows(h, ix, rows[..n], nNew, restore), n, rows[n], nNew, restore);
    }
  }

  /** Deleting takes out one entry, its address and its place; all others keep all but their place. */
  lemma {:induction false} DeletedFormed(h: Hashes, ix: Index, id: int)
    requires Formed(h, ix) && id in ix.info
    ensures Formed(h, Deleted(h, ix, id))
    ensures Content(Deleted(h, ix, id).info) == Content(ix.info) - {id}
  {
    var pos, last := ix.info[id].randomPos, |ix.rnd| - 1;
    assert ix.rnd[last] in ix.info && ix.info[ix.rnd[last]].randomPos == last;
    hide Shaped, Uncount;
    DeletedNets(h, ix.info, ix.counters, id);
    DeletedRandom(ix.info, ix.rnd, id);
  }

  lemma {:induction false} DeletedNets(h: Hashes, info: Infos, c: Counters, id: int)
    requires Netted(h, info, c) && id in info
    ensures Netted(h, info, Uncount(c, New(h.network(info[id].service))))
  {
  }

  lemma {:induction false} DeletedRandom(info: Infos, rnd: seq<int>, id: int)
    requires RandomOk(info, rnd) && id in info
    ensures var pos, last := info[id].randomPos, |rnd| - 1;
            && 0 <= pos <= last && rnd[last] in info
            && RandomOk(info[rnd[last] := info[rnd[last]].(randomPos := pos)] - {id}, rnd[pos := rnd[last]][..last])
  {
  }

  lemma {:induction false} PrunedFormed(h: Hashes, ix: Index, order: seq<int>)
    requires Formed(h, ix)
    ensures Formed(h, Pruned(h, ix, order))
  {
    hide Formed, Deleted;
    if order != [] {
      var n := |order| - 1;
      PrunedFormed(h, ix, order[..n]);
      var prev := Pruned(h, ix, order[..n]);
      if Unused(prev, order[n]) { DeletedFormed(h, prev, order[n]); }
    }
  }

  /** What pruning leaves: of the ids walked the used ones, of the others all. */
  ghost function Used(ix: Index, order: seq<int>): Infos {
    map id | id in ix.info && !(id in order && Unused(ix, id)) :: ix.info[id].(randomPos := 0)
  }

  /** Pruning drops exactly the unused entries, and changes nothing about the others. */
  lemma {:induction false} PrunedIs(h: Hashes, ix: Index, order: seq<int>)
    requires Formed(h, ix) && Distinct(order)
    ensures Content(Pruned(h, ix, order).info) == Used(ix, order)
  {
    hide Formed, Deleted;
    if order == [] {
      assert Used(ix, order) == Content(ix.info);
    } else {
      var n := |order| - 1;
      var id := order[n];
      assert order == order[..n] + [id] && id !in order[..n];
      PrunedIs(h, ix, order[..n]);
      PrunedFormed(h, ix, order[..n]);
      var prev := Pruned(h, ix, order[..n]);
      UsedNext(ix, order[..n], id);
      UnusedSame(ix, prev, order[..n], id);
      if Unused(prev, id) { DeletedFormed(h, prev, id); }
    }
  }

  lemma {:induction false} UsedNext(ix: Index, order: seq<int>, id: int)
    ensures Used(ix, order + [id]) == if Unused(ix, id) then Used(ix, order) - {id} else Used(ix, order)
  {
  }

  lemma {:induction false} UnusedSame(ix: Index, ix': Index, order: seq<int>, id: int)
    requires Content(ix'.info) == Used(ix, order) && id !in order
    ensures Unused(ix', id) <==> Unused(ix, id)
  {
    ContentAt(ix'.info, id);
    assert id in Used(ix, order) <==> id in ix.info;
  }

  /** After a walk over all ids no unused entry is left. */
  lemma {:induction false} NoneUnused(h: Hashes, ix: Index, order: seq<int>)
    requires Formed(h, ix) && Walk(order, ix.info)
    ensures forall id :: !Unused(Pruned(h, ix, order), id)
  {
    hide Formed;
    PrunedIs(h, ix, order);
    var ix' := Pruned(h, ix, order);
    forall id ensures !Unused(ix', id) {
      ContentAt(ix'.info, id);
    }
  }

  // ----- What a file leads to, entry by entry -----

  /** The written fields of an entry are those of a record. */
  ghost predicate Matches(x: AddrInfo, r: Record) {
    && x.service == r.service && x.time == r.time && x.services == r.services && x.source == r.source
    && x.lastSuccess == r.lastSuccess && x.attempts == r.attempts && x.lastTry == 0 && x.lastCountAttempt == 0
  }

  ghost function TriedPlace(h: Hashes, s: Service): (nat, nat) {
    (TriedBucket(h, s), Position(h, false, TriedBucket(h, s), s))
  }

  /** A valid tried address whose place no valid one before it in the file has. */
  ghost predicate FirstThere(h: Hashes, rs: seq<Record>, k: nat) {
    && k < |rs| && h.valid(rs[k].service)
    && forall j :: 0 <= j < k && h.valid(rs[j].service) ==>
         TriedPlace(h, rs[j].service) != TriedPlace(h, rs[k].service)
  }

  lemma {:induction false} SomeFirst(h: Hashes, rs: seq<Record>, k: nat) returns (j: nat)
    requires k < |rs| && h.valid(rs[k].service)
    ensures j <= k && FirstThere(h, rs, j) && TriedPlace(h, rs[j].service) == TriedPlace(h, rs[k].service)
  {
    hide TriedPlace;
    if FirstThere(h, rs, k) {
      j := k;
    } else {
      var i: nat :| i < k && h.valid(rs[i].service) && TriedPlace(h, rs[i].service) == TriedPlace(h, rs[k].service);
      j := SomeFirst(h, rs, i);
    }
  }

  ghost predicate HoldsFirst(h: Hashes, ix: Index, rs: seq<Record>, k: nat)
    requires k < |rs|
  {
    var id := TriedSlot(h, ix.triedTable, rs[k].service);
    id in ix.info && ix.info[id].inTried && Matches(ix.info[id], rs[k])
  }

  ghost predicate IsFirst(h: Hashes, ix: Index, rs: seq<Record>, id: int)
    requires id in ix.info
  {
    exists k: nat :: FirstThere(h, rs, k) && Matches(ix.info[id], rs[k])
                     && TriedSlot(h, ix.triedTable, ix.info[id].service) == id
  }

  /** The tried table holds, at each place, the first valid address of the file that belongs there, and no others. */
  ghost predicate TriedLoaded(h: Hashes, ix: Index, rs: seq<Record>) {
    && (forall k: nat :: FirstThere(h, rs, k) ==> HoldsFirst(h, ix, rs, k))
    && (forall id :: id in ix.info && ix.info[id].inTried ==> IsFirst(h, ix, rs, id))
  }

  /** The entries of a file have been read, and no references yet. */
  ghost predicate EntriesRead(h: Hashes, ix: Index, news: seq<Record>, tried: seq<Record>) {
    && ix.newTable == EmptyTable(NEW_BUCKET_COUNT) && Shaped(ix.triedTable, TRIED_BUCKET_COUNT)
    && |news| <= ix.idCount && (forall id :: id in ix.info ==> 0 <= id < ix.idCount && ix.info[id].refCount == 0)
    && (forall id :: 0 <= id < |news| ==> id in ix.info && !ix.info[id].inTried && Matches(ix.info[id], news[id]))
    && (forall id :: id in ix.info && id >= |news| ==> ix.info[id].inTried)
    && (forall b: nat, p: nat :: Slot(ix.triedTable, b, p) != -1 ==> HeldAt(h, ix, b, p))
    && TriedLoaded(h, ix, tried)
  }

  ghost predicate HeldAt(h: Hashes, ix: Index, b: nat, p: nat) {
    var id := Slot(ix.triedTable, b, p);
    id in ix.info && ix.info[id].inTried && TriedPlace(h, ix.info[id].service) == (b, p)
  }

  ghost predicate NewOnly(h: Hashes, ix: Index, rs: seq<Record>) {
    && EntriesRead(h, ix, rs, []) && ix.idCount == |ix.rnd| == |rs|
    && ix.triedTable == EmptyTable(TRIED_BUCKET_COUNT)
  }

  lemma {:induction false} NewRead(h: Hashes, rs: seq<Record>)
    ensures NewOnly(h, LoadNew(h, rs), rs)
  {
    hide NewOnly, NewEntry, Blank;
    if rs == [] {
      NoneRead(h);
    } else {
      var n := |rs| - 1;
      NewRead(h, rs[..n]);
      NewReadNext(h, LoadNew(h, rs[..n]), rs[..n], rs[n]);
      assert rs == rs[..n] + [rs[n]];
    }
  }

  lemma {:induction false} NoneRead(h: Hashes)
    ensures NewOnly(h, Blank(), [])
  {
    hide HeldAt, EmptyTable, TriedLoaded, Slot, Shaped;
    NoneTried(h, Blank());
  }

  lemma {:induction false} NewReadNext(h: Hashes, ix: Index, rs: seq<Record>, r: Record)
    requires NewOnly(h, ix, rs)
    ensures NewOnly(h, NewEntry(h, ix, r), rs + [r])
  {
    hide HeldAt, EmptyTable, TriedLoaded, Slot, Shaped, Count;
    NoneTried(h, NewEntry(h, ix, r));
  }

  lemma {:induction false} NoneTried(h: Hashes, ix: Index)
    requires ix.triedTable == EmptyTable(TRIED_BUCKET_COUNT) && forall id :: id in ix.info ==> !ix.info[id].inTried
    ensures Shaped(ix.triedTable, TRIED_BUCKET_COUNT) && TriedLoaded(h, ix, [])
    ensures forall b: nat, p: nat :: Slot(ix.triedTable, b, p) != -1 ==> HeldAt(h, ix, b, p)
  {
    EmptySlots(TRIED_BUCKET_COUNT);
  }

  lemma {:induction false} TriedRead(h: Hashes, ix: Index, news: seq<Record>, rs: seq<Record>)
    requires EntriesRead(h, ix, news, [])
    ensures EntriesRead(h, LoadTried(h, ix, rs), news, rs)
  {
    hide EntriesRead, TriedEntry;
    if rs != [] {
      var n := |rs| - 1;
      TriedRead(h, ix, news, rs[..n]);
      TriedReadNext(h, LoadTried(h, ix, rs[..n]), news, rs[..n], rs[n]);
      assert rs == rs[..n] + [rs[n]];
    }
  }

  lemma {:induction false} FirstNext(h: Hashes, rs: seq<Record>, r: Record, k: nat)
    ensures k < |rs| ==> (FirstThere(h, rs + [r], k) <==> FirstThere(h, rs, k))
    ensures k > |rs| ==> !FirstThere(h, rs + [r], k)
  {
    hide TriedPlace;
    var all := rs + [r];
    if k < |rs| {
      assert all[k] == rs[k] && forall j :: 0 <= j < k ==> all[j] == rs[j];
      if FirstThere(h, all, k) {
        forall j | 0 <= j < k && h.valid(rs[j].service)
          ensures TriedPlace(h, rs[j].service) != TriedPlace(h, rs[k].service)
        {
          assert all[j] == rs[j];
        }
      }
    }
  }

  lemma {:induction false} TriedReadNext(h: Hashes, ix: Index, news: seq<Record>, rs: seq<Record>, r: Record)
    requires EntriesRead(h, ix, news, rs)
    ensures EntriesRead(h, TriedEntry(h, ix, r), news, rs + [r])
  {
    hide HoldsFirst, IsFirst, HeldAt, Matches, TriedPlace, Count, TriedBucket, Position;
    var ix' := TriedEntry(h, ix, r);
    PlaceTaken(h, ix, news, rs, r);
    SetSlotIs(ix.triedTable, TRIED_BUCKET_COUNT, TriedBucket(h, r.service),
              Position(h, false, TriedBucket(h, r.service), r.service), ix.idCount);
    forall k: nat | FirstThere(h, rs + [r], k) ensures HoldsFirst(h, ix', rs + [r], k) {
      FirstNext(h, rs, r, k);
      FirstHeld(h, ix, news, rs, r, k);
    }
    forall id | id in ix'.info && ix'.info[id].inTried ensures IsFirst(h, ix', rs + [r], id) {
      FirstKept(h, ix, news, rs, r, id);
    }
    forall b: nat, p: nat | Slot(ix'.triedTable, b, p) != -1 ensures HeldAt(h, ix', b, p) {
      HeldNext(h, ix, news, rs, r, b, p);
    }
    MatchesRecord(r, |ix.rnd|);
    forall id | 0 <= id < |news| ensures id in ix'.info && !ix'.info[id].inTried && Matches(ix'.info[id], news[id]) { }
  }

  lemma {:induction false} MatchesRecord(r: Record, pos: int)
    ensures Matches(FromRecord(r).(randomPos := pos, inTried := true), r)
  {
  }

  /** The place of a valid address is empty exactly if it is the first that belongs there. */
  lemma {:induction false} PlaceTaken(h: Hashes, ix: Index, news: seq<Record>, rs: seq<Record>, r: Record)
    requires EntriesRead(h, ix, news, rs)
    ensures h.valid(r.service) ==>
              (TriedSlot(h, ix.triedTable, r.service) == -1 <==> FirstThere(h, rs + [r], |rs|))
  {
    var all, n := rs + [r], |rs|;
    var place := TriedPlace(h, r.service);
    var id := Slot(ix.triedTable, place.0, place.1);
    if h.valid(r.service) {
      if !FirstThere(h, all, n) {
        var i: nat :| i < n && h.valid(all[i].service) && TriedPlace(h, all[i].service) == place;
        var j := SomeFirst(h, rs, i);
        assert HoldsFirst(h, ix, rs, j);
        HeldPlace(h, ix, rs, j);
      }
      if id != -1 {
        assert HeldAt(h, ix, place.0, place.1) && IsFirst(h, ix, rs, id);
        var k: nat :| FirstThere(h, rs, k) && Matches(ix.info[id], rs[k]);
        assert all[k] == rs[k];
      }
    }
  }

  lemma {:induction false} HeldPlace(h: Hashes, ix: Index, rs: seq<Record>, j: nat)
    requires j < |rs| && HoldsFirst(h, ix, rs, j) && forall id :: id in ix.info ==> 0 <= id
    ensures var place := TriedPlace(h, rs[j].service); Slot(ix.triedTable, place.0, place.1) != -1
  {
  }

  lemma {:induction false} FirstHeld(h: Hashes, ix: Index, news: seq<Record>, rs: seq<Record>, r: Record, k: nat)
    requires EntriesRead(h, ix, news, rs) && FirstThere(h, rs + [r], k)
    ensures k <= |rs| && HoldsFirst(h, TriedEntry(h, ix, r), rs + [r], k)
  {
    hide Count;
    FirstNext(h, rs, r, k);
    PlaceTaken(h, ix, news, rs, r);
    var b := TriedBucket(h, r.service);
    SetSlotIs(ix.triedTable, TRIED_BUCKET_COUNT, b, Position(h, false, b, r.service), ix.idCount);
    if k < |rs| {
      assert HoldsFirst(h, ix, rs, k);
      HeldPlace(h, ix, rs, k);
    }
  }

  lemma {:induction false} FirstKept(h: Hashes, ix: Index, news: seq<Record>, rs: seq<Record>, r: Record, id: int)
    requires EntriesRead(h, ix, news, rs) && id in TriedEntry(h, ix, r).info && TriedEntry(h, ix, r).info[id].inTried
    ensures IsFirst(h, TriedEntry(h, ix, r), rs + [r], id)
  {
    hide Count;
    var ix', n := TriedEntry(h, ix, r), |rs|;
    PlaceTaken(h, ix, news, rs, r);
    var b := TriedBucket(h, r.service);
    SetSlotIs(ix.triedTable, TRIED_BUCKET_COUNT, b, Position(h, false, b, r.service), ix.idCount);
    if id in ix.info {
      assert IsFirst(h, ix, rs, id);
      var k: nat :| FirstThere(h, rs, k) && Matches(ix.info[id], rs[k])
                    && TriedSlot(h, ix.triedTable, ix.info[id].service) == id;
      FirstNext(h, rs, r, k);
      assert FirstThere(h, rs + [r], k) && Matches(ix'.info[id], (rs + [r])[k]);
    } else {
      assert FirstThere(h, rs + [r], n) && Matches(ix'.info[id], (rs + [r])[n]);
    }
  }

  lemma {:induction false} HeldNext(h: Hashes, ix: Index, news: seq<Record>, rs: seq<Record>, r: Record, b: nat, p: nat)
    requires EntriesRead(h, ix, news, rs) && Slot(TriedEntry(h, ix, r).triedTable, b, p) != -1
    ensures HeldAt(h, TriedEntry(h, ix, r), b, p)
  {
    hide Count;
    var c := TriedBucket(h, r.service);
    SetSlotIs(ix.triedTable, TRIED_BUCKET_COUNT, c, Position(h, false, c, r.service), ix.idCount);
    if Slot(ix.triedTable, b, p) != -1 { assert HeldAt(h, ix, b, p); }
  }

  /** The reference in the slot of the new table that an address and its own source hash to. */
  ghost function HomeSlot(h: Hashes, t: Table, s: Service, source: nat): int {
    var b := NewBucket(h, s, source);
    Slot(t, b, Position(h, true, b, s))
  }

  /** The entry as it is at home, or without a reference. */
  ghost predicate AtHome(h: Hashes, t: Table, x: AddrInfo, y: AddrInfo, id: int) {
    y == x.(refCount := if HomeSlot(h, t, x.service, x.source) == id then 1 else 0)
  }

  /** A slot holds an entry of the file that some row mentions, with a valid address that belongs there. */
  ghost predicate HomeOf(h: Hashes, ix: Index, seen: set<int>, b: nat, p: nat) {
    var id := Slot(ix.newTable, b, p);
    && id in seen && id in ix.info && h.valid(ix.info[id].service)
    && b == NewBucket(h, ix.info[id].service, ix.info[id].source) && p == Position(h, true, b, ix.info[id].service)
  }

  /** The mentions `seen` have been given a place each by their own source, from the entries `ix0` on. */
  ghost predicate Rehomed(h: Hashes, ix0: Index, ix: Index, seen: set<int>) {
    && ix.triedTable == ix0.triedTable && ix.info.Keys == ix0.info.Keys && Shaped(ix.newTable, NEW_BUCKET_COUNT)
    && (forall id :: id in ix0.info ==> 0 <= id && AtHome(h, ix.newTable, ix0.info[id], ix.info[id], id))
    && (forall b: nat, p: nat :: Slot(ix.newTable, b, p) != -1 ==> HomeOf(h, ix, seen, b, p))
    && (forall id :: id in seen && id in ix0.info && h.valid(ix0.info[id].service) ==>
          HomeSlot(h, ix.newTable, ix0.info[id].service, ix0.info[id].source) != -1)
  }

  lemma {:induction false} RehomedNone(h: Hashes, ix: Index)
    requires ix.newTable == EmptyTable(NEW_BUCKET_COUNT)
    requires forall id :: id in ix.info ==> 0 <= id && ix.info[id].refCount == 0
    ensures Rehomed(h, ix, ix, {})
  {
    EmptySlots(NEW_BUCKET_COUNT);
  }

  lemma {:induction false} RehomedSame(h: Hashes, ix0: Index, ix: Index, seen: set<int>, id: int)
    requires Rehomed(h, ix0, ix, seen)
    requires id in ix0.info && h.valid(ix0.info[id].service) ==>
               HomeSlot(h, ix.newTable, ix0.info[id].service, ix0.info[id].source) != -1
    ensures Rehomed(h, ix0, ix, seen + {id})
  {
    hide HomeSlot, AtHome, Shaped, Slot;
    forall b: nat, p: nat | Slot(ix.newTable, b, p) != -1 ensures HomeOf(h, ix, seen + {id}, b, p) {
      assert HomeOf(h, ix, seen, b, p);
    }
  }

  lemma {:induction false} RehomedTake(h: Hashes, ix0: Index, ix: Index, seen: set<int>, id: int)
    requires Rehomed(h, ix0, ix, seen) && id in ix.info && h.valid(ix.info[id].service)
    requires HomeSlot(h, ix.newTable, ix.info[id].service, ix.info[id].source) == -1
    ensures var b := HomeBucket(h, ix.info[id]);
            Rehomed(h, ix0, Refer(ix, b, Position(h, true, b, ix.info[id].service), id), seen + {id})
  {
    hide Shaped, Slot, SetSlot, NewBucket, Position;
    var x := ix0.info[id];
    assert AtHome(h, ix.newTable, x, ix.info[id], id);
    var b := NewBucket(h, x.service, x.source);
    var p := Position(h, true, b, x.service);
    var ix' := Refer(ix, b, p, id);
    SetSlotIs(ix.newTable, NEW_BUCKET_COUNT, b, p, id);
    forall j | j in ix0.info ensures AtHome(h, ix'.newTable, ix0.info[j], ix'.info[j], j) {
      assert AtHome(h, ix.newTable, ix0.info[j], ix.info[j], j);
    }
    forall c: nat, q: nat | Slot(ix'.newTable, c, q) != -1 ensures HomeOf(h, ix', seen + {id}, c, q) {
      if Slot(ix.newTable, c, q) != -1 { assert HomeOf(h, ix, seen, c, q); }
    }
  }

  lemma {:induction false} RehomedNext(h: Hashes, ix0: Index, ix: Index, seen: set<int>, b: nat, id: int)
    requires Rehomed(h, ix0, ix, seen)
    ensures Rehomed(h, ix0, PlaceRef(h, ix, b, id, false), seen + {id})
  {
    hide Rehomed, Slot, NewBucket, Position, Refer;
    RehomedIs(h, ix0, ix, seen, id);
    if id in ix.info && h.valid(ix.info[id].service)
       && HomeSlot(h, ix.newTable, ix.info[id].service, ix.info[id].source) == -1 {
      RehomedTake(h, ix0, ix, seen, id);
    } else {
      RehomedSame(h, ix0, ix, seen, id);
    }
  }

  lemma {:induction false} RehomedIs(h: Hashes, ix0: Index, ix: Index, seen: set<int>, id: int)
    requires Rehomed(h, ix0, ix, seen)
    ensures id in ix.info <==> id in ix0.info
    ensures id in ix.info ==>
              && AtHome(h, ix.newTable, ix0.info[id], ix.info[id], id)
              && ix.info[id].service == ix0.info[id].service && ix.info[id].source == ix0.info[id].source
              && ix.info[id].refCount < NEW_BUCKETS_PER_ADDRESS
  {
  }

  /** The ids that a row, or some of the rows, mentions. */
  ghost function SeenIn(row: seq<int>, nNew: nat): set<int> { set id | id in row && 0 <= id < nNew }

  ghost function SeenInRows(rows: seq<seq<int>>, nNew: nat): set<int> {
    if rows == [] then {} else SeenInRows(rows[..|rows| - 1], nNew) + SeenIn(rows[|rows| - 1], nNew)
  }

  ghost predicate Mentions(rows: seq<seq<int>>, id: int) { exists b :: 0 <= b < |rows| && id in rows[b] }

  lemma {:induction false} SeenIs(rows: seq<seq<int>>, nNew: nat, id: int)
    requires 0 <= id < nNew
    ensures id in SeenInRows(rows, nNew) <==> Mentions(rows, id)
  {
    if rows != [] {
      var n := |rows| - 1;
      SeenIs(rows[..n], nNew, id);
      if Mentions(rows[..n], id) {
        var b :| 0 <= b < n && id in rows[..n][b];
        assert id in rows[b];
      }
      if Mentions(rows, id) {
        var b :| 0 <= b < |rows| && id in rows[b];
        if b < n { assert id in rows[..n][b]; }
      }
    }
  }

  lemma {:induction false} RowRehomed(h: Hashes, ix0: Index, ix: Index, seen: set<int>, b: nat, row: seq<int>,
                                      nNew: nat)
    requires Rehomed(h, ix0, ix, seen)
    ensures Rehomed(h, ix0, PlaceRow(h, ix, b, row, nNew, false), seen + SeenIn(row, nNew))
  {
    hide Rehomed, PlaceRef;
    if row == [] {
      assert seen + SeenIn(row, nNew) == seen;
    } else {
      var n := |row| - 1;
      var prev := PlaceRow(h, ix, b, row[..n], nNew, false);
      RowRehomed(h, ix0, ix, seen, b, row[..n], nNew);
      assert row == row[..n] + [row[n]];
      if 0 <= row[n] < nNew {
        RehomedNext(h, ix0, prev, seen + SeenIn(row[..n], nNew), b, row[n]);
        assert seen + SeenIn(row, nNew) == seen + SeenIn(row[..n], nNew) + {row[n]};
      } else {
        assert SeenIn(row, nNew) == SeenIn(row[..n], nNew);
      }
    }
  }

  lemma {:induction false} RowsRehomed(h: Hashes, ix: Index, rows: seq<seq<int>>, nNew: nat)
    requires Rehomed(h, ix, ix, {})
    ensures Rehomed(h, ix, PlaceRows(h, ix, rows, nNew, false), SeenInRows(rows, nNew))
  {
    hide Rehomed, PlaceRow, SeenIn;
    if rows != [] {
      var n := |rows| - 1;
      RowsRehomed(h, ix, rows[..n], nNew);
      RowRehomed(h, ix, PlaceRows(h, ix, rows[..n], nNew, false), SeenInRows(rows[..n], nNew), n, rows[n], nNew);
    }
  }

  /** Placing references changes only the new table and reference counts. */
  ghost predicate OnlyPlaced(ix0: Index, ix: Index) {
    && ix.triedTable == ix0.triedTable && ix.info.Keys == ix0.info.Keys
    && forall id :: id in ix0.info ==> ix.info[id] == ix0.info[id].(refCount := ix.info[id].refCount)
  }

  lemma {:induction false} RowPlaced(h: Hashes, ix0: Index, ix: Index, b: nat, row: seq<int>, nNew: nat, restore: bool)
    requires OnlyPlaced(ix0, ix)
    ensures OnlyPlaced(ix0, PlaceRow(h, ix, b, row, nNew, restore))
  {
    if row != [] {
      var n := |row| - 1;
      RowPlaced(h, ix0, ix, b, row[..n], nNew, restore);
      var prev := PlaceRow(h, ix, b, row[..n], nNew, restore);
      hide SetSlot, Slot, NewBucket, Position;
      assert OnlyPlaced(ix0, PlaceRef(h, prev, b, row[n], restore));
    }
  }

  lemma {:induction false} RowsPlaced(h: Hashes, ix: Index, rows: seq<seq<int>>, nNew: nat, restore: bool)
    ensures OnlyPlaced(ix, PlaceRows(h, ix, rows, nNew, restore))
  {
    hide PlaceRow;
    if rows != [] {
      var n := |rows| - 1;
      RowsPlaced(h, ix, rows[..n], nNew, restore);
      RowPlaced(h, ix, PlaceRows(h, ix, rows[..n], nNew, restore), n, rows[n], nNew, restore);
    }
  }

  lemma {:induction false} PrunedTables(h: Hashes, ix: Index, order: seq<int>)
    ensures Pruned(h, ix, order).newTable == ix.newTable && Pruned(h, ix, order).triedTable == ix.triedTable
  {
    if order != [] { PrunedTables(h, ix, order[..|order| - 1]); }
  }

  /** After pruning, an entry is there exactly if it was there and in use, with all but its place unchanged. */
  lemma {:induction false} PrunedAt(h: Hashes, ix: Index, order: seq<int>, id: int)
    requires Formed(h, ix) && Walk(order, ix.info)
    ensures var info := Pruned(h, ix, order).info;
            && (id in info <==> id in ix.info && !Unused(ix, id))
            && (id in info ==> info[id] == ix.info[id].(randomPos := info[id].randomPos))
  {
    hide Formed, Pruned;
    PrunedIs(h, ix, order);
    ContentAt(Pruned(h, ix, order).info, id);
  }

  lemma {:induction false} TriedStay(h: Hashes, ix: Index, ix': Index, rs: seq<Record>)
    requires TriedLoaded(h, ix, rs) && ix'.triedTable == ix.triedTable
    requires forall id :: id in ix'.info ==> id in ix.info && Alike(ix.info[id], ix'.info[id])
    requires forall id :: id in ix.info && ix.info[id].inTried ==> id in ix'.info
    ensures TriedLoaded(h, ix', rs)
  {
    hide FirstThere, TriedSlot;
    forall id | id in ix'.info && ix'.info[id].inTried ensures IsFirst(h, ix', rs, id) {
      assert IsFirst(h, ix, rs, id);
    }
    assert forall k: nat :: FirstThere(h, rs, k) ==> k < |rs| by { FirstInside(h, rs); }
    forall k: nat | FirstThere(h, rs, k) ensures HoldsFirst(h, ix', rs, k) {
      assert HoldsFirst(h, ix, rs, k);
    }
  }

  lemma {:induction false} FirstInside(h: Hashes, rs: seq<Record>)
    ensures forall k: nat :: FirstThere(h, rs, k) ==> k < |rs|
  {
  }

  ghost predicate Alike(x: AddrInfo, y: AddrInfo) {
    y == x.(refCount := y.refCount, randomPos := y.randomPos)
  }

  /** The tried table of any file. */
  lemma {:induction false} TriedOfFile(h: Hashes, f: File, checksum: nat, order: seq<int>)
    requires Walk(order, Tables(h, f, checksum).info)
    ensures TriedLoaded(h, Pruned(h, Tables(h, f, checksum), order), f.triedEntries)
  {
    hide Formed, Pruned, PlaceRows, LoadTried, LoadNew, TriedLoaded, Walk, Unused;
    var ix0 := LoadTried(h, LoadNew(h, f.newEntries), f.triedEntries);
    var t := Tables(h, f, checksum);
    var ix := Pruned(h, t, order);
    NewRead(h, f.newEntries);
    TriedRead(h, LoadNew(h, f.newEntries), f.newEntries, f.triedEntries);
    RowsPlaced(h, ix0, f.rows, |f.newEntries|, |f.rows| == NEW_BUCKET_COUNT && Checksum(f) == checksum);
    TablesFormed(h, f, checksum);
    PrunedTables(h, t, order);
    forall id
      ensures id in ix.info ==> id in ix0.info && Alike(ix0.info[id], ix.info[id])
      ensures id in ix0.info && ix0.info[id].inTried ==> id in ix.info
    {
      PrunedAt(h, t, order, id);
      UsedIfTried(t, id);
    }
    TriedStay(h, ix0, ix, f.triedEntries);
  }

  lemma {:induction false} UsedIfTried(ix: Index, id: int)
    ensures id in ix.info && ix.info[id].inTried ==> !Unused(ix, id)
    ensures id in ix.info && !ix.info[id].inTried ==> (Unused(ix, id) <==> ix.info[id].refCount == 0)
  {
  }

  /** The new entries of a file whose buckets do not fit any more: exactly those survive that some row mentions, that
      are valid, and that their home slot holds; they have one reference.  One that does not survive lost its home
      slot to one that does. */
  ghost predicate Rebucketed(h: Hashes, f: File, ix: Index) {
    forall id :: 0 <= id < |f.newEntries| ==> RebucketedAt(h, f, ix, id)
  }

  ghost predicate RebucketedAt(h: Hashes, f: File, ix: Index, id: int)
    requires 0 <= id < |f.newEntries|
  {
    var r := f.newEntries[id];
    var wanted := Mentions(f.rows, id) && h.valid(r.service);
    var holder := HomeSlot(h, ix.newTable, r.service, r.source);
    && (id in ix.info <==> wanted && holder == id)
    && (id in ix.info ==> Matches(ix.info[id], r) && !ix.info[id].inTried && ix.info[id].refCount == 1)
    && (wanted ==> holder in ix.info)
  }

  lemma {:induction false} RebucketedFile(h: Hashes, f: File, checksum: nat, order: seq<int>)
    requires Walk(order, Tables(h, f, checksum).info)
    requires |f.rows| != NEW_BUCKET_COUNT || Checksum(f) != checksum
    ensures Rebucketed(h, f, Pruned(h, Tables(h, f, checksum), order))
  {
    hide Formed, Pruned, PlaceRows, LoadTried, LoadNew, TriedLoaded, Walk, EntriesRead, Rehomed, RebucketedAt, NewOnly;
    var ix0 := LoadTried(h, LoadNew(h, f.newEntries), f.triedEntries);
    var t := Tables(h, f, checksum);
    ReadOfFile(h, f);
    RowsRehomed(h, ix0, f.rows, |f.newEntries|);
    TablesFormed(h, f, checksum);
    PrunedTables(h, t, order);
    forall id | 0 <= id < |f.newEntries| ensures RebucketedAt(h, f, Pruned(h, t, order), id) {
      RebucketedId(h, f, ix0, t, order, id);
    }
  }

  lemma {:induction false} ReadOfFile(h: Hashes, f: File)
    ensures var ix := LoadTried(h, LoadNew(h, f.newEntries), f.triedEntries);
            EntriesRead(h, ix, f.newEntries, f.triedEntries) && Rehomed(h, ix, ix, {})
  {
    hide LoadTried, LoadNew, TriedLoaded, HeldAt, Matches;
    NewRead(h, f.newEntries);
    TriedRead(h, LoadNew(h, f.newEntries), f.newEntries, f.triedEntries);
    RehomedNone(h, LoadTried(h, LoadNew(h, f.newEntries), f.triedEntries));
  }

  lemma {:induction false} RebucketedId(h: Hashes, f: File, ix0: Index, t: Index, order: seq<int>, id: int)
    requires 0 <= id < |f.newEntries| && Walk(order, t.info) && Formed(h, t)
    requires EntriesRead(h, ix0, f.newEntries, f.triedEntries)
    requires Rehomed(h, ix0, t, SeenInRows(f.rows, |f.newEntries|))
    requires Pruned(h, t, order).newTable == t.newTable
    ensures RebucketedAt(h, f, Pruned(h, t, order), id)
  {
    hide Formed, Pruned, TriedLoaded, Walk, HeldAt, Unused, Slot, NewBucket, Position, Shaped;
    var r, seen := f.newEntries[id], SeenInRows(f.rows, |f.newEntries|);
    assert id in ix0.info && Matches(ix0.info[id], r);
    assert AtHome(h, t.newTable, ix0.info[id], t.info[id], id);
    var holder := HomeSlot(h, t.newTable, r.service, r.source);
    SeenIs(f.rows, |f.newEntries|, id);
    PrunedAt(h, t, order, id);
    UsedIfTried(t, id);
    if holder != -1 {
      var b := NewBucket(h, r.service, r.source);
      assert HomeOf(h, t, seen, b, Position(h, true, b, r.service));
      assert AtHome(h, t.newTable, ix0.info[holder], t.info[holder], holder);
      SeenBelow(f.rows, |f.newEntries|);
      PrunedAt(h, t, order, holder);
      UsedIfTried(t, holder);
    }
  }

  lemma {:induction false} SeenBelow(rows: seq<seq<int>>, nNew: nat)
    ensures forall id :: id in SeenInRows(rows, nNew) ==> 0 <= id < nNew
  {
    if rows != [] { SeenBelow(rows[..|rows| - 1], nNew); }
  }

  /** Some order in which the map is walked. */
  method WalkOf(info: Infos) returns (order: seq<int>)
    ensures Walk(order, info)
  {
    order := [];
    var todo := info.Keys;
    while todo != {}
      invariant todo <= info.Keys && Distinct(order) && forall id :: id in order <==> id in info && id !in todo
      decreases |todo|
    {
      HasElement(todo);
      var id :| id in todo;
      order := order + [id];
      todo := todo - {id};
    }
  }

  /** Reads a file into an empty manager; fails on an incompatible or inconsistent file. */
  method Unserialize(m: AddrManImpl, f: File, checksum: nat) returns (ok: bool, ghost walk: seq<int>)
    requires m.Ix() == Blank()
    modifies m
    ensures ok <==> Loaded(m.h, f, checksum, walk).Some?
    ensures ok ==> m.Ix() == Loaded(m.h, f, checksum, walk).value
    ensures ok ==> Ok(m.h, m.Ix(), {}, {})
    ensures ok && m.triedCollisions == {} ==> m.Valid()
    ensures ok ==> 32 <= f.compat <= 36 && |f.newEntries| <= 65536 && |f.triedEntries| <= 16384 && Counted(f)
    ensures ok ==> TriedLoaded(m.h, m.Ix(), f.triedEntries)
    ensures ok && (|f.rows| != 1024 || checksum != if f.format < 2 then 0 else f.checksum) ==>
              Rebucketed(m.h, f, m.Ix())
    ensures ok && |f.rows| == 1024 && checksum == (if f.format < 2 then 0 else f.checksum) ==>
              RowsKept(m.h, m.Ix(), f.rows, |f.newEntries|)
    ensures m.triedCollisions == old(m.triedCollisions) && m.lastGood == old(m.lastGood)
  {
    hide Tables, Pruned, Passes, Walk, Formed, Readable, Shaped, Unused, Used, Ok, AddrSound, TriedLoaded, Rebucketed;
    hide RowsKept, NewOk, RefsOk;
    walk := [];
    var readable := CheckHeader(f);
    if !readable { return false, walk; }
    ReadableIs(f);
    var ix := ReadTables(m.h, f, checksum);
    var order := WalkOf(ix.info);
    walk := order;
    TriedOfFile(m.h, f, checksum, order);
    ReferencesOfFile(m.h, f, checksum, order);
    if |f.rows| != NEW_BUCKET_COUNT || Checksum(f) != checksum { RebucketedFile(m.h, f, checksum, order); }
    ix := PruneUnused(m.h, ix, order);
    FormedIs(m.h, ix);
    var again := WalkOf(ix.info);
    var code := CheckAddrman(m.h, ix, again);
    if code != 0 {
      return false, walk;
    }
    PassingIsConsistent(m.h, ix);
    Install(m, ix);
    ok := true;
  }

  method Install(m: AddrManImpl, ix: Index)
    modifies m
    ensures m.Ix() == ix && m.triedCollisions == old(m.triedCollisions) && m.lastGood == old(m.lastGood)
  {
    m.idCount, m.mapInfo, m.mapAddr, m.vRandom := ix.idCount, ix.info, ix.addr, ix.rnd;
    m.vvNew, m.vvTried, m.nNew, m.nTried, m.networkCounts :=
      ix.newTable, ix.triedTable, ix.counters.nNew, ix.counters.nTried, ix.counters.nets;
  }

  // ----- Whatever buckets a file has -----

  /** Every reference is to an entry of the file's new list, at its position, and is counted. */
  ghost predicate Listed(h: Hashes, ix: Index, nNew: nat) {
    && NewOk(h, ix.info, ix.newTable) && RefsOk(h, ix.info, ix.newTable, ix.info.Keys)
    && (forall id :: id in ix.info ==> id >= 0 && (id < nNew ==> !ix.info[id].inTried))
  }

  lemma {:induction false} NoneListed(h: Hashes, ix: Index, news: seq<Record>, tried: seq<Record>)
    requires EntriesRead(h, ix, news, tried)
    ensures Listed(h, ix, |news|)
  {
    hide TriedLoaded, HeldAt, Matches;
    EmptySlots(NEW_BUCKET_COUNT);
    forall id | id in ix.info ensures Buckets(h, ix.newTable, id, ix.info[id].service) == {} { }
  }

  lemma {:induction false} ReferListed(h: Hashes, ix: Index, nNew: nat, b: nat, id: int)
    requires Listed(h, ix, nNew) && id in ix.info && id < nNew && ix.info[id].refCount < 8 && b < NEW_BUCKET_COUNT
    requires Slot(ix.newTable, b, Position(h, true, b, ix.info[id].service)) == -1
    ensures Listed(h, Refer(ix, b, Position(h, true, b, ix.info[id].service), id), nNew)
  {
    hide NewOk, RefsOk, Slot, SetSlot, Position;
    var p := Position(h, true, b, ix.info[id].service);
    var ix' := Refer(ix, b, p, id);
    PositionFits(h, b, ix.info[id].service);
    AddRefRefs(h, ix.info, ix.newTable, ix.info.Keys, b, p, id);
    RefsLoosen(h, ix'.info, ix'.newTable, ix.info.Keys - {id}, ix'.info.Keys);
    RefChangeNew(h, ix.info, ix'.info, ix.newTable, b, p, id);
  }

  lemma {:induction false} PositionFits(h: Hashes, b: nat, s: Service)
    ensures Position(h, true, b, s) < BUCKET_SIZE
  {
  }

  lemma {:induction false} RefsLoosen(h: Hashes, info: Infos, t: Table, fl: set<int>, more: set<int>)
    requires RefsOk(h, info, t, fl) && fl <= more
    ensures RefsOk(h, info, t, more)
  {
  }

  /** The slots in use stay as they are, and entries only gain references. */
  ghost predicate OnlyMore(ix: Index, ix': Index) {
    && ix'.info.Keys == ix.info.Keys
    && (forall id :: id in ix.info ==> ix'.info[id] == ix.info[id].(refCount := ix'.info[id].refCount)
                                         && ix.info[id].refCount <= ix'.info[id].refCount)
    && (forall b: nat, p: nat :: Slot(ix.newTable, b, p) != -1 ==> Slot(ix'.newTable, b, p) == Slot(ix.newTable, b, p))
  }

  lemma {:induction false} ReferMore(ix: Index, b: nat, p: nat, id: int)
    requires Shaped(ix.newTable, NEW_BUCKET_COUNT) && b < NEW_BUCKET_COUNT && p < BUCKET_SIZE && id in ix.info
    requires Slot(ix.newTable, b, p) == -1
    ensures OnlyMore(ix, Refer(ix, b, p, id)) && Slot(Refer(ix, b, p, id).newTable, b, p) == id
  {
    SetSlotIs(ix.newTable, NEW_BUCKET_COUNT, b, p, id);
  }

  lemma {:induction false} MoreThenMore(a: Index, b: Index, c: Index)
    requires OnlyMore(a, b) && OnlyMore(b, c)
    ensures OnlyMore(a, c)
  {
    hide Slot;
  }

  /** A mention of a valid entry in bucket `b` has its reference there, or found both that slot and its home slot taken,
      unless the entry has eight references. */
  ghost predicate MentionKept(h: Hashes, ix: Index, b: nat, id: int) {
    id in ix.info && h.valid(ix.info[id].service) && ix.info[id].refCount < 8 ==>
      var x := ix.info[id];
      var holder := Slot(ix.newTable, b, Position(h, true, b, x.service));
      holder != -1 && (holder == id || HomeSlot(h, ix.newTable, x.service, x.source) != -1)
  }

  lemma {:induction false} MentionStays(h: Hashes, ix: Index, ix': Index, b: nat, id: int)
    requires OnlyMore(ix, ix') && MentionKept(h, ix, b, id)
    ensures MentionKept(h, ix', b, id)
  {
    hide Slot, NewBucket, Position;
  }

  /** One reference of the file: nothing in use is touched, the counts stay exact and the mention is dealt with. */
  lemma {:induction false} RefPlaced(h: Hashes, ix: Index, nNew: nat, b: nat, id: int, restore: bool)
    requires Listed(h, ix, nNew) && 0 <= id < nNew && (restore ==> b < NEW_BUCKET_COUNT)
    ensures var ix' := PlaceRef(h, ix, b, id, restore);
            Listed(h, ix', nNew) && OnlyMore(ix, ix') && (restore ==> MentionKept(h, ix', b, id))
  {
    if id in ix.info && h.valid(ix.info[id].service) && ix.info[id].refCount < 8 {
      var x := ix.info[id];
      var home := NewBucket(h, x.service, x.source);
      PositionFits(h, b, x.service);
      PositionFits(h, home, x.service);
      BucketFits(h, x.service, x.source);
      ListedShape(h, ix, nNew);
      hide Listed, Refer, OnlyMore, Position, NewBucket, Shaped;
      if restore && Slot(ix.newTable, b, Position(h, true, b, x.service)) == -1 {
        ReferListed(h, ix, nNew, b, id);
        ReferMore(ix, b, Position(h, true, b, x.service), id);
        ReferKeeps(ix, b, Position(h, true, b, x.service), id);
      } else if Slot(ix.newTable, home, Position(h, true, home, x.service)) == -1 {
        ReferListed(h, ix, nNew, home, id);
        ReferMore(ix, home, Position(h, true, home, x.service), id);
        ReferKeeps(ix, home, Position(h, true, home, x.service), id);
        if restore {
          MoreAt(ix, Refer(ix, home, Position(h, true, home, x.service), id), b, Position(h, true, b, x.service));
        }
      } else {
        MoreThanItself(ix);
      }
    } else {
      MoreThanItself(ix);
    }
  }

  lemma {:induction false} ListedShape(h: Hashes, ix: Index, nNew: nat)
    requires Listed(h, ix, nNew)
    ensures Shaped(ix.newTable, NEW_BUCKET_COUNT)
  {
  }

  lemma {:induction false} BucketFits(h: Hashes, s: Service, source: nat)
    ensures NewBucket(h, s, source) < NEW_BUCKET_COUNT
  {
  }

  lemma {:induction false} ReferKeeps(ix: Index, b: nat, p: nat, id: int)
    requires id in ix.info
    ensures var ix' := Refer(ix, b, p, id);
            id in ix'.info && ix'.info[id].service == ix.info[id].service && ix'.info[id].source == ix.info[id].source
  {
  }

  lemma {:induction false} MoreAt(ix: Index, ix': Index, b: nat, p: nat)
    requires OnlyMore(ix, ix') && Slot(ix.newTable, b, p) != -1
    ensures Slot(ix'.newTable, b, p) == Slot(ix.newTable, b, p)
  {
  }

  lemma {:induction false} MoreThanItself(ix: Index)
    ensures OnlyMore(ix, ix)
  {
  }

  ghost predicate RowKept(h: Hashes, ix: Index, b: nat, row: seq<int>, nNew: nat) {
    forall k :: 0 <= k < |row| && 0 <= row[k] < nNew ==> MentionKept(h, ix, b, row[k])
  }

  lemma {:induction false} RowStays(h: Hashes, ix: Index, ix': Index, b: nat, row: seq<int>, nNew: nat)
    requires OnlyMore(ix, ix') && RowKept(h, ix, b, row, nNew)
    ensures RowKept(h, ix', b, row, nNew)
  {
    hide OnlyMore, MentionKept;
    forall k | 0 <= k < |row| && 0 <= row[k] < nNew ensures MentionKept(h, ix', b, row[k]) {
      MentionStays(h, ix, ix', b, row[k]);
    }
  }

  lemma {:induction false} RowListed(h: Hashes, ix: Index, b: nat, row: seq<int>, nNew: nat, restore: bool)
    requires Listed(h, ix, nNew) && (restore ==> b < NEW_BUCKET_COUNT)
    ensures var ix' := PlaceRow(h, ix, b, row, nNew, restore);
            Listed(h, ix', nNew) && OnlyMore(ix, ix') && (restore ==> RowKept(h, ix', b, row, nNew))
  {
    hide Listed, OnlyMore, PlaceRef, MentionKept;
    if row == [] {
      MoreThanItself(ix);
    } else {
      var n := |row| - 1;
      var prev := PlaceRow(h, ix, b, row[..n], nNew, restore);
      RowListed(h, ix, b, row[..n], nNew, restore);
      if 0 <= row[n] < nNew {
        var next := PlaceRef(h, prev, b, row[n], restore);
        RefPlaced(h, prev, nNew, b, row[n], restore);
        MoreThenMore(ix, prev, next);
        if restore { RowStays(h, prev, next, b, row[..n], nNew); }
      }
      assert row == row[..n] + [row[n]];
    }
  }

  ghost predicate RowsKept(h: Hashes, ix: Index, rows: seq<seq<int>>, nNew: nat) {
    forall b :: 0 <= b < |rows| ==> RowKept(h, ix, b, rows[b], nNew)
  }

  lemma {:induction false} RowsListed(h: Hashes, ix: Index, rows: seq<seq<int>>, nNew: nat, restore: bool)
    requires Listed(h, ix, nNew) && (restore ==> |rows| <= NEW_BUCKET_COUNT)
    ensures var ix' := PlaceRows(h, ix, rows, nNew, restore);
            Listed(h, ix', nNew) && OnlyMore(ix, ix') && (restore ==> RowsKept(h, ix', rows, nNew))
  {
    hide Listed, OnlyMore, PlaceRow, RowKept;
    if rows == [] {
      MoreThanItself(ix);
    } else {
      var n := |rows| - 1;
      var prev := PlaceRows(h, ix, rows[..n], nNew, restore);
      var next := PlaceRow(h, prev, n, rows[n], nNew, restore);
      RowsListed(h, ix, rows[..n], nNew, restore);
      RowListed(h, prev, n, rows[n], nNew, restore);
      MoreThenMore(ix, prev, next);
      if restore {
        forall b | 0 <= b < n ensures RowKept(h, next, b, rows[b], nNew) {
          assert RowKept(h, prev, b, rows[..n][b], nNew);
          RowStays(h, prev, next, b, rows[b], nNew);
        }
      }
    }
  }

  /** Whatever a file says, the references that are left are exact: each is at its entry's position, and every entry of
      the new table has as many as are counted, one to eight. */
  lemma {:induction false} ReferencesOfFile(h: Hashes, f: File, checksum: nat, order: seq<int>)
    requires Walk(order, Tables(h, f, checksum).info)
    ensures var ix := Pruned(h, Tables(h, f, checksum), order);
            NewOk(h, ix.info, ix.newTable) && RefsOk(h, ix.info, ix.newTable, {})
    ensures |f.rows| == NEW_BUCKET_COUNT && Checksum(f) == checksum ==>
              RowsKept(h, Pruned(h, Tables(h, f, checksum), order), f.rows, |f.newEntries|)
  {
    hide Formed, Pruned, PlaceRows, LoadTried, LoadNew, Walk, EntriesRead, Rehomed, Listed, OnlyMore, RowKept;
    var ix0 := LoadTried(h, LoadNew(h, f.newEntries), f.triedEntries);
    var restore := |f.rows| == NEW_BUCKET_COUNT && Checksum(f) == checksum;
    var t := Tables(h, f, checksum);
    ReadOfFile(h, f);
    NoneListed(h, ix0, f.newEntries, f.triedEntries);
    RowsListed(h, ix0, f.rows, |f.newEntries|, restore);
    TablesFormed(h, f, checksum);
    PrunedTables(h, t, order);
    PrunedListed(h, t, |f.newEntries|, order);
    if restore {
      forall b | 0 <= b < |f.rows| ensures RowKept(h, Pruned(h, t, order), b, f.rows[b], |f.newEntries|) {
        RowPruned(h, t, order, b, f.rows[b], |f.newEntries|);
      }
    }
  }

  lemma {:induction false} PrunedListed(h: Hashes, t: Index, nNew: nat, order: seq<int>)
    requires Formed(h, t) && Walk(order, t.info) && Listed(h, t, nNew) && Pruned(h, t, order).newTable == t.newTable
    ensures var ix := Pruned(h, t, order);
            NewOk(h, ix.info, ix.newTable) && RefsOk(h, ix.info, ix.newTable, {})
  {
    hide Formed, Pruned, Walk, Shaped, Position;
    var ix := Pruned(h, t, order);
    forall id
      ensures id in ix.info <==> id in t.info && !Unused(t, id)
      ensures id in ix.info ==> ix.info[id] == t.info[id].(randomPos := ix.info[id].randomPos)
    {
      PrunedAt(h, t, order, id);
    }
    forall b: nat, p | Slot(t.newTable, b, p) != -1 ensures Slot(t.newTable, b, p) in ix.info {
      HolderCounted(h, t, nNew, b, p);
    }
  }

  lemma {:induction false} HolderCounted(h: Hashes, t: Index, nNew: nat, b: nat, p: int)
    requires Listed(h, t, nNew) && Slot(t.newTable, b, p) != -1
    ensures var id := Slot(t.newTable, b, p); id in t.info && !Unused(t, id)
  {
    var id := Slot(t.newTable, b, p);
    assert b in Buckets(h, t.newTable, id, t.info[id].service);
  }

  lemma {:induction false} RowPruned(h: Hashes, t: Index, order: seq<int>, b: nat, row: seq<int>, nNew: nat)
    requires Formed(h, t) && Walk(order, t.info) && RowKept(h, t, b, row, nNew)
    requires Pruned(h, t, order).newTable == t.newTable
    ensures RowKept(h, Pruned(h, t, order), b, row, nNew)
  {
    hide Formed, Pruned, Walk, Slot, Position, HomeSlot;
    forall k | 0 <= k < |row| && 0 <= row[k] < nNew ensures MentionKept(h, Pruned(h, t, order), b, row[k]) {
      PrunedAt(h, t, order, row[k]);
      assert MentionKept(h, t, b, row[k]);
    }
  }

  /** The bucket count is the number of rows, with bit 30 flipped from format 1 on. */
  ghost predicate Counted(f: File) {
    if f.format == 0 then f.uBuckets == |f.rows|
    else f.uBuckets == |f.rows| + if (|f.rows| / 0x4000_0000) % 2 == 0 then 0x4000_0000 else -0x4000_0000
  }

  lemma {:induction false} ReadableIs(f: File)
    requires Readable(f)
    ensures 32 <= f.compat <= 36 && |f.newEntries| <= 65536 && |f.triedEntries| <= 16384 && Counted(f)
  {
  }

  /** What every file says of itself. */
  lemma {:induction false} WrittenHeader(ix: Index, checksum: nat, order: seq<int>)
    requires Walk(order, ix.info)
    ensures var f := Written(ix, checksum, order);
            f.format == 4 && f.compat == 36 && f.uBuckets == 0x4000_0400 && f.checksum == checksum
  {
    hide Pick, Records, Rows;
  }

  method CheckHeader(f: File) returns (ok: bool)
    ensures ok == Readable(f)
  {
    if f.compat < INCOMPATIBILITY_BASE {
      return false;
    }
    if f.compat - INCOMPATIBILITY_BASE > FILE_FORMAT {
      return false;
    }
    var nUBuckets := f.uBuckets;
    if f.format >= V1_DETERMINISTIC { nUBuckets := FlipBit30(nUBuckets); }
    if |f.newEntries| > NEW_BUCKET_COUNT * BUCKET_SIZE {
      return false;
    }
    if |f.triedEntries| > TRIED_BUCKET_COUNT * BUCKET_SIZE {
      return false;
    }
    ok := nUBuckets == |f.rows|;
  }

  method ReadTables(h: Hashes, f: File, checksum: nat) returns (ix: Index)
    ensures ix == Tables(h, f, checksum) && Formed(h, ix)
  {
    hide LoadNew, LoadTried, PlaceRows, Formed;
    ix := ReadEntries(h, f.newEntries, f.triedEntries);
    var restore := |f.rows| == NEW_BUCKET_COUNT && Checksum(f) == checksum;
    ix := ReadRows(h, ix, f.rows, |f.newEntries|, restore);
  }

  lemma {:induction false} TablesFormed(h: Hashes, f: File, checksum: nat)
    ensures Formed(h, Tables(h, f, checksum))
  {
    hide Formed;
    NewFormed(h, f.newEntries);
    TriedFormed(h, LoadNew(h, f.newEntries), f.triedEntries);
    RowsFormed(h, LoadTried(h, LoadNew(h, f.newEntries), f.triedEntries), f.rows, |f.newEntries|,
               |f.rows| == NEW_BUCKET_COUNT && Checksum(f) == checksum);
  }

  /** Every file, however corrupt, is refused or gives consistent tables: what the check does not look at no file
      can break.  So a file is accepted exactly if it is readable and its tables are consistent. */
  lemma {:induction false} LoadedIsOk(h: Hashes, f: File, checksum: nat, order: seq<int>)
    ensures Loaded(h, f, checksum, order).Some? <==>
            Readable(f) && h.nKey != 0 && Ok(h, Pruned(h, Tables(h, f, checksum), order), {}, {})
    ensures Loaded(h, f, checksum, order).Some? ==> Ok(h, Loaded(h, f, checksum, order).value, {}, {})
  {
    hide Tables, Pruned, Passes, Formed, Ok, AddrSound, Readable;
    TablesFormed(h, f, checksum);
    PrunedFormed(h, Tables(h, f, checksum), order);
    FormedIs(h, Pruned(h, Tables(h, f, checksum), order));
    PassingIsConsistent(h, Pruned(h, Tables(h, f, checksum), order));
  }

  /** A manager written and read back by another one with the same key and asmap: nothing is lost. */
  method SaveAndLoad(m: AddrManImpl, m': AddrManImpl, checksum: nat)
    returns (ok: bool, ghost ns: seq<int>, ghost ts: seq<int>)
    requires m.Valid() && forall id :: id in m.mapInfo ==> m.h.valid(m.mapInfo[id].service)
    requires m' != m && m'.h == m.h && m'.Ix() == Blank() && m'.triedCollisions == {}
    modifies m'
    ensures ok <==> m.h.nKey != 0
    ensures ok ==> m'.Valid() && SameManager(m.h, m.Ix(), m'.Ix(), ns, ts)
    ensures Source(m.h, m.Ix(), ns, ts)
  {
    hide Ok, SameManager, Loaded, Written, Source, Pick;
    var order := WalkOf(m.mapInfo);
    ns, ts := Pick(order, m.mapInfo, false), Pick(order, m.mapInfo, true);
    var f := Serialize(m, order, checksum);
    ghost var walk;
    PicksAreSource(m.h, m.Ix(), order);
    ok, walk := Unserialize(m', f, checksum);
    RoundTrip(m.h, m.Ix(), checksum, order, walk);
  }

  /** After any run from the empty manager, saving and loading loses nothing. */
  method RunSaveAndLoad(h: Hashes, ops: seq<Op>, checksum: nat)
    returns (ok: bool, m: AddrManImpl, m': AddrManImpl, ghost ns: seq<int>, ghost ts: seq<int>)
    requires (forall s :: h.routable(s) ==> h.valid(s)) && forall i :: 0 <= i < |ops| ==> OpOk(ops[i])
    ensures m.Valid() && m.h == m'.h == h && (ok <==> h.nKey != 0)
    ensures ok ==> m'.Valid() && Source(h, m.Ix(), ns, ts) && SameManager(h, m.Ix(), m'.Ix(), ns, ts)
  {
    hide Ok, SameManager, Source;
    m := new AddrManImpl(h);
    m.Run(ops);
    RoutableEvolve(h, Blank(), m.Ix());
    m' := new AddrManImpl(h);
    ok, ns, ts := SaveAndLoad(m, m', checksum);
  }
}
