/** The tables of the address manager (src/addrman_impl.h) and what keeps them consistent.

    An `Index` is a snapshot of all tables.  `Ok` is the conjunction of the clauses that
    CheckAddrman verifies; each lemma says that one primitive change of the tables keeps it.
    Inside an operation some ids may be `floating` (in the new table, but with no reference yet or
    any more) and some `detached` (counted neither as new nor as tried).
 */
module AddrIndex {
  const NEW_BUCKET_COUNT := 1024
  const TRIED_BUCKET_COUNT := 256
  const BUCKET_SIZE := 64
  const NEW_BUCKETS_PER_ADDRESS := 8
  const TRIED_BUCKETS_PER_GROUP := 8
  const NEW_BUCKETS_PER_SOURCE_GROUP := 64

  datatype Option<T> = None | Some(value: T)

  datatype Service = Service(addr: nat, port: nat)

  /** The keyed hashes and address classes, for the key `nKey` and a fixed asmap; `group` is the network group. */
  datatype Hashes = Hashes(
    nKey: nat, group: nat -> nat, keyHash: Service -> nat, triedHash: (nat, nat) -> nat,
    sourceHash: (nat, nat) -> nat, newHash: (nat, nat) -> nat, posHash: (bool, nat, Service) -> nat,
    network: Service -> nat, netClass: Service -> nat, routable: Service -> bool, valid: Service -> bool)

  function TriedBucket(h: Hashes, s: Service): (b: nat)
    ensures b < TRIED_BUCKET_COUNT
  {
    h.triedHash(h.group(s.addr), h.keyHash(s) % TRIED_BUCKETS_PER_GROUP) % TRIED_BUCKET_COUNT
  }

  function NewBucket(h: Hashes, s: Service, source: nat): (b: nat)
    ensures b < NEW_BUCKET_COUNT
  {
    var sourceGroup := h.group(source);
    h.newHash(sourceGroup, h.sourceHash(h.group(s.addr), sourceGroup) % NEW_BUCKETS_PER_SOURCE_GROUP)
      % NEW_BUCKET_COUNT
  }

  function Position(h: Hashes, isNew: bool, bucket: nat, s: Service): (p: nat)
    ensures p < BUCKET_SIZE
  {
    h.posHash(isNew, bucket, s) % BUCKET_SIZE
  }

  datatype AddrInfo = AddrInfo(
    service: Service, time: int, services: set<nat>, source: nat,
    lastTry: int, lastCountAttempt: int, lastSuccess: int, attempts: nat,
    refCount: int, inTried: bool, randomPos: int)

  // ----- Bucket tables: -1 marks an empty slot -----

  type Table = seq<seq<int>>

  predicate Shaped(t: Table, buckets: nat) {
    |t| == buckets && forall b :: 0 <= b < |t| ==> |t[b]| == BUCKET_SIZE
  }

  function Slot(t: Table, b: int, p: int): int {
    if 0 <= b < |t| && 0 <= p < |t[b]| then t[b][p] else -1
  }

  function SetSlot(t: Table, b: int, p: int, id: int): Table {
    if 0 <= b < |t| && 0 <= p < |t[b]| then t[b := t[b][p := id]] else t
  }

  lemma SetSlotIs(t: Table, buckets: nat, b: nat, p: nat, id: int)
    requires Shaped(t, buckets) && b < buckets && p < BUCKET_SIZE
    ensures Shaped(SetSlot(t, b, p, id), buckets)
    ensures forall b', p' :: Slot(SetSlot(t, b, p, id), b', p') == if b' == b && p' == p then id else Slot(t, b', p')
  {
  }

  function EmptyTable(buckets: nat): Table {
    seq(buckets, _ => seq(BUCKET_SIZE, _ => -1))
  }

  // ----- Counters -----

  datatype NewTriedCount = NewTriedCount(nNew: nat, nTried: nat)

  datatype Counters = Counters(nNew: nat, nTried: nat, nets: map<nat, NewTriedCount>)

  function NetCount(nets: map<nat, NewTriedCount>, net: nat): NewTriedCount {
    if net in nets then nets[net] else NewTriedCount(0, 0)
  }

  datatype Kind = Uncounted | New(net: nat) | Tried(net: nat)

  // ----- The snapshot and its clauses -----

  type Infos = map<int, AddrInfo>

  datatype Index = Index(
    idCount: int, info: Infos, addr: map<Service, int>, rnd: seq<int>,
    newTable: Table, triedTable: Table, counters: Counters)

  function KindOf(h: Hashes, info: Infos, detached: set<int>, id: int): Kind {
    if id !in info || id in detached then Uncounted
    else if info[id].inTried then Tried(h.network(info[id].service))
    else New(h.network(info[id].service))
  }

  /** mapInfo and vRandom invert each other. */
  ghost predicate RandomOk(info: Infos, rnd: seq<int>) {
    && (forall id :: id in info ==> 0 <= info[id].randomPos < |rnd| && rnd[info[id].randomPos] == id)
    && (forall i :: 0 <= i < |rnd| ==> rnd[i] in info && info[rnd[i]].randomPos == i)
  }

  /** mapInfo and mapAddr invert each other, and ids are below the id counter. */
  ghost predicate AddrOk(info: Infos, addr: map<Service, int>, idCount: int) {
    && idCount >= 0
    && (forall id :: id in info ==>
          0 <= id < idCount && info[id].service in addr && addr[info[id].service] == id)
    && (forall s :: s in addr ==> addr[s] in info && info[addr[s]].service == s)
  }

  /** The buckets of the new table that hold an id at the position its address hashes to. */
  ghost function Buckets(h: Hashes, t: Table, id: int, s: Service): set<nat> {
    set b: nat | 0 <= b < NEW_BUCKET_COUNT && Slot(t, b, Position(h, true, b, s)) == id
  }

  /** Every reference in the new table is to an entry that is not tried, at its position. */
  ghost predicate NewOk(h: Hashes, info: Infos, t: Table) {
    && Shaped(t, NEW_BUCKET_COUNT)
    && forall b, p :: 0 <= b && Slot(t, b, p) != -1 ==>
         var id := Slot(t, b, p);
         id in info && !info[id].inTried && p == Position(h, true, b, info[id].service)
  }

  /** Reference counts are exact, and between 1 and 8 for entries that are not tried. */
  ghost predicate RefsOk(h: Hashes, info: Infos, t: Table, floating: set<int>) {
    forall id :: id in info ==>
      && info[id].refCount == |Buckets(h, t, id, info[id].service)|
      && (if info[id].inTried then info[id].refCount == 0
          else info[id].refCount <= 8 && (info[id].refCount >= 1 || id in floating))
  }

  /** The tried table holds exactly the tried entries, each in its own slot. */
  ghost predicate TriedOk(h: Hashes, info: Infos, t: Table) {
    && Shaped(t, TRIED_BUCKET_COUNT)
    && (forall b, p :: 0 <= b && Slot(t, b, p) != -1 ==>
          var id := Slot(t, b, p);
          && id in info && info[id].inTried
          && b == TriedBucket(h, info[id].service) && p == Position(h, false, b, info[id].service))
    && (forall id :: id in info && info[id].inTried ==> TriedSlot(h, t, info[id].service) == id)
  }

  function TriedSlot(h: Hashes, t: Table, s: Service): int {
    var b := TriedBucket(h, s);
    Slot(t, b, Position(h, false, b, s))
  }

  ghost predicate TimesOk(info: Infos) {
    forall id :: id in info ==> TimesFine(info[id])
  }

  predicate TimesFine(x: AddrInfo) {
    x.lastTry >= 0 && x.lastSuccess >= 0 && (x.inTried ==> x.lastSuccess != 0)
  }

  ghost function NewIds(h: Hashes, info: Infos, detached: set<int>): set<int> {
    set id | id in info && KindOf(h, info, detached, id).New?
  }

  ghost function TriedIds(h: Hashes, info: Infos, detached: set<int>): set<int> {
    set id | id in info && KindOf(h, info, detached, id).Tried?
  }

  ghost function IdsOfKind(h: Hashes, info: Infos, detached: set<int>, kind: Kind): set<int> {
    set id | id in info && KindOf(h, info, detached, id) == kind
  }

  /** The totals and the per-network counts are those of the entries. */
  ghost predicate CountersOk(h: Hashes, info: Infos, detached: set<int>, c: Counters) {
    && c.nNew == |NewIds(h, info, detached)|
    && c.nTried == |TriedIds(h, info, detached)|
    && forall net ::
         && NetCount(c.nets, net).nNew == |IdsOfKind(h, info, detached, New(net))|
         && NetCount(c.nets, net).nTried == |IdsOfKind(h, info, detached, Tried(net))|
  }

  ghost predicate Ok(h: Hashes, ix: Index, floating: set<int>, detached: set<int>) {
    && RandomOk(ix.info, ix.rnd)
    && AddrOk(ix.info, ix.addr, ix.idCount)
    && NewOk(h, ix.info, ix.newTable)
    && RefsOk(h, ix.info, ix.newTable, floating)
    && TriedOk(h, ix.info, ix.triedTable)
    && TimesOk(ix.info)
    && CountersOk(h, ix.info, detached, ix.counters)
  }

  ghost predicate Distinct(ids: seq<int>) {
    forall i, j :: 0 <= i < j < |ids| ==> ids[i] != ids[j]
  }

  lemma HasElement(s: set<int>)
    requires s != {}
    ensures exists id :: id in s
  {
    assert (forall id :: id !in s) ==> s == {};
  }

  /** An empty manager. */
  ghost function Blank(): Index {
    Index(0, map[], map[], [], EmptyTable(NEW_BUCKET_COUNT), EmptyTable(TRIED_BUCKET_COUNT), Counters(0, 0, map[]))
  }

  lemma BlankOk(h: Hashes)
    ensures Ok(h, Blank(), {}, {})
  {
    EmptySlots(NEW_BUCKET_COUNT);
    EmptySlots(TRIED_BUCKET_COUNT);
  }

  lemma EmptySlots(buckets: nat)
    ensures Shaped(EmptyTable(buckets), buckets)
    ensures forall b, p :: Slot(EmptyTable(buckets), b, p) == -1
  {
  }

  // ----- Counting -----

  lemma SameButOne(before: set<int>, after: set<int>, id: int)
    requires forall j :: j != id ==> (j in before <==> j in after)
    ensures |after| == |before| - (if id in before then 1 else 0) + (if id in after then 1 else 0)
  {
    forall j ensures j in before - {id} <==> j in after - {id} {}
    assert before - {id} == after - {id};
    if id in before { assert before == (before - {id}) + {id}; } else { assert before == before - {id}; }
    if id in after { assert after == (after - {id}) + {id}; } else { assert after == after - {id}; }
  }

  function Down(n: nat): nat { if n > 0 then n - 1 else 0 }

  function SetNet(c: Counters, net: nat, n: NewTriedCount): Counters {
    c.(nets := c.nets[net := n])
  }

  function Count(c: Counters, kind: Kind): Counters {
    match kind
    case Uncounted => c
    case New(net) => SetNet(c.(nNew := c.nNew + 1), net, NetCount(c.nets, net).(nNew := NetCount(c.nets, net).nNew + 1))
    case Tried(net) =>
      SetNet(c.(nTried := c.nTried + 1), net, NetCount(c.nets, net).(nTried := NetCount(c.nets, net).nTried + 1))
  }

  function Uncount(c: Counters, kind: Kind): Counters {
    match kind
    case Uncounted => c
    case New(net) => SetNet(c.(nNew := Down(c.nNew)), net,
      NetCount(c.nets, net).(nNew := Down(NetCount(c.nets, net).nNew)))
    case Tried(net) =>
      SetNet(c.(nTried := Down(c.nTried)), net, NetCount(c.nets, net).(nTried := Down(NetCount(c.nets, net).nTried)))
  }

  lemma CountIs(c: Counters, net: nat)
    ensures Count(c, New(net)) ==
            Counters(c.nNew + 1, c.nTried,
              c.nets[net := NetCount(c.nets, net).(nNew := NetCount(c.nets, net).nNew + 1)])
    ensures Count(c, Tried(net)) ==
            Counters(c.nNew, c.nTried + 1,
                     c.nets[net := NetCount(c.nets, net).(nTried := NetCount(c.nets, net).nTried + 1)])
  {
  }

  lemma UncountIs(c: Counters, net: nat)
    ensures c.nNew > 0 && NetCount(c.nets, net).nNew > 0 ==>
              Uncount(c, New(net)) ==
              Counters(c.nNew - 1, c.nTried,
                c.nets[net := NetCount(c.nets, net).(nNew := NetCount(c.nets, net).nNew - 1)])
    ensures c.nTried > 0 && NetCount(c.nets, net).nTried > 0 ==>
              Uncount(c, Tried(net)) ==
              Counters(c.nNew, c.nTried - 1,
                       c.nets[net := NetCount(c.nets, net).(nTried := NetCount(c.nets, net).nTried - 1)])
  {
  }

  /** An id that becomes uncounted, or that is counted for the first time. */
  lemma RecountOne(h: Hashes, info: Infos, det: set<int>, c: Counters, info': Infos, det': set<int>, id: int)
    requires CountersOk(h, info, det, c)
    requires forall j :: j != id ==> KindOf(h, info, det, j) == KindOf(h, info', det', j)
    requires KindOf(h, info, det, id).Uncounted? || KindOf(h, info', det', id).Uncounted?
    ensures var k, k' := KindOf(h, info, det, id), KindOf(h, info', det', id);
            && (k.New? ==> c.nNew > 0 && NetCount(c.nets, k.net).nNew > 0)
            && (k.Tried? ==> c.nTried > 0 && NetCount(c.nets, k.net).nTried > 0)
            && CountersOk(h, info', det', Count(Uncount(c, k), k'))
  {
    var k, k' := KindOf(h, info, det, id), KindOf(h, info', det', id);
    SameButOne(NewIds(h, info, det), NewIds(h, info', det'), id);
    SameButOne(TriedIds(h, info, det), TriedIds(h, info', det'), id);
    if k.New? || k.Tried? {
      assert id in IdsOfKind(h, info, det, k);
      if k.New? { assert id in NewIds(h, info, det); } else { assert id in TriedIds(h, info, det); }
    }
    var c' := Count(Uncount(c, k), k');
    forall net
      ensures NetCount(c'.nets, net).nNew == |IdsOfKind(h, info', det', New(net))|
      ensures NetCount(c'.nets, net).nTried == |IdsOfKind(h, info', det', Tried(net))|
    {
      SameButOne(IdsOfKind(h, info, det, New(net)), IdsOfKind(h, info', det', New(net)), id);
      SameButOne(IdsOfKind(h, info, det, Tried(net)), IdsOfKind(h, info', det', Tried(net)), id);
    }
  }

  lemma SameKinds(h: Hashes, info: Infos, det: set<int>, c: Counters, info': Infos, det': set<int>)
    requires CountersOk(h, info, det, c)
    requires forall j :: KindOf(h, info, det, j) == KindOf(h, info', det', j)
    ensures CountersOk(h, info', det', c)
  {
    assert NewIds(h, info, det) == NewIds(h, info', det');
    assert TriedIds(h, info, det) == TriedIds(h, info', det');
    forall net
      ensures IdsOfKind(h, info, det, New(net)) == IdsOfKind(h, info', det', New(net))
      ensures IdsOfKind(h, info, det, Tried(net)) == IdsOfKind(h, info', det', Tried(net))
    {
    }
  }

  // ----- Primitive changes, clause by clause -----

  /** The fields that the tables refer to are the same. */
  ghost predicate Aligned(info: Infos, info': Infos) {
    && info.Keys == info'.Keys
    && forall id :: id in info ==>
         && info'[id].service == info[id].service && info'[id].inTried == info[id].inTried
         && info'[id].refCount == info[id].refCount
  }

  lemma AlignedRefs(h: Hashes, info: Infos, info': Infos, t: Table, fl: set<int>)
    requires Aligned(info, info') && RefsOk(h, info, t, fl)
    ensures RefsOk(h, info', t, fl)
  {
  }

  lemma AlignedNew(h: Hashes, info: Infos, info': Infos, t: Table)
    requires Aligned(info, info') && NewOk(h, info, t)
    ensures NewOk(h, info', t)
  {
  }

  lemma AlignedTried(h: Hashes, info: Infos, info': Infos, t: Table)
    requires Aligned(info, info') && TriedOk(h, info, t)
    ensures TriedOk(h, info', t)
  {
  }

  lemma AlignedAddr(info: Infos, info': Infos, addr: map<Service, int>, idCount: int)
    requires Aligned(info, info') && AddrOk(info, addr, idCount)
    ensures AddrOk(info', addr, idCount)
  {
  }

  /** A change of statistics or positions only has to respect vRandom and the time clauses. */
  lemma AlignedOk(h: Hashes, ix: Index, fl: set<int>, det: set<int>, info': Infos, rnd': seq<int>)
    requires Ok(h, ix, fl, det) && Aligned(ix.info, info')
    requires RandomOk(info', rnd') && TimesOk(info')
    ensures Ok(h, ix.(info := info', rnd := rnd'), fl, det)
  {
    hide RandomOk, AddrOk, NewOk, RefsOk, TriedOk, TimesOk, CountersOk;
    AlignedRefs(h, ix.info, info', ix.newTable, fl);
    AlignedNew(h, ix.info, info', ix.newTable);
    AlignedTried(h, ix.info, info', ix.triedTable);
    AlignedAddr(ix.info, info', ix.addr, ix.idCount);
    SameKinds(h, ix.info, det, ix.counters, info', det);
  }

  lemma SwapRandomOk(info: Infos, rnd: seq<int>, i: nat, j: nat)
    requires RandomOk(info, rnd) && i < |rnd| && j < |rnd| && i != j
    ensures var a, b := rnd[i], rnd[j];
            && a in info && b in info && a != b
            && RandomOk(info[a := info[a].(randomPos := j)][b := info[b].(randomPos := i)], rnd[i := b][j := a])
  {
  }

  lemma SwapAligned(info: Infos, a: int, b: int, i: int, j: int)
    requires a in info && b in info && a != b && TimesOk(info)
    ensures var info' := info[a := info[a].(randomPos := j)][b := info[b].(randomPos := i)];
            Aligned(info, info') && TimesOk(info')
  {
  }

  lemma StatsAligned(info: Infos, rnd: seq<int>, id: int, x: AddrInfo)
    requires id in info && TimesOk(info) && TimesFine(x) && RandomOk(info, rnd)
    requires x.service == info[id].service && x.refCount == info[id].refCount
    requires x.inTried == info[id].inTried && x.randomPos == info[id].randomPos
    ensures Aligned(info, info[id := x]) && TimesOk(info[id := x]) && RandomOk(info[id := x], rnd)
  {
  }

  lemma CreateRandomOk(info: Infos, rnd: seq<int>, id: int, x: AddrInfo)
    requires RandomOk(info, rnd) && id !in info && x.randomPos == |rnd|
    ensures RandomOk(info[id := x], rnd + [id])
  {
  }

  lemma CreateAddrOk(info: Infos, addr: map<Service, int>, id: int, x: AddrInfo)
    requires AddrOk(info, addr, id) && x.service !in addr
    ensures AddrOk(info[id := x], addr[x.service := id], id + 1)
  {
  }

  lemma CreateRefsOk(h: Hashes, info: Infos, t: Table, fl: set<int>, id: int, x: AddrInfo)
    requires NewOk(h, info, t) && RefsOk(h, info, t, fl) && id !in info && id >= 0
    requires x.refCount == 0 && !x.inTried
    ensures RefsOk(h, info[id := x], t, fl + {id})
  {
    assert Buckets(h, t, id, x.service) == {};
  }

  lemma CreateNewOk(h: Hashes, info: Infos, t: Table, id: int, x: AddrInfo)
    requires NewOk(h, info, t) && id !in info
    ensures NewOk(h, info[id := x], t)
  {
  }

  lemma CreateTriedOk(h: Hashes, info: Infos, t: Table, id: int, x: AddrInfo)
    requires TriedOk(h, info, t) && id !in info && !x.inTried
    ensures TriedOk(h, info[id := x], t)
  {
  }

  lemma DeleteRandomOk(info: Infos, rnd: seq<int>, id: int)
    requires RandomOk(info, rnd) && id in info && info[id].randomPos == |rnd| - 1
    ensures RandomOk(info - {id}, rnd[..|rnd| - 1])
  {
  }

  lemma DeleteAddrOk(info: Infos, addr: map<Service, int>, idCount: int, id: int)
    requires AddrOk(info, addr, idCount) && id in info
    ensures AddrOk(info - {id}, addr - {info[id].service}, idCount)
  {
  }

  /** An entry with reference count 0 occurs nowhere in the new table. */
  lemma NoReference(h: Hashes, info: Infos, t: Table, fl: set<int>, id: int)
    requires NewOk(h, info, t) && RefsOk(h, info, t, fl) && id in info && info[id].refCount == 0
    requires id >= 0
    ensures forall b, p :: 0 <= b ==> Slot(t, b, p) != id
  {
    var s := info[id].service;
    assert Buckets(h, t, id, s) == {};
    forall b, p | 0 <= b ensures Slot(t, b, p) != id {
      assert Slot(t, b, p) == id ==> b in Buckets(h, t, id, s);
    }
  }

  lemma DeleteNewOk(h: Hashes, info: Infos, t: Table, fl: set<int>, id: int)
    requires NewOk(h, info, t) && RefsOk(h, info, t, fl) && id in info && info[id].refCount == 0 && id >= 0
    ensures NewOk(h, info - {id}, t)
    ensures RefsOk(h, info - {id}, t, fl - {id})
  {
    NoReference(h, info, t, fl, id);
  }

  lemma DeleteTriedOk(h: Hashes, info: Infos, t: Table, id: int)
    requires TriedOk(h, info, t) && id in info && !info[id].inTried
    ensures TriedOk(h, info - {id}, t)
  {
  }

  // A reference added to or removed from one slot of the new table.

  lemma BucketsChange(h: Hashes, info: Infos, t: Table, b: nat, p: nat, id: int, j: int)
    requires NewOk(h, info, t) && b < NEW_BUCKET_COUNT && p < BUCKET_SIZE && j in info && j >= 0
    ensures var before := Buckets(h, t, j, info[j].service);
            var after := Buckets(h, SetSlot(t, b, p, id), j, info[j].service);
            p == Position(h, true, b, info[j].service) ==>
              && (Slot(t, b, p) == j && id != j ==> b in before && after == before - {b})
              && (Slot(t, b, p) != j && id == j ==> b !in before && after == before + {b})
    ensures Slot(t, b, p) != j && id != j ==>
              Buckets(h, SetSlot(t, b, p, id), j, info[j].service) == Buckets(h, t, j, info[j].service)
  {
    SetSlotIs(t, NEW_BUCKET_COUNT, b, p, id);
  }

  ghost predicate IdsNonNegative(info: Infos) {
    forall id :: id in info ==> id >= 0
  }

  lemma DropRefRefs(h: Hashes, info: Infos, t: Table, fl: set<int>, b: nat, p: nat)
    requires NewOk(h, info, t) && RefsOk(h, info, t, fl) && IdsNonNegative(info)
    requires b < NEW_BUCKET_COUNT && p < BUCKET_SIZE && Slot(t, b, p) != -1
    ensures var id := Slot(t, b, p);
            && id in info && info[id].refCount >= 1
            && RefsOk(h, info[id := info[id].(refCount := info[id].refCount - 1)], SetSlot(t, b, p, -1), fl + {id})
  {
    var id := Slot(t, b, p);
    var info' := info[id := info[id].(refCount := info[id].refCount - 1)];
    var t' := SetSlot(t, b, p, -1);
    BucketsChange(h, info, t, b, p, -1, id);
    forall j | j in info' && j != id ensures Buckets(h, t', j, info'[j].service) == Buckets(h, t, j, info[j].service) {
      BucketsChange(h, info, t, b, p, -1, j);
    }
  }

  lemma AddRefRefs(h: Hashes, info: Infos, t: Table, fl: set<int>, b: nat, p: nat, id: int)
    requires NewOk(h, info, t) && RefsOk(h, info, t, fl) && IdsNonNegative(info)
    requires b < NEW_BUCKET_COUNT && p < BUCKET_SIZE && Slot(t, b, p) == -1
    requires id in info && !info[id].inTried && info[id].refCount < NEW_BUCKETS_PER_ADDRESS
    requires p == Position(h, true, b, info[id].service)
    ensures RefsOk(h, info[id := info[id].(refCount := info[id].refCount + 1)], SetSlot(t, b, p, id), fl - {id})
  {
    var info' := info[id := info[id].(refCount := info[id].refCount + 1)];
    var t' := SetSlot(t, b, p, id);
    BucketsChange(h, info, t, b, p, id, id);
    forall j | j in info' && j != id ensures Buckets(h, t', j, info'[j].service) == Buckets(h, t, j, info[j].service) {
      BucketsChange(h, info, t, b, p, id, j);
    }
  }

  /** Entries differ only in their reference counts. */
  ghost predicate SameButRefs(info: Infos, info': Infos) {
    && info.Keys == info'.Keys
    && forall id :: id in info ==> info'[id] == info[id].(refCount := info'[id].refCount)
  }

  lemma SetRefSame(info: Infos, id: int, n: int)
    requires id in info
    ensures SameButRefs(info, info[id := info[id].(refCount := n)])
  {
  }

  lemma AddrNonNegative(info: Infos, addr: map<Service, int>, idCount: int)
    requires AddrOk(info, addr, idCount)
    ensures IdsNonNegative(info)
  {
  }

  lemma RefChangeNew(h: Hashes, info: Infos, info': Infos, t: Table, b: nat, p: nat, id: int)
    requires NewOk(h, info, t) && SameButRefs(info, info') && b < NEW_BUCKET_COUNT && p < BUCKET_SIZE
    requires id == -1 || (id in info && !info[id].inTried && p == Position(h, true, b, info[id].service))
    ensures NewOk(h, info', SetSlot(t, b, p, id))
  {
    SetSlotIs(t, NEW_BUCKET_COUNT, b, p, id);
  }

  lemma RefChangeRest(h: Hashes, ix: Index, fl: set<int>, det: set<int>, info': Infos)
    requires Ok(h, ix, fl, det) && SameButRefs(ix.info, info')
    ensures RandomOk(info', ix.rnd) && AddrOk(info', ix.addr, ix.idCount) && TimesOk(info')
    ensures TriedOk(h, info', ix.triedTable)
    ensures CountersOk(h, info', det, ix.counters)
  {
    SameKinds(h, ix.info, det, ix.counters, info', det);
  }

  // ----- Primitive changes -----

  /** Changing an entry's statistics. */
  lemma StatsOk(h: Hashes, ix: Index, fl: set<int>, det: set<int>, id: int, x: AddrInfo)
    requires Ok(h, ix, fl, det) && id in ix.info && TimesFine(x)
    requires x.service == ix.info[id].service && x.refCount == ix.info[id].refCount
    requires x.inTried == ix.info[id].inTried && x.randomPos == ix.info[id].randomPos
    ensures Ok(h, ix.(info := ix.info[id := x]), fl, det)
  {
    StatsAligned(ix.info, ix.rnd, id, x);
    AlignedOk(h, ix, fl, det, ix.info[id := x], ix.rnd);
  }

  lemma StatsWrong(h: Hashes, ix: Index, id: int)
    requires id in ix.info && !TimesFine(ix.info[id])
    ensures !Ok(h, ix, {}, {})
  {
  }

  /** Create: a floating new entry with the next id. */
  lemma CreateOk(h: Hashes, ix: Index, fl: set<int>, det: set<int>, x: AddrInfo)
    requires Ok(h, ix, fl, det) && TimesFine(x) && ix.idCount !in det
    requires x.service !in ix.addr && x.refCount == 0 && !x.inTried && x.randomPos == |ix.rnd|
    ensures Ok(h, ix.(idCount := ix.idCount + 1, info := ix.info[ix.idCount := x],
                      addr := ix.addr[x.service := ix.idCount], rnd := ix.rnd + [ix.idCount],
                      counters := Count(ix.counters, New(h.network(x.service)))),
               fl + {ix.idCount}, det)
  {
    var id := ix.idCount;
    CreateRandomOk(ix.info, ix.rnd, id, x);
    CreateAddrOk(ix.info, ix.addr, id, x);
    CreateRefsOk(h, ix.info, ix.newTable, fl, id, x);
    CreateNewOk(h, ix.info, ix.newTable, id, x);
    CreateTriedOk(h, ix.info, ix.triedTable, id, x);
    RecountOne(h, ix.info, det, ix.counters, ix.info[id := x], det, id);
  }

  /** SwapRandom. */
  lemma SwapOk(h: Hashes, ix: Index, fl: set<int>, det: set<int>, i: nat, j: nat)
    requires Ok(h, ix, fl, det) && i < |ix.rnd| && j < |ix.rnd| && i != j
    ensures var a, b := ix.rnd[i], ix.rnd[j];
            && a in ix.info && b in ix.info && a != b
            && Ok(h, ix.(info := ix.info[a := ix.info[a].(randomPos := j)][b := ix.info[b].(randomPos := i)],
                         rnd := ix.rnd[i := b][j := a]), fl, det)
  {
    SwapRandomOk(ix.info, ix.rnd, i, j);
    var a, b := ix.rnd[i], ix.rnd[j];
    SwapAligned(ix.info, a, b, i, j);
    AlignedOk(h, ix, fl, det, ix.info[a := ix.info[a].(randomPos := j)][b := ix.info[b].(randomPos := i)],
              ix.rnd[i := b][j := a]);
  }

  /** Delete, once the entry is last in vRandom. */
  lemma DeleteOk(h: Hashes, ix: Index, fl: set<int>, det: set<int>, id: int)
    requires Ok(h, ix, fl, det) && id in ix.info && id !in det
    requires !ix.info[id].inTried && ix.info[id].refCount == 0 && ix.info[id].randomPos == |ix.rnd| - 1
    ensures ix.counters.nNew > 0 && NetCount(ix.counters.nets, h.network(ix.info[id].service)).nNew > 0
    ensures Ok(h, ix.(info := ix.info - {id}, addr := ix.addr - {ix.info[id].service},
                      rnd := ix.rnd[..|ix.rnd| - 1],
                      counters := Uncount(ix.counters, New(h.network(ix.info[id].service)))),
               fl - {id}, det)
  {
    hide RandomOk, NewOk, RefsOk, TriedOk;
    DeleteRandomOk(ix.info, ix.rnd, id);
    DeleteAddrOk(ix.info, ix.addr, ix.idCount, id);
    DeleteNewOk(h, ix.info, ix.newTable, fl, id);
    DeleteTriedOk(h, ix.info, ix.triedTable, id);
    RecountOne(h, ix.info, det, ix.counters, ix.info - {id}, det, id);
  }

  /** One slot of the new table is cleared. */
  lemma DropRefOk(h: Hashes, ix: Index, fl: set<int>, det: set<int>, b: nat, p: nat)
    requires Ok(h, ix, fl, det) && b < NEW_BUCKET_COUNT && p < BUCKET_SIZE && Slot(ix.newTable, b, p) != -1
    ensures var id := Slot(ix.newTable, b, p);
            && id in ix.info && ix.info[id].refCount >= 1
            && Ok(h, ix.(info := ix.info[id := ix.info[id].(refCount := ix.info[id].refCount - 1)],
                         newTable := SetSlot(ix.newTable, b, p, -1)), fl + {id}, det)
  {
    var id := Slot(ix.newTable, b, p);
    var info', t' := ix.info[id := ix.info[id].(refCount := ix.info[id].refCount - 1)], SetSlot(ix.newTable, b, p, -1);
    SetRefSame(ix.info, id, ix.info[id].refCount - 1);
    AddrNonNegative(ix.info, ix.addr, ix.idCount);
    RefChangeRest(h, ix, fl, det, info');
    assert NewOk(h, info', t') by { RefChangeNew(h, ix.info, info', ix.newTable, b, p, -1); }
    assert ix.info[id].refCount >= 1 && RefsOk(h, info', t', fl + {id}) by {
      DropRefRefs(h, ix.info, ix.newTable, fl, b, p);
    }
  }

  /** An empty slot of the new table is filled. */
  lemma AddRefOk(h: Hashes, ix: Index, fl: set<int>, det: set<int>, b: nat, p: nat, id: int)
    requires Ok(h, ix, fl, det) && b < NEW_BUCKET_COUNT && p < BUCKET_SIZE && Slot(ix.newTable, b, p) == -1
    requires id in ix.info && !ix.info[id].inTried && ix.info[id].refCount < NEW_BUCKETS_PER_ADDRESS
    requires p == Position(h, true, b, ix.info[id].service)
    ensures Ok(h, ix.(info := ix.info[id := ix.info[id].(refCount := ix.info[id].refCount + 1)],
                      newTable := SetSlot(ix.newTable, b, p, id)), fl - {id}, det)
  {
    hide RandomOk, AddrOk, NewOk, RefsOk, TriedOk, TimesOk, CountersOk, SetSlot;
    var info', t' := ix.info[id := ix.info[id].(refCount := ix.info[id].refCount + 1)], SetSlot(ix.newTable, b, p, id);
    SetRefSame(ix.info, id, ix.info[id].refCount + 1);
    AddrNonNegative(ix.info, ix.addr, ix.idCount);
    RefChangeRest(h, ix, fl, det, info');
    assert NewOk(h, info', t') by { RefChangeNew(h, ix.info, info', ix.newTable, b, p, id); }
    assert RefsOk(h, info', t', fl - {id}) by { AddRefRefs(h, ix.info, ix.newTable, fl, b, p, id); }
  }

  /** A new entry stops being counted. */
  lemma DetachOk(h: Hashes, ix: Index, fl: set<int>, det: set<int>, id: int)
    requires Ok(h, ix, fl, det) && id in ix.info && !ix.info[id].inTried && id !in det
    ensures ix.counters.nNew > 0 && NetCount(ix.counters.nets, h.network(ix.info[id].service)).nNew > 0
    ensures Ok(h, ix.(counters := Uncount(ix.counters, New(h.network(ix.info[id].service)))), fl, det + {id})
  {
    RecountOne(h, ix.info, det, ix.counters, ix.info, det + {id}, id);
  }

  /** An uncounted entry is counted as new. */
  lemma AttachOk(h: Hashes, ix: Index, fl: set<int>, det: set<int>, id: int)
    requires Ok(h, ix, fl, det) && id in ix.info && !ix.info[id].inTried && id in det
    ensures Ok(h, ix.(counters := Count(ix.counters, New(h.network(ix.info[id].service)))), fl, det - {id})
  {
    RecountOne(h, ix.info, det, ix.counters, ix.info, det - {id}, id);
  }

  lemma TriedChangeNew(h: Hashes, info: Infos, t: Table, fl: set<int>, id: int, x: AddrInfo)
    requires NewOk(h, info, t) && RefsOk(h, info, t, fl) && id in info && id >= 0 && info[id].refCount == 0
    requires x.service == info[id].service && x.refCount == 0
    ensures NewOk(h, info[id := x], t)
    ensures RefsOk(h, info[id := x], t, if x.inTried then fl - {id} else fl + {id})
  {
    NoReference(h, info, t, fl, id);
  }

  lemma UntryTried(h: Hashes, info: Infos, t: Table, id: int)
    requires TriedOk(h, info, t) && id in info && id >= 0 && info[id].inTried
    ensures var b := TriedBucket(h, info[id].service);
            TriedOk(h, info[id := info[id].(inTried := false)],
                    SetSlot(t, b, Position(h, false, b, info[id].service), -1))
  {
    var b := TriedBucket(h, info[id].service);
    SetSlotIs(t, TRIED_BUCKET_COUNT, b, Position(h, false, b, info[id].service), -1);
  }

  lemma TryTried(h: Hashes, info: Infos, t: Table, id: int)
    requires TriedOk(h, info, t) && id in info && id >= 0 && !info[id].inTried
    requires TriedSlot(h, t, info[id].service) == -1 && IdsNonNegative(info)
    ensures var b := TriedBucket(h, info[id].service);
            TriedOk(h, info[id := info[id].(inTried := true)],
                    SetSlot(t, b, Position(h, false, b, info[id].service), id))
  {
    var b := TriedBucket(h, info[id].service);
    SetSlotIs(t, TRIED_BUCKET_COUNT, b, Position(h, false, b, info[id].service), id);
  }

  lemma RecountInTried(h: Hashes, info: Infos, det: set<int>, det': set<int>, c: Counters, id: int, flag: bool)
    requires CountersOk(h, info, det, c) && id in info && info[id].inTried != flag
    requires if flag then id in det && det' == det - {id} else id !in det && det' == det + {id}
    ensures var net, info' := h.network(info[id].service), info[id := info[id].(inTried := flag)];
            && (!flag ==> c.nTried > 0 && NetCount(c.nets, net).nTried > 0)
            && CountersOk(h, info', det', if flag then Count(c, Tried(net)) else Uncount(c, Tried(net)))
  {
    RecountOne(h, info, det, c, info[id := info[id].(inTried := flag)], det', id);
  }

  /** A tried entry leaves the tried table and is not counted for now. */
  lemma UntryOk(h: Hashes, ix: Index, fl: set<int>, det: set<int>, id: int)
    requires Ok(h, ix, fl, det) && id in ix.info && ix.info[id].inTried && id !in det
    ensures ix.counters.nTried > 0 && NetCount(ix.counters.nets, h.network(ix.info[id].service)).nTried > 0
    ensures var b := TriedBucket(h, ix.info[id].service);
            Ok(h, ix.(info := ix.info[id := ix.info[id].(inTried := false)],
                      triedTable := SetSlot(ix.triedTable, b, Position(h, false, b, ix.info[id].service), -1),
                      counters := Uncount(ix.counters, Tried(h.network(ix.info[id].service)))),
               fl + {id}, det + {id})
  {
    var info' := ix.info[id := ix.info[id].(inTried := false)];
    RecountInTried(h, ix.info, det, det + {id}, ix.counters, id, false);
    UntryTried(h, ix.info, ix.triedTable, id);
    TriedChangeNew(h, ix.info, ix.newTable, fl, id, info'[id]);
    InTriedRest(ix.info, id, false, ix.rnd, ix.addr, ix.idCount);
  }

  /** An uncounted entry without references enters its empty slot of the tried table. */
  lemma TryOk(h: Hashes, ix: Index, fl: set<int>, det: set<int>, id: int)
    requires Ok(h, ix, fl, det) && id in ix.info && !ix.info[id].inTried && id in det
    requires ix.info[id].refCount == 0 && ix.info[id].lastSuccess != 0
    requires TriedSlot(h, ix.triedTable, ix.info[id].service) == -1
    ensures var b := TriedBucket(h, ix.info[id].service);
            Ok(h, ix.(info := ix.info[id := ix.info[id].(inTried := true)],
                      triedTable := SetSlot(ix.triedTable, b, Position(h, false, b, ix.info[id].service), id),
                      counters := Count(ix.counters, Tried(h.network(ix.info[id].service)))),
               fl - {id}, det - {id})
  {
    var info' := ix.info[id := ix.info[id].(inTried := true)];
    RecountInTried(h, ix.info, det, det - {id}, ix.counters, id, true);
    TryTried(h, ix.info, ix.triedTable, id);
    TriedChangeNew(h, ix.info, ix.newTable, fl, id, info'[id]);
    InTriedRest(ix.info, id, true, ix.rnd, ix.addr, ix.idCount);
  }

  lemma InTriedRest(info: Infos, id: int, flag: bool, rnd: seq<int>, addr: map<Service, int>, idCount: int)
    requires RandomOk(info, rnd) && AddrOk(info, addr, idCount) && TimesOk(info) && id in info
    requires flag ==> info[id].lastSuccess != 0
    ensures var info' := info[id := info[id].(inTried := flag)];
            RandomOk(info', rnd) && AddrOk(info', addr, idCount) && TimesOk(info')
  {
  }

  // ----- What the tables say, whatever the order of vRandom -----

  ghost function Content(info: Infos): Infos {
    map id | id in info :: info[id].(randomPos := 0)
  }

  lemma SwapContent(info: Infos, a: int, b: int, i: int, j: int)
    requires a in info && b in info && a != b
    ensures Content(info[a := info[a].(randomPos := j)][b := info[b].(randomPos := i)]) == Content(info)
  {
  }

  lemma SameContent(info: Infos, info': Infos, id: int)
    requires Content(info) == Content(info')
    ensures id in info <==> id in info'
    ensures id in info ==> info'[id] == info[id].(randomPos := info'[id].randomPos)
  {
    assert id in info <==> id in Content(info);
    assert id in info' <==> id in Content(info');
    if id in info { assert Content(info)[id] == Content(info')[id]; }
  }

  lemma OkRandom(h: Hashes, ix: Index, fl: set<int>, det: set<int>, i: nat)
    requires Ok(h, ix, fl, det) && i < |ix.rnd|
    ensures ix.rnd[i] in ix.info && ix.info[ix.rnd[i]].randomPos == i
  {
  }

  lemma OkPosition(h: Hashes, ix: Index, fl: set<int>, det: set<int>, id: int)
    requires Ok(h, ix, fl, det) && id in ix.info
    ensures 0 <= ix.info[id].randomPos < |ix.rnd| && ix.rnd[ix.info[id].randomPos] == id
  {
  }

  lemma DeleteContent(info: Infos, id: int)
    requires id in info
    ensures Content(info - {id}) == Content(info) - {id}
  {
  }

  lemma UpdateContent(info: Infos, id: int, x: AddrInfo)
    ensures Content(info[id := x]) == Content(info)[id := x.(randomPos := 0)]
  {
  }

  /** A later snapshot: ids are not reused for other addresses, new ids have routable ones, and no tried slot
      has been vacated. */
  ghost predicate Evolves(h: Hashes, ix: Index, ix': Index) {
    && ix.idCount <= ix'.idCount
    && (forall id :: id in ix'.info ==>
          || (id in ix.info && ix'.info[id].service == ix.info[id].service)
          || (id >= ix.idCount && h.routable(ix'.info[id].service)))
    && (forall b, p :: 0 <= b && Slot(ix.triedTable, b, p) != -1 ==> Slot(ix'.triedTable, b, p) != -1)
  }

  lemma EvolvesTransitive(h: Hashes, a: Index, b: Index, c: Index)
    requires Evolves(h, a, b) && Evolves(h, b, c)
    ensures Evolves(h, a, c)
  {
  }

  ghost predicate AllRoutable(h: Hashes, ix: Index) { forall id :: id in ix.info ==> h.routable(ix.info[id].service) }

  /** Only routable addresses are ever taken in. */
  lemma RoutableEvolve(h: Hashes, ix: Index, ix': Index)
    requires AllRoutable(h, ix) && Evolves(h, ix, ix')
    ensures AllRoutable(h, ix')
  {
  }

  /** Every id that awaits the test of a tried collision and is still alive has somebody in its slot. */
  ghost predicate CollisionsOk(h: Hashes, ix: Index, collisions: set<int>) {
    forall id :: id in collisions ==>
      id < ix.idCount && (id in ix.info ==> TriedSlot(h, ix.triedTable, ix.info[id].service) != -1)
  }

  lemma CollisionsEvolve(h: Hashes, ix: Index, ix': Index, collisions: set<int>)
    requires CollisionsOk(h, ix, collisions) && Evolves(h, ix, ix')
    ensures CollisionsOk(h, ix', collisions)
  {
  }

  lemma OkReference(h: Hashes, ix: Index, fl: set<int>, det: set<int>, b: nat, p: nat)
    requires Ok(h, ix, fl, det) && Slot(ix.newTable, b, p) != -1
    ensures var id := Slot(ix.newTable, b, p);
            id in ix.info && !ix.info[id].inTried && ix.info[id].refCount >= 1
            && p == Position(h, true, b, ix.info[id].service)
  {
    var id := Slot(ix.newTable, b, p);
    assert b in Buckets(h, ix.newTable, id, ix.info[id].service);
  }

  lemma OkEntry(h: Hashes, ix: Index, fl: set<int>, det: set<int>, id: int)
    requires Ok(h, ix, fl, det) && id in ix.info
    ensures 0 <= id < ix.idCount && TimesFine(ix.info[id])
    ensures ix.info[id].service in ix.addr && ix.addr[ix.info[id].service] == id
    ensures ix.info[id].inTried ==>
              ix.info[id].refCount == 0 && TriedSlot(h, ix.triedTable, ix.info[id].service) == id
    ensures !ix.info[id].inTried ==>
              0 <= ix.info[id].refCount <= NEW_BUCKETS_PER_ADDRESS && (ix.info[id].refCount >= 1 || id in fl)
  {
  }

  lemma OkFind(h: Hashes, ix: Index, fl: set<int>, det: set<int>, s: Service)
    requires Ok(h, ix, fl, det) && s in ix.addr
    ensures ix.addr[s] in ix.info && ix.info[ix.addr[s]].service == s
  {
  }

  /** An entry with a reference need not be listed as floating. */
  lemma Unfloat(h: Hashes, ix: Index, fl: set<int>, det: set<int>, id: int)
    requires Ok(h, ix, fl + {id}, det) && (id in ix.info ==> ix.info[id].refCount >= 1)
    ensures Ok(h, ix, fl, det)
  {
  }

  /** What clearing one of its slots leaves of an entry. */
  ghost function Unreferenced(content: Infos, id: int): Infos {
    if id !in content then content
    else if content[id].refCount <= 1 then content - {id}
    else content[id := content[id].(refCount := content[id].refCount - 1)]
  }

  lemma ContentAt(info: Infos, id: int)
    ensures id in info <==> id in Content(info)
    ensures id in info ==> Content(info)[id] == info[id].(randomPos := 0)
  {
  }

  lemma FloatMore(h: Hashes, ix: Index, fl: set<int>, fl': set<int>, det: set<int>)
    requires Ok(h, ix, fl, det) && fl <= fl'
    ensures Ok(h, ix, fl', det)
  {
  }

  lemma ClearEmpty(h: Hashes, ix: Index, fl: set<int>, det: set<int>, b: nat, p: nat)
    requires Ok(h, ix, fl, det) && Slot(ix.newTable, b, p) == -1
    ensures SetSlot(ix.newTable, b, p, -1) == ix.newTable
    ensures Unreferenced(Content(ix.info), -1) == Content(ix.info)
  {
    var t := ix.newTable;
    if b < |t| && p < |t[b]| {
      assert t[b][p := -1] == t[b];
    }
    ContentAt(ix.info, -1);
  }

  /** A table with every occurrence of an id emptied. */
  ghost predicate Erased(t: Table, t': Table, id: int) {
    forall b, p :: Slot(t', b, p) == if Slot(t, b, p) == id then -1 else Slot(t, b, p)
  }

  ghost predicate PartlyErased(t: Table, t': Table, id: int) {
    forall b, p :: Slot(t', b, p) == Slot(t, b, p) || (Slot(t, b, p) == id && Slot(t', b, p) == -1)
  }

  /** Once the reference count is 0, a partly erased table is fully erased. */
  lemma EraseDone(h: Hashes, ix: Index, fl: set<int>, det: set<int>, t: Table, id: int)
    requires Ok(h, ix, fl, det) && id in ix.info && ix.info[id].refCount == 0
    requires PartlyErased(t, ix.newTable, id)
    ensures Erased(t, ix.newTable, id)
  {
    NoReference(h, ix.info, ix.newTable, fl, id);
    forall b, p ensures Slot(ix.newTable, b, p) == if Slot(t, b, p) == id then -1 else Slot(t, b, p) {
      if b < 0 { assert Slot(t, b, p) == -1; }
    }
  }

  lemma ShapedNew(h: Hashes, ix: Index, fl: set<int>, det: set<int>)
    requires Ok(h, ix, fl, det)
    ensures Shaped(ix.newTable, NEW_BUCKET_COUNT) && Shaped(ix.triedTable, TRIED_BUCKET_COUNT)
    ensures -1 !in ix.info
  {
  }

  /** A walk over all buckets, from any start, that meets no reference has seen the whole table. */
  lemma WalkedAll(h: Hashes, ix: Index, fl: set<int>, det: set<int>, id: int, start: nat)
    requires Ok(h, ix, fl, det) && id in ix.info && start < NEW_BUCKET_COUNT
    requires forall m :: 0 <= m < NEW_BUCKET_COUNT ==> !HoldsAt(h, ix, id, Wrap(start, m))
    ensures ix.info[id].refCount == 0
  {
    var s := ix.info[id].service;
    forall b: nat | b < NEW_BUCKET_COUNT ensures b !in Buckets(h, ix.newTable, id, s) {
      var m := if b >= start then b - start else b - start + NEW_BUCKET_COUNT;
      assert Wrap(start, m) == b;
      assert !HoldsAt(h, ix, id, Wrap(start, m));
    }
    assert Buckets(h, ix.newTable, id, s) == {};
  }

  function Wrap(start: nat, n: nat): nat {
    (start + n) % NEW_BUCKET_COUNT
  }

  predicate HoldsAt(h: Hashes, ix: Index, id: int, b: nat) {
    id in ix.info && Slot(ix.newTable, b, Position(h, true, b, ix.info[id].service)) == id
  }

  /** An entry that holds no reference is not the one a slot refers to. */
  lemma NotReferred(h: Hashes, ix: Index, fl: set<int>, det: set<int>, b: nat, p: nat, id: int)
    requires Ok(h, ix, fl, det) && id in ix.info && ix.info[id].refCount == 0
    ensures Slot(ix.newTable, b, p) != id
  {
    NoReference(h, ix.info, ix.newTable, fl, id);
  }

  lemma OkTriedSlot(h: Hashes, ix: Index, fl: set<int>, det: set<int>, b: nat, p: nat)
    requires Ok(h, ix, fl, det) && Slot(ix.triedTable, b, p) != -1
    ensures var id := Slot(ix.triedTable, b, p);
            && id in ix.info && ix.info[id].inTried && ix.info[id].refCount == 0
            && b == TriedBucket(h, ix.info[id].service) && p == Position(h, false, b, ix.info[id].service)
  {
  }

  lemma SlotAfterTry(h: Hashes, ix: Index, b: nat, p: nat, id: int)
    requires Ok(h, ix, {}, {}) && b < TRIED_BUCKET_COUNT && p < BUCKET_SIZE
    ensures Slot(SetSlot(ix.triedTable, b, p, id), b, p) == id
  {
    SetSlotIs(ix.triedTable, TRIED_BUCKET_COUNT, b, p, id);
  }

  lemma SetSlotTwice(t: Table, b: nat, p: nat, id: int)
    ensures SetSlot(SetSlot(t, b, p, -1), b, p, id) == SetSlot(t, b, p, id)
  {
    if b < |t| && p < |t[b]| {
      assert t[b][p := -1][p := id] == t[b][p := id];
    }
  }

  /** Moving `id` to the tried table, where `evicted` made room and itself displaced an entry. */
  ghost function Promoted(c: Infos, id: int, evicted: int, displaced: int): Infos
    requires id in c && (evicted == -1 || evicted in c)
  {
    var rest := if evicted == -1 then c
                else Unreferenced(c, displaced)[evicted := c[evicted].(inTried := false, refCount := 1)];
    rest[id := c[id].(refCount := 0, inTried := true)]
  }

  lemma KeptContent(info: Infos, info': Infos, dropped: int, id: int)
    requires Content(info') == Unreferenced(Content(info), dropped) && id in info && id != dropped
    ensures id in info' && info'[id] == info[id].(randomPos := info'[id].randomPos)
  {
    ContentAt(info, id);
    ContentAt(info', id);
  }

  /** The slot of the new table that an entry's own source hashes to. */
  function HomeBucket(h: Hashes, x: AddrInfo): nat { NewBucket(h, x.service, x.source) }

  function HomePosition(h: Hashes, x: AddrInfo): nat { Position(h, true, HomeBucket(h, x), x.service) }

  /** The effect of an eviction on the tables, while `id` is being moved. */
  ghost predicate EvictedFrom(h: Hashes, mid: Index, ix': Index, id: int, evicted: int) {
    && id in mid.info && evicted in mid.info && evicted != id
    && var x := Content(mid.info)[evicted];
       && ix'.newTable == SetSlot(mid.newTable, HomeBucket(h, x), HomePosition(h, x), evicted)
       && Content(ix'.info) == Unreferenced(Content(mid.info), Slot(mid.newTable, HomeBucket(h, x), HomePosition(h, x)))
                               [evicted := x.(inTried := false, refCount := 1)]
  }

  lemma EvictionKeeps(h: Hashes, mid: Index, ix': Index, id: int, b: nat, p: nat)
    requires EvictedFrom(h, mid, ix', id, Slot(mid.triedTable, b, p))
    requires Ok(h, mid, {id}, {id}) && mid.info[id].refCount == 0
    ensures id in ix'.info && ix'.info[id] == mid.info[id].(randomPos := ix'.info[id].randomPos)
  {
    hide Ok, Content, HomeBucket, HomePosition, SetSlot;
    var evicted := Slot(mid.triedTable, b, p);
    ContentAt(mid.info, evicted);
    var x := Content(mid.info)[evicted];
    NotReferred(h, mid, {id}, {id}, HomeBucket(h, x), HomePosition(h, x), id);
    ContentAt(mid.info, id);
    ContentAt(ix'.info, id);
  }

  /** MakeTried from `ix` to `ix'`: `id` sits in its tried slot; the entry that sat there, if any, is
      new again in its home slot, whose former reference is gone; all else is as it was. */
  ghost predicate MadeTried(h: Hashes, ix: Index, ix': Index, id: int) {
    && id in ix.info
    && var s := ix.info[id].service;
       var b := TriedBucket(h, s);
       var p := Position(h, false, b, s);
       var evicted := Slot(ix.triedTable, b, p);
       var c := Content(ix.info);
       && ix'.idCount == ix.idCount
       && ix'.triedTable == SetSlot(ix.triedTable, b, p, id)
       && id in c && (evicted == -1 || (evicted in c && evicted != id))
       && (evicted == -1 ==>
             && Erased(ix.newTable, ix'.newTable, id)
             && Content(ix'.info) == Promoted(c, id, -1, -1))
       && (evicted != -1 ==>
             var eb, ep := HomeBucket(h, c[evicted]), HomePosition(h, c[evicted]);
             var was := Slot(ix.newTable, eb, ep);
             && (forall b', p' :: Slot(ix'.newTable, b', p') ==
                   if b' == eb && p' == ep then evicted
                   else if Slot(ix.newTable, b', p') == id then -1 else Slot(ix.newTable, b', p'))
             && Content(ix'.info) == Promoted(c, id, evicted, if was == id then -1 else was))
  }

  /** Between the two halves of MakeTried: `id` has left the new table. */
  ghost predicate LeftNew(ix: Index, mid: Index, id: int) {
    && id in ix.info && !ix.info[id].inTried
    && mid.info == ix.info[id := ix.info[id].(refCount := 0)]
    && Erased(ix.newTable, mid.newTable, id)
    && mid.triedTable == ix.triedTable && mid.idCount == ix.idCount
  }

  ghost predicate EnteredTried(h: Hashes, ev: Index, fin: Index, id: int) {
    && id in ev.info
    && var s := ev.info[id].service;
       var b := TriedBucket(h, s);
       && fin.info == ev.info[id := ev.info[id].(inTried := true)]
       && fin.newTable == ev.newTable && fin.idCount == ev.idCount
       && fin.triedTable == SetSlot(ev.triedTable, b, Position(h, false, b, s), id)
  }

  lemma MadeTriedAlone(h: Hashes, ix: Index, mid: Index, fin: Index, id: int)
    requires LeftNew(ix, mid, id) && EnteredTried(h, mid, fin, id)
    requires TriedSlot(h, ix.triedTable, ix.info[id].service) == -1
    ensures MadeTried(h, ix, fin, id)
  {
    ContentAt(ix.info, id);
    UpdateContent(ix.info, id, mid.info[id]);
    UpdateContent(mid.info, id, fin.info[id]);
  }

  lemma PromotedIs(c: Infos, id: int, evicted: int, d: int, x: AddrInfo)
    requires id in c && evicted in c && evicted != id && evicted != -1 && d != id && d != evicted
    requires x == c[id].(refCount := 0)
    ensures Unreferenced(c[id := x], d)[evicted := c[evicted].(inTried := false, refCount := 1)]
              [id := x.(inTried := true)]
            == Promoted(c, id, evicted, d)
  {
    var l := Unreferenced(c[id := x], d)[evicted := c[evicted].(inTried := false, refCount := 1)]
               [id := x.(inTried := true)];
    var r := Promoted(c, id, evicted, d);
    assert l.Keys == r.Keys;
    forall k | k in l ensures l[k] == r[k] {}
  }

  lemma MadeTriedEvicting(h: Hashes, ix: Index, mid: Index, ev: Index, fin: Index, id: int)
    requires LeftNew(ix, mid, id) && EnteredTried(h, ev, fin, id) && Ok(h, mid, {id}, {id})
    requires var s := ix.info[id].service;
             var b := TriedBucket(h, s);
             var p := Position(h, false, b, s);
             && Slot(ix.triedTable, b, p) != -1 && EvictedFrom(h, mid, ev, id, Slot(ix.triedTable, b, p))
             && ev.triedTable == SetSlot(mid.triedTable, b, p, -1) && ev.idCount == mid.idCount
    ensures MadeTried(h, ix, fin, id)
  {
    hide Ok;
    hide Erased;
    var s := ix.info[id].service;
    var b := TriedBucket(h, s);
    var p := Position(h, false, b, s);
    var evicted := Slot(ix.triedTable, b, p);
    var c, c1 := Content(ix.info), Content(mid.info);
    EvictionKeeps(h, mid, ev, id, b, p);
    OkTriedSlot(h, mid, {id}, {id}, b, p);
    ContentAt(ix.info, id);
    ContentAt(ix.info, evicted);
    ContentAt(ev.info, id);
    UpdateContent(ix.info, id, mid.info[id]);
    UpdateContent(ev.info, id, fin.info[id]);
    SetSlotTwice(mid.triedTable, b, p, id);
    var eb, ep := HomeBucket(h, c[evicted]), HomePosition(h, c[evicted]);
    ShapedNew(h, mid, {id}, {id});
    EvictedTable(ix.newTable, mid.newTable, id, eb, ep, evicted);
    NotReferred(h, mid, {id}, {id}, eb, ep, id);
    NotReferred(h, mid, {id}, {id}, eb, ep, evicted);
    PromotedIs(c, id, evicted, Slot(mid.newTable, eb, ep), c1[id]);
  }

  lemma EvictedTable(t: Table, t': Table, id: int, b: nat, p: nat, v: int)
    requires Erased(t, t', id) && Shaped(t', NEW_BUCKET_COUNT) && b < NEW_BUCKET_COUNT && p < BUCKET_SIZE
    ensures Slot(t', b, p) == if Slot(t, b, p) == id then -1 else Slot(t, b, p)
    ensures forall b', p' :: Slot(SetSlot(t', b, p, v), b', p') ==
              if b' == b && p' == p then v else if Slot(t, b', p') == id then -1 else Slot(t, b', p')
  {
    SetSlotIs(t', NEW_BUCKET_COUNT, b, p, v);
  }

  lemma ClearedSlot(h: Hashes, ix: Index, fl: set<int>, det: set<int>, t: Table, b: nat, p: nat)
    requires Ok(h, ix, fl, det) && ix.triedTable == SetSlot(t, b, p, -1)
    ensures Slot(ix.triedTable, b, p) == -1
  {
  }

  lemma EvolvesContent(h: Hashes, ix: Index, ix': Index)
    requires ix.idCount <= ix'.idCount && ix'.triedTable == ix.triedTable
    requires forall id :: id in Content(ix'.info) ==>
               || (id in Content(ix.info) && Content(ix'.info)[id].service == Content(ix.info)[id].service)
               || (id >= ix.idCount && h.routable(Content(ix'.info)[id].service))
    ensures Evolves(h, ix, ix')
  {
    forall id | id in ix'.info
      ensures || (id in ix.info && ix'.info[id].service == ix.info[id].service)
              || (id >= ix.idCount && h.routable(ix'.info[id].service))
    {
      ContentAt(ix.info, id);
      ContentAt(ix'.info, id);
    }
  }

  lemma PromotedServices(c: Infos, id: int, evicted: int, d: int, j: int)
    requires id in c && (evicted == -1 || evicted in c)
    ensures j in Promoted(c, id, evicted, d) ==> j in c && Promoted(c, id, evicted, d)[j].service == c[j].service
  {
  }

  lemma MadeTriedServices(h: Hashes, ix: Index, ix': Index, id: int, j: int)
    requires MadeTried(h, ix, ix', id) && j in ix'.info
    ensures j in ix.info && ix'.info[j].service == ix.info[j].service
  {
    var c := Content(ix.info);
    var evicted := TriedSlot(h, ix.triedTable, ix.info[id].service);
    ContentAt(ix.info, j);
    ContentAt(ix'.info, j);
    if evicted == -1 {
      PromotedServices(c, id, -1, -1, j);
    } else {
      var was := Slot(ix.newTable, HomeBucket(h, c[evicted]), HomePosition(h, c[evicted]));
      PromotedServices(c, id, evicted, if was == id then -1 else was, j);
    }
  }

  lemma MadeTriedEvolves(h: Hashes, ix: Index, ix': Index, id: int)
    requires MadeTried(h, ix, ix', id) && Ok(h, ix, {}, {})
    ensures Evolves(h, ix, ix')
  {
    hide Ok;
    hide Erased;
    forall j | j in ix'.info ensures j in ix.info && ix'.info[j].service == ix.info[j].service {
      MadeTriedServices(h, ix, ix', id, j);
    }
    ShapedNew(h, ix, {}, {});
    var b := TriedBucket(h, ix.info[id].service);
    SetSlotIs(ix.triedTable, TRIED_BUCKET_COUNT, b, Position(h, false, b, ix.info[id].service), id);
  }

  /** After giving `id` a reference in a slot, or failing to: nothing else is lost but the entry whose
      last reference was there. */
  lemma PlacedKeeps(c: Infos, c': Infos, existing: int, id: int, inserted: bool)
    requires id in c && existing != id
    requires inserted ==> c' == Unreferenced(c, existing)[id := c[id].(refCount := c[id].refCount + 1)]
    requires !inserted ==> c' == if c[id].refCount == 0 then c - {id} else c
    ensures forall j :: j in c' ==> j in c && c'[j].service == c[j].service
    ensures forall j :: j in c && j !in c' ==>
              (j == id && !inserted && c[id].refCount == 0) || (j == existing && inserted && c[j].refCount <= 1)
  {
  }

  lemma FreshNotReferred(h: Hashes, ix: Index, b: nat, p: nat, id: int)
    requires Ok(h, ix, {}, {}) && id == ix.idCount
    ensures id !in ix.info && Slot(ix.newTable, b, p) != id
  {
    if Slot(ix.newTable, b, p) != -1 { OkReference(h, ix, {}, {}, b, p); }
  }

  /** Tables after AddSingle on the entry `id`, whose content was `c` when it was placed. */
  ghost predicate Placed(c: Infos, t: Table, ix': Index, id: int, b: nat, p: nat, inserted: bool) {
    && id in c
    && if inserted then
         && ix'.newTable == SetSlot(t, b, p, id)
         && Content(ix'.info) == Unreferenced(c, Slot(t, b, p))[id := c[id].(refCount := c[id].refCount + 1)]
       else ix'.newTable == t && Content(ix'.info) == if c[id].refCount == 0 then c - {id} else c
  }

  lemma LostBy(ix: Index, ix': Index, j: int)
    ensures j in ix.info && j !in ix'.info <==> j in Content(ix.info) && j !in Content(ix'.info)
    ensures j in ix.info ==> Content(ix.info)[j].refCount == ix.info[j].refCount
  {
  }

  lemma AddedUnknown(h: Hashes, ix: Index, ix': Index, id: int, x: AddrInfo, b: nat, p: nat, added: bool)
    requires Ok(h, ix, {}, {}) && Ok(h, ix', {}, {})
    requires id == ix.idCount && ix'.idCount == id + 1 && ix'.triedTable == ix.triedTable && x.refCount == 0
    requires h.routable(x.service)
    requires Placed(Content(ix.info)[id := x.(randomPos := 0)], ix.newTable, ix', id, b, p, added)
    ensures Evolves(h, ix, ix')
    ensures !added ==> Content(ix'.info) == Content(ix.info) && ix'.newTable == ix.newTable
    ensures added ==> x.service in ix'.addr && ix'.addr[x.service] == id
    ensures added ==> ix'.newTable == SetSlot(ix.newTable, b, p, id)
    ensures forall j :: j in ix.info && j !in ix'.info ==>
              added && j == Slot(ix.newTable, b, p) && ix.info[j].refCount == 1
  {
    hide Ok;
    var c := Content(ix.info)[id := x.(randomPos := 0)];
    FreshNotReferred(h, ix, b, p, id);
    ContentAt(ix.info, id);
    PlacedKeeps(c, Content(ix'.info), Slot(ix.newTable, b, p), id, added);
    EvolvesContent(h, ix, ix');
    if added {
      ContentAt(ix'.info, id);
      OkEntry(h, ix', {}, {}, id);
    }
    forall j | j in ix.info && j !in ix'.info
      ensures added && j == Slot(ix.newTable, b, p) && ix.info[j].refCount == 1
    {
      LostBy(ix, ix', j);
      OkReferenceAt(h, ix, b, p, j);
    }
  }

  lemma OkReferenceAt(h: Hashes, ix: Index, b: nat, p: nat, j: int)
    requires Ok(h, ix, {}, {})
    ensures j in ix.info && Slot(ix.newTable, b, p) == j ==> ix.info[j].refCount >= 1
  {
    if j in ix.info && Slot(ix.newTable, b, p) == j { OkReference(h, ix, {}, {}, b, p); }
  }

  lemma AddedKnown(h: Hashes, ix: Index, ix': Index, id: int, b: nat, p: nat, added: bool)
    requires Ok(h, ix, {}, {}) && Ok(h, ix', {}, {}) && id in ix.info && !ix.info[id].inTried
    requires ix'.idCount == ix.idCount && ix'.triedTable == ix.triedTable
    requires Slot(ix.newTable, b, p) == id ==> !added
    requires Placed(Content(ix.info), ix.newTable, ix', id, b, p, added)
    ensures Evolves(h, ix, ix')
    ensures ix.info[id].service in ix'.addr && ix'.addr[ix.info[id].service] == id
    ensures added ==> ix'.newTable == SetSlot(ix.newTable, b, p, id)
    ensures forall j :: j in ix.info && j !in ix'.info ==>
              added && j == Slot(ix.newTable, b, p) && ix.info[j].refCount == 1
  {
    hide Ok;
    var c := Content(ix.info);
    ContentAt(ix.info, id);
    OkEntry(h, ix, {}, {}, id);
    if Slot(ix.newTable, b, p) != id { PlacedKeeps(c, Content(ix'.info), Slot(ix.newTable, b, p), id, added); }
    EvolvesContent(h, ix, ix');
    ContentAt(ix'.info, id);
    OkEntry(h, ix', {}, {}, id);
    forall j | j in ix.info && j !in ix'.info
      ensures added && j == Slot(ix.newTable, b, p) && ix.info[j].refCount == 1
    {
      LostBy(ix, ix', j);
      OkReferenceAt(h, ix, b, p, j);
    }
  }

  lemma SlotAfterSet(h: Hashes, ix: Index, b: nat, p: nat, id: int)
    requires Ok(h, ix, {}, {}) && b < NEW_BUCKET_COUNT && p < BUCKET_SIZE
    ensures Slot(SetSlot(ix.newTable, b, p, id), b, p) == id
  {
  }

  // ----- How far one network group reaches -----

  /** A set that a map puts one-to-one below `n` has at most `n` elements. */
  lemma {:induction false} AtMostSo(s: set<int>, f: int -> int, n: nat)
    requires forall x :: x in s ==> 0 <= f(x) < n
    requires forall x, y :: x in s && y in s && f(x) == f(y) ==> x == y
    ensures |s| <= n
  {
    if s != {} {
      if x :| x in s && f(x) == n - 1 {
        AtMostSo(s - {x}, f, n - 1);
      } else {
        HasElement(s);
        var y :| y in s;
        assert f(y) < n;
        AtMostSo(s, f, n - 1);
      }
    }
  }

  ghost function TriedOfGroup(h: Hashes, ix: Index, g: nat): set<int> {
    set id | id in ix.info && ix.info[id].inTried && h.group(ix.info[id].service.addr) == g
  }

  /** Which of the 8 times 64 places of its group an address takes in the tried table. */
  ghost function GroupPlace(h: Hashes, s: Service): int {
    h.keyHash(s) % 8 * 64 + Position(h, false, TriedBucket(h, s), s)
  }

  lemma {:induction false} SamePlace(h: Hashes, s: Service, t: Service)
    requires h.group(s.addr) == h.group(t.addr) && GroupPlace(h, s) == GroupPlace(h, t)
    ensures TriedBucket(h, s) == TriedBucket(h, t)
    ensures Position(h, false, TriedBucket(h, s), s) == Position(h, false, TriedBucket(h, t), t)
  {
    var k, m := h.keyHash(s) % 8, h.keyHash(t) % 8;
    var p, q := Position(h, false, TriedBucket(h, s), s), Position(h, false, TriedBucket(h, t), t);
    assert k * 64 + p == m * 64 + q && 0 <= p < 64 && 0 <= q < 64;
  }

  /** However many addresses of one network group are heard of, at most 512 of them are in the tried table. */
  lemma {:induction false} TriedPerGroup(h: Hashes, ix: Index, g: nat)
    requires Ok(h, ix, {}, {})
    ensures |TriedOfGroup(h, ix, g)| <= 512
  {
    hide RandomOk, AddrOk, NewOk, RefsOk, TimesOk, CountersOk, GroupPlace, TriedBucket, Position;
    var f := (id: int) => if id in ix.info then GroupPlace(h, ix.info[id].service) else 0;
    var ids := TriedOfGroup(h, ix, g);
    forall id | id in ids ensures 0 <= f(id) < 512 { PlaceFits(h, ix.info[id].service); }
    forall x, y | x in ids && y in ids && f(x) == f(y) ensures x == y {
      SamePlace(h, ix.info[x].service, ix.info[y].service);
    }
    AtMostSo(ids, f, 512);
  }

  lemma {:induction false} PlaceFits(h: Hashes, s: Service)
    ensures 0 <= GroupPlace(h, s) < 512
  {
  }

  /** The buckets that a source group reaches with its first `n` hashes. */
  ghost function Reached(h: Hashes, g: nat, n: nat): set<nat> {
    if n == 0 then {} else Reached(h, g, n - 1) + {h.newHash(g, n - 1) % 1024}
  }

  lemma {:induction false} ReachedIs(h: Hashes, g: nat, n: nat)
    ensures |Reached(h, g, n)| <= n && forall k :: 0 <= k < n ==> h.newHash(g, k) % 1024 in Reached(h, g, n)
  {
    if n > 0 { ReachedIs(h, g, n - 1); }
  }

  /** Whatever addresses the peers of one network group announce, they reach at most 64 of the 1024 new buckets. */
  lemma {:induction false} NewPerSourceGroup(h: Hashes, g: nat) returns (buckets: set<nat>)
    ensures |buckets| <= 64
    ensures forall s, source :: h.group(source) == g ==> NewBucket(h, s, source) in buckets
  {
    buckets := Reached(h, g, 64);
    ReachedIs(h, g, 64);
  }
}
