/** The consistency check of the address manager (AddrManImpl::CheckAddrman in src/addrman.cpp). */
module AddrManCheck {
  import opened AddrIndex

  /** `order` walks the whole map, each id once. */
  ghost predicate Walk(order: seq<int>, info: Infos) {
    (forall id :: id in info <==> id in order) && Distinct(order)
  }

  lemma {:induction false} SubsetSize<T>(a: set<T>, b: set<T>)
    requires a <= b
    ensures |a| <= |b|
  {
    if x :| x in a {
      SubsetSize(a - {x}, b - {x});
    }
  }

  /** The clauses of CheckAddrman on tables of the right shape. */
  ghost predicate Passes(h: Hashes, ix: Index) {
    && |ix.rnd| == ix.counters.nTried + ix.counters.nNew
    && (forall id :: id in ix.info ==> EntryPasses(ix, id))
    && |TriedIds(h, ix.info, {})| == ix.counters.nTried && |NewIds(h, ix.info, {})| == ix.counters.nNew
    && TriedOk(h, ix.info, ix.triedTable) && NewOk(h, ix.info, ix.newTable)
    && RefsExact(h, ix.info, ix.newTable)
    && h.nKey != 0
    && NetworksExact(h, ix)
  }

  ghost function Networks(h: Hashes, info: Infos): set<nat> { set id | id in info :: h.network(info[id].service) }

  lemma {:induction false} NetworksWithin(h: Hashes, info: Infos, c: Counters)
    requires CountersOk(h, info, {}, c)
    ensures Networks(h, info) <= c.nets.Keys
  {
    forall net | net in Networks(h, info) ensures net in c.nets {
      var id :| id in info && net == h.network(info[id].service);
      assert id in IdsOfKind(h, info, {}, New(net)) || id in IdsOfKind(h, info, {}, Tried(net));
      assert NetCount(c.nets, net).nNew == |IdsOfKind(h, info, {}, New(net))|;
    }
  }

  lemma {:induction false} NetworksCounted(h: Hashes, info: Infos, c: Counters)
    requires CountersOk(h, info, {}, c)
    ensures |Networks(h, info)| <= |c.nets|
  {
    NetworksWithin(h, info, c);
    SubsetSize(Networks(h, info), c.nets.Keys);
  }

  ghost predicate EntryPasses(ix: Index, id: int)
    requires id in ix.info
  {
    var x := ix.info[id];
    && (if x.inTried then x.lastSuccess != 0 && x.refCount == 0 else 1 <= x.refCount <= 8)
    && x.service in ix.addr && ix.addr[x.service] == id
    && 0 <= x.randomPos < |ix.rnd| && ix.rnd[x.randomPos] == id
    && x.lastTry >= 0 && x.lastSuccess >= 0
  }

  /** What a code of the loop over the entries says of one of them. */
  ghost predicate EntryFault(ix: Index, id: int, code: int)
    requires id in ix.info
  {
    var x := ix.info[id];
    || (code == -1 && x.inTried && x.lastSuccess == 0)
    || (code == -2 && x.inTried && x.refCount != 0)
    || (code == -3 && !x.inTried && !(0 <= x.refCount <= 8))
    || (code == -4 && !x.inTried && x.refCount == 0)
    || (code == -5 && !(x.service in ix.addr && ix.addr[x.service] == id))
    || (code == -14 && !(0 <= x.randomPos < |ix.rnd| && ix.rnd[x.randomPos] == id))
    || (code == -6 && x.lastTry < 0)
    || (code == -8 && x.lastSuccess < 0)
  }

  lemma {:induction false} RandomSize(info: Infos, rnd: seq<int>)
    requires RandomOk(info, rnd)
    ensures |rnd| == |info.Keys|
  {
    SeqSize(rnd);
    forall id | id in info ensures id in rnd { assert rnd[info[id].randomPos] == id; }
    assert SetOf(rnd) == info.Keys;
  }

  ghost function SetOf(s: seq<int>): set<int> { set id | id in s }

  lemma {:induction false} SeqSize(s: seq<int>)
    requires Distinct(s)
    ensures |SetOf(s)| == |s|
  {
    if s != [] {
      var n := |s| - 1;
      SeqSize(s[..n]);
      assert s == s[..n] + [s[n]];
      assert SetOf(s) == SetOf(s[..n]) + {s[n]};
    }
  }

  lemma {:induction false} KeysSplit(h: Hashes, info: Infos)
    ensures |info.Keys| == |NewIds(h, info, {})| + |TriedIds(h, info, {})|
  {
    assert info.Keys == NewIds(h, info, {}) + TriedIds(h, info, {});
    assert NewIds(h, info, {}) !! TriedIds(h, info, {});
  }

  /** Every consistent manager passes the check. */
  lemma {:induction false} OkPasses(h: Hashes, ix: Index)
    requires Ok(h, ix, {}, {}) && h.nKey != 0
    ensures Passes(h, ix)
  {
    hide RandomOk, AddrOk, NewOk, RefsOk, TriedOk, CountersOk, TimesOk, NetworksExact, RefsExact, EntryPasses;
    RandomSize(ix.info, ix.rnd);
    KeysSplit(h, ix.info);
    OkNetworks(h, ix);
    OkRefsExact(h, ix);
    OkEntries(h, ix);
  }

  lemma {:induction false} OkRefsExact(h: Hashes, ix: Index)
    requires RefsOk(h, ix.info, ix.newTable, {})
    ensures RefsExact(h, ix.info, ix.newTable)
  {
    hide Buckets;
  }

  lemma {:induction false} OkEntries(h: Hashes, ix: Index)
    requires RandomOk(ix.info, ix.rnd) && AddrOk(ix.info, ix.addr, ix.idCount) && RefsOk(h, ix.info, ix.newTable, {})
             && TimesOk(ix.info)
    ensures forall id :: id in ix.info ==> EntryPasses(ix, id)
  {
    hide Buckets;
    forall id | id in ix.info ensures EntryPasses(ix, id) { assert TimesFine(ix.info[id]); }
  }

  lemma {:induction false} OkNetworks(h: Hashes, ix: Index)
    requires CountersOk(h, ix.info, {}, ix.counters)
    ensures NetworksExact(h, ix)
    ensures |TriedIds(h, ix.info, {})| == ix.counters.nTried && |NewIds(h, ix.info, {})| == ix.counters.nNew
  {
    NetworksCounted(h, ix.info, ix.counters);
    forall net | net in ix.counters.nets ensures NetworkExact(h, ix, net) {
      assert NetCount(ix.counters.nets, net) == ix.counters.nets[net];
    }
  }

  // ----- The scan of the entries -----

  /** The part of the map under some ids. */
  ghost function Sub(info: Infos, ids: seq<int>): Infos { map id | id in ids && id in info :: info[id] }

  ghost predicate IdsTallied(h: Hashes, info: Infos, sub: Infos, tried: set<int>, news: map<int, int>) {
    && tried == TriedIds(h, sub, {}) && news.Keys == NewIds(h, sub, {})
    && (forall id :: id in news ==> id in info && news[id] == info[id].refCount)
  }

  ghost predicate NetsTallied(h: Hashes, sub: Infos, nNew: nat, nTried: nat, local: map<nat, NewTriedCount>) {
    CountersOk(h, sub, {}, Counters(nNew, nTried, local)) && local.Keys == Networks(h, sub)
  }

  /** What the scan has gathered after the entries `ids`. */
  ghost predicate Tallied(h: Hashes, info: Infos, ids: seq<int>, tried: set<int>, news: map<int, int>,
                          local: map<nat, NewTriedCount>) {
    IdsTallied(h, info, Sub(info, ids), tried, news) && NetsTallied(h, Sub(info, ids), |news|, |tried|, local)
  }

  lemma {:induction false} TalliedNone(h: Hashes, info: Infos)
    ensures Tallied(h, info, [], {}, map[], map[])
  {
    var sub := Sub(info, []);
    assert sub == map[];
    assert NewIds(h, sub, {}) == {} && TriedIds(h, sub, {}) == {};
    forall net ensures IdsOfKind(h, sub, {}, New(net)) == {} && IdsOfKind(h, sub, {}, Tried(net)) == {} { }
  }

  lemma {:induction false} SubNext(info: Infos, ids: seq<int>, id: int)
    requires id in info && id !in ids
    ensures id !in Sub(info, ids) && Sub(info, ids + [id]) == Sub(info, ids)[id := info[id]]
  {
  }

  lemma {:induction false} NetworksNext(h: Hashes, info: Infos, id: int, x: AddrInfo)
    requires id !in info
    ensures Networks(h, info[id := x]) == Networks(h, info) + {h.network(x.service)}
  {
    var info' := info[id := x];
    forall net | net in Networks(h, info) ensures net in Networks(h, info') {
      var j :| j in info && net == h.network(info[j].service);
      assert j in info' && info'[j] == info[j];
    }
    assert id in info' && info'[id] == x;
  }

  /** One more entry among the counted ones. */
  lemma {:induction false} CountedNext(h: Hashes, sub: Infos, c: Counters, id: int, x: AddrInfo)
    requires CountersOk(h, sub, {}, c) && id !in sub
    ensures CountersOk(h, sub[id := x], {},
            Count(c, if x.inTried then Tried(h.network(x.service)) else New(h.network(x.service))))
  {
    var sub' := sub[id := x];
    assert forall j :: j != id ==> KindOf(h, sub, {}, j) == KindOf(h, sub', {}, j);
    assert Uncount(c, Uncounted) == c;
    hide CountersOk;
    RecountOne(h, sub, {}, c, sub', {}, id);
  }

  lemma {:induction false} IdsNext(h: Hashes, sub: Infos, id: int, x: AddrInfo)
    requires id !in sub
    ensures NewIds(h, sub[id := x], {}) == NewIds(h, sub, {}) + if x.inTried then {} else {id}
    ensures TriedIds(h, sub[id := x], {}) == TriedIds(h, sub, {}) + if x.inTried then {id} else {}
  {
  }

  lemma {:induction false} NetsNextTried(h: Hashes, sub: Infos, nNew: nat, nTried: nat, local: map<nat, NewTriedCount>,
                                         id: int, x: AddrInfo, net: nat)
    requires NetsTallied(h, sub, nNew, nTried, local) && id !in sub && x.inTried && net == h.network(x.service)
    ensures NetsTallied(h, sub[id := x], nNew, nTried + 1,
            local[net := NetCount(local, net).(nTried := NetCount(local, net).nTried + 1)])
  {
    hide CountersOk, Networks;
    NetworksNext(h, sub, id, x);
    CountIs(Counters(nNew, nTried, local), net);
    CountedNext(h, sub, Counters(nNew, nTried, local), id, x);
  }

  lemma {:induction false} NetsNextNew(h: Hashes, sub: Infos, nNew: nat, nTried: nat, local: map<nat, NewTriedCount>,
                                       id: int, x: AddrInfo, net: nat)
    requires NetsTallied(h, sub, nNew, nTried, local) && id !in sub && !x.inTried && net == h.network(x.service)
    ensures NetsTallied(h, sub[id := x], nNew + 1, nTried,
            local[net := NetCount(local, net).(nNew := NetCount(local, net).nNew + 1)])
  {
    hide CountersOk, Networks;
    NetworksNext(h, sub, id, x);
    CountIs(Counters(nNew, nTried, local), net);
    CountedNext(h, sub, Counters(nNew, nTried, local), id, x);
  }

  lemma {:induction false} IdsTalliedNext(h: Hashes, info: Infos, sub: Infos, tried: set<int>, news: map<int, int>,
                                          id: int)
    requires IdsTallied(h, info, sub, tried, news) && id in info && id !in sub
    ensures id !in tried && id !in news
    ensures info[id].inTried ==> IdsTallied(h, info, sub[id := info[id]], tried + {id}, news)
    ensures !info[id].inTried ==> IdsTallied(h, info, sub[id := info[id]], tried, news[id := info[id].refCount])
  {
    IdsNext(h, sub, id, info[id]);
    hide NewIds, TriedIds;
    TriedWithin(h, sub, id);
    var news' := news[id := info[id].refCount];
    assert news'.Keys == news.Keys + {id};
  }

  lemma {:induction false} TriedWithin(h: Hashes, sub: Infos, id: int)
    requires id !in sub
    ensures id !in TriedIds(h, sub, {}) && id !in NewIds(h, sub, {})
  {
  }

  lemma {:induction false} NewsSize(news: map<int, int>, id: int, n: int)
    requires id !in news
    ensures |news[id := n]| == |news| + 1
  {
    assert news[id := n].Keys == news.Keys + {id};
  }

  lemma {:induction false} TalliedTried(h: Hashes, info: Infos, ids: seq<int>, tried: set<int>, news: map<int, int>,
                                        local: map<nat, NewTriedCount>, id: int, net: nat)
    requires Tallied(h, info, ids, tried, news, local) && id in info && id !in ids && info[id].inTried
             && net == h.network(info[id].service)
    ensures Tallied(h, info, ids + [id], tried + {id}, news,
            local[net := NetCount(local, net).(nTried := NetCount(local, net).nTried + 1)])
  {
    hide Sub, IdsTallied, NetsTallied, NetCount;
    SubNext(info, ids, id);
    IdsTalliedNext(h, info, Sub(info, ids), tried, news, id);
    NetsNextTried(h, Sub(info, ids), |news|, |tried|, local, id, info[id], net);
    assert |tried + {id}| == |tried| + 1;
  }

  lemma {:induction false} TalliedNew(h: Hashes, info: Infos, ids: seq<int>, tried: set<int>, news: map<int, int>,
                                      local: map<nat, NewTriedCount>, id: int, net: nat)
    requires Tallied(h, info, ids, tried, news, local) && id in info && id !in ids && !info[id].inTried
             && net == h.network(info[id].service)
    ensures Tallied(h, info, ids + [id], tried, news[id := info[id].refCount],
            local[net := NetCount(local, net).(nNew := NetCount(local, net).nNew + 1)])
  {
    hide Sub, IdsTallied, NetsTallied, NetCount;
    SubNext(info, ids, id);
    IdsTalliedNext(h, info, Sub(info, ids), tried, news, id);
    NetsNextNew(h, Sub(info, ids), |news|, |tried|, local, id, info[id], net);
    NewsSize(news, id, info[id].refCount);
  }

  lemma {:induction false} SubAll(info: Infos, order: seq<int>)
    requires Walk(order, info)
    ensures Sub(info, order) == info
  {
    var sub := Sub(info, order);
    forall id ensures id in sub <==> id in info { }
    assert sub.Keys == info.Keys;
  }

  lemma {:induction false} TalliedAll(h: Hashes, info: Infos, order: seq<int>, tried: set<int>, news: map<int, int>,
                                      local: map<nat, NewTriedCount>)
    requires Walk(order, info) && Tallied(h, info, order, tried, news, local)
    ensures tried == TriedIds(h, info, {}) && news.Keys == NewIds(h, info, {}) && local.Keys == Networks(h, info)
    ensures forall id :: id in news ==> id in info && news[id] == info[id].refCount
    ensures CountersOk(h, info, {}, Counters(|news|, |tried|, local))
  {
    SubAll(info, order);
  }

  method CheckEntries(h: Hashes, ix: Index, order: seq<int>)
    returns (code: int, tried: set<int>, news: map<int, int>, local: map<nat, NewTriedCount>)
    requires Walk(order, ix.info)
    ensures code == 0 <==> forall id :: id in ix.info ==> EntryPasses(ix, id)
    ensures code == 0 ==> Tallied(h, ix.info, order, tried, news, local)
    ensures code != 0 ==> exists id :: id in ix.info && EntryFault(ix, id, code)
  {
    code, tried, news, local := 0, {}, map[], map[];
    TalliedNone(h, ix.info);
    hide Tallied;
    assert order[..0] == [];
    for k := 0 to |order|
      invariant Tallied(h, ix.info, order[..k], tried, news, local) && code == 0
      invariant forall j :: 0 <= j < k ==> order[j] in ix.info && EntryPasses(ix, order[j])
    {
      var id := order[k];
      assert id in order;
      code := CheckEntry(ix, id);
      if code != 0 {
        return;
      }
      assert order[..k + 1] == order[..k] + [id];
      var x := ix.info[id];
      var net := h.network(x.service);
      var count := NetCount(local, net);
      if x.inTried {
        TalliedTried(h, ix.info, order[..k], tried, news, local, id, net);
        tried := tried + {id};
        local := local[net := count.(nTried := count.nTried + 1)];
      } else {
        TalliedNew(h, ix.info, order[..k], tried, news, local, id, net);
        news := news[id := x.refCount];
        local := local[net := count.(nNew := count.nNew + 1)];
      }
    }
    assert order[..|order|] == order;
    forall id | id in ix.info ensures EntryPasses(ix, id) { assert id in order; }
  }

  method CheckEntry(ix: Index, id: int) returns (code: int)
    requires id in ix.info
    ensures code == 0 <==> EntryPasses(ix, id)
    ensures code != 0 ==> EntryFault(ix, id, code)
  {
    var info := ix.info[id];
    if info.inTried {
      if info.lastSuccess == 0 { return -1; }
      if info.refCount != 0 { return -2; }
    } else {
      if info.refCount < 0 || info.refCount > NEW_BUCKETS_PER_ADDRESS { return -3; }
      if info.refCount == 0 { return -4; }
    }
    if info.service !in ix.addr || ix.addr[info.service] != id { return -5; }
    if info.randomPos < 0 || info.randomPos >= |ix.rnd| || ix.rnd[info.randomPos] != id { return -14; }
    if info.lastTry < 0 { return -6; }
    if info.lastSuccess < 0 { return -8; }
    code := 0;
  }

  // ----- The scan of the tried table -----

  predicate Before(b: int, p: int, c: int, q: int) { b < c || (b == c && p < q) }

  /** The slot is empty or holds a tried entry whose own slot it is. */
  ghost predicate TriedHolderOk(h: Hashes, info: Infos, t: Table, b: nat, p: nat) {
    var id := Slot(t, b, p);
    id != -1 ==>
      && id in info && info[id].inTried
      && b == TriedBucket(h, info[id].service) && p == Position(h, false, b, info[id].service)
  }

  ghost predicate SeenTried(h: Hashes, info: Infos, t: Table, id: int, b: int, p: int)
    requires id in info
  {
    var s := info[id].service;
    TriedSlot(h, t, s) == id && Before(TriedBucket(h, s), Position(h, false, TriedBucket(h, s), s), b, p)
  }

  /** Up to slot `p` of bucket `b` all is well, and `left` are the tried ids not met so far. */
  ghost predicate TriedScanned(h: Hashes, info: Infos, t: Table, left: set<int>, b: int, p: int) {
    && (forall c: nat, q: nat :: Before(c, q, b, p) ==> TriedHolderOk(h, info, t, c, q))
    && (forall id :: id in left <==> id in info && info[id].inTried && !SeenTried(h, info, t, id, b, p))
  }

  lemma {:induction false} TriedScannedNone(h: Hashes, info: Infos, t: Table)
    ensures TriedScanned(h, info, t, TriedIds(h, info, {}), 0, 0)
  {
  }

  lemma {:induction false} TriedScannedRow(h: Hashes, info: Infos, t: Table, left: set<int>, b: nat)
    requires Shaped(t, TRIED_BUCKET_COUNT) && TriedScanned(h, info, t, left, b, BUCKET_SIZE)
    ensures TriedScanned(h, info, t, left, b + 1, 0)
  {
    forall c: nat, q: nat | Before(c, q, b + 1, 0) ensures TriedHolderOk(h, info, t, c, q) {
      if q >= BUCKET_SIZE { assert Slot(t, c, q) == -1; } else { assert Before(c, q, b, BUCKET_SIZE); }
    }
    forall id | id in info
      ensures SeenTried(h, info, t, id, b, BUCKET_SIZE) <==> SeenTried(h, info, t, id, b + 1, 0) { }
  }

  lemma {:induction false} TriedScannedSkip(h: Hashes, info: Infos, t: Table, left: set<int>, b: nat, p: nat)
    requires TriedScanned(h, info, t, left, b, p) && Slot(t, b, p) == -1 && -1 !in info
    ensures TriedScanned(h, info, t, left, b, p + 1)
  {
  }

  /** A slot passes when it holds an id still to be met whose own slot it is; otherwise it is wrong. */
  lemma {:induction false} TriedScannedNext(h: Hashes, info: Infos, t: Table, left: set<int>, b: nat, p: nat)
    requires TriedScanned(h, info, t, left, b, p) && Slot(t, b, p) != -1
    ensures var id := Slot(t, b, p);
            if TriedHolderOk(h, info, t, b, p) then id in left && TriedScanned(h, info, t, left - {id}, b, p + 1)
            else id !in left || b != TriedBucket(h, info[id].service) || p != Position(h, false, b, info[id].service)
  {
    var id := Slot(t, b, p);
    if TriedHolderOk(h, info, t, b, p) {
      forall j | j in info && j != id ensures SeenTried(h, info, t, j, b, p) <==> SeenTried(h, info, t, j, b, p + 1) { }
    }
  }

  ghost predicate TriedHoldersOk(h: Hashes, info: Infos, t: Table) {
    forall b: nat, p: nat :: TriedHolderOk(h, info, t, b, p)
  }

  lemma {:induction false} TriedScannedAll(h: Hashes, info: Infos, t: Table, left: set<int>)
    requires Shaped(t, TRIED_BUCKET_COUNT) && TriedScanned(h, info, t, left, TRIED_BUCKET_COUNT, 0)
    ensures TriedHoldersOk(h, info, t)
    ensures left == {} <==> TriedOk(h, info, t)
  {
    forall b: nat, p: nat ensures TriedHolderOk(h, info, t, b, p) {
      if b >= TRIED_BUCKET_COUNT { assert Slot(t, b, p) == -1; } else { assert Before(b, p, TRIED_BUCKET_COUNT, 0); }
    }
    forall b, p | 0 <= b && Slot(t, b, p) != -1 ensures p >= 0 && TriedHolderOk(h, info, t, b, p) { }
    forall id | id in info && info[id].inTried ensures id in left <==> TriedSlot(h, t, info[id].service) != id { }
    if left != {} {
      HasElement(left);
      var id :| id in left;
      assert TriedSlot(h, t, info[id].service) != id;
    }
  }

  /** What a code of the loop over the tried table says of one slot. */
  ghost predicate TriedFault(h: Hashes, ix: Index, b: nat, p: nat, code: int) {
    var id := Slot(ix.triedTable, b, p);
    && id != -1
    && (|| (code == -11 && !(id in ix.info && ix.info[id].inTried && !SeenTried(h, ix.info, ix.triedTable, id, b, p)))
        || (code == -17 && id in ix.info && b != TriedBucket(h, ix.info[id].service))
        || (code == -18 && id in ix.info && p != Position(h, false, b, ix.info[id].service)))
  }

  lemma {:induction false} TriedKnown(h: Hashes, ix: Index, left: set<int>, b: nat, p: nat)
    requires TriedScanned(h, ix.info, ix.triedTable, left, b, p)
    ensures var id := Slot(ix.triedTable, b, p);
            if id in left then id in ix.info else id != -1 ==> TriedFault(h, ix, b, p, -11)
  {
  }

  method CheckTriedTable(h: Hashes, ix: Index, tried: set<int>) returns (code: int, left: set<int>)
    requires Shaped(ix.triedTable, TRIED_BUCKET_COUNT) && tried == TriedIds(h, ix.info, {}) && -1 !in ix.info
    ensures code == 0 <==> TriedHoldersOk(h, ix.info, ix.triedTable)
    ensures code == 0 ==> (left == {} <==> TriedOk(h, ix.info, ix.triedTable))
    ensures code != 0 ==> exists b: nat, p: nat :: TriedFault(h, ix, b, p, code)
  {
    code, left := 0, tried;
    TriedScannedNone(h, ix.info, ix.triedTable);
    hide TriedScanned, TriedOk, TriedIds;
    for n := 0 to TRIED_BUCKET_COUNT
      invariant TriedScanned(h, ix.info, ix.triedTable, left, n, 0) && code == 0
    {
      for i := 0 to BUCKET_SIZE
        invariant TriedScanned(h, ix.info, ix.triedTable, left, n, i) && code == 0
      {
        var id := ix.triedTable[n][i];
        assert id == Slot(ix.triedTable, n, i);
        if id != -1 {
          TriedScannedNext(h, ix.info, ix.triedTable, left, n, i);
          TriedKnown(h, ix, left, n, i);
          if id !in left { assert TriedFault(h, ix, n, i, -11); return -11, left; }
          if id !in ix.info || TriedBucket(h, ix.info[id].service) != n {
            assert TriedFault(h, ix, n, i, -17);
            return -17, left;
          }
          if Position(h, false, n, ix.info[id].service) != i { assert TriedFault(h, ix, n, i, -18); return -18, left; }
          left := left - {id};
        } else {
          TriedScannedSkip(h, ix.info, ix.triedTable, left, n, i);
        }
      }
      TriedScannedRow(h, ix.info, ix.triedTable, left, n);
    }
    TriedScannedAll(h, ix.info, ix.triedTable, left);
  }

  // ----- The scan of the new table -----

  /** The slot is empty or holds an entry that is not tried, at its position. */
  ghost predicate NewHolderOk(h: Hashes, info: Infos, t: Table, b: nat, p: nat) {
    var id := Slot(t, b, p);
    id != -1 ==> id in info && !info[id].inTried && p == Position(h, true, b, info[id].service)
  }

  /** The buckets before slot `p` of bucket `b` in which the id has been met. */
  ghost function Met(h: Hashes, t: Table, id: int, s: Service, b: int, p: int): set<nat> {
    set c: nat | 0 <= c < NEW_BUCKET_COUNT && Slot(t, c, Position(h, true, c, s)) == id
      && Before(c, Position(h, true, c, s), b, p)
  }

  function Left(left: map<int, int>, id: int): int { if id in left then left[id] else 0 }

  /** Up to slot `p` of bucket `b` all is well, and `left` says how often each id is still to be met. */
  ghost predicate NewScanned(h: Hashes, info: Infos, t: Table, left: map<int, int>, b: int, p: int) {
    && (forall c: nat, q: nat :: Before(c, q, b, p) ==> NewHolderOk(h, info, t, c, q))
    && (forall id :: id in left ==> id in info && !info[id].inTried && left[id] > 0)
    && (forall id :: id in info && !info[id].inTried ==>
          Left(left, id) + |Met(h, t, id, info[id].service, b, p)| == info[id].refCount)
  }

  lemma {:induction false} MetNone(h: Hashes, t: Table, id: int, s: Service)
    ensures Met(h, t, id, s, 0, 0) == {}
  {
  }

  lemma {:induction false} MetRow(h: Hashes, t: Table, id: int, s: Service, b: int)
    ensures Met(h, t, id, s, b, BUCKET_SIZE) == Met(h, t, id, s, b + 1, 0)
  {
  }

  lemma {:induction false} MetAll(h: Hashes, t: Table, id: int, s: Service)
    ensures Met(h, t, id, s, NEW_BUCKET_COUNT, 0) == Buckets(h, t, id, s)
  {
  }

  lemma {:induction false} MetNext(h: Hashes, t: Table, id: int, s: Service, b: nat, p: nat)
    requires b < NEW_BUCKET_COUNT
    ensures var now, next := Met(h, t, id, s, b, p), Met(h, t, id, s, b, p + 1);
            if Slot(t, b, p) == id && p == Position(h, true, b, s) then b !in now && next == now + {b} else next == now
  {
  }

  lemma {:induction false} NewScannedNone(h: Hashes, ix: Index, news: map<int, int>)
    requires news.Keys == NewIds(h, ix.info, {})
    requires forall id :: id in news ==> id in ix.info && news[id] == ix.info[id].refCount
    requires forall id :: id in ix.info ==> EntryPasses(ix, id)
    ensures NewScanned(h, ix.info, ix.newTable, news, 0, 0)
  {
    forall id | id in ix.info && !ix.info[id].inTried
      ensures Left(news, id) + |Met(h, ix.newTable, id, ix.info[id].service, 0, 0)| == ix.info[id].refCount
    {
      MetNone(h, ix.newTable, id, ix.info[id].service);
      assert id in NewIds(h, ix.info, {});
    }
    forall id | id in news ensures id in ix.info && !ix.info[id].inTried && news[id] > 0 {
      assert id in NewIds(h, ix.info, {}) && EntryPasses(ix, id);
    }
  }

  lemma {:induction false} NewScannedRow(h: Hashes, info: Infos, t: Table, left: map<int, int>, b: nat)
    requires Shaped(t, NEW_BUCKET_COUNT) && NewScanned(h, info, t, left, b, BUCKET_SIZE)
    ensures NewScanned(h, info, t, left, b + 1, 0)
  {
    forall c: nat, q: nat | Before(c, q, b + 1, 0) ensures NewHolderOk(h, info, t, c, q) {
      if q >= BUCKET_SIZE { assert Slot(t, c, q) == -1; } else { assert Before(c, q, b, BUCKET_SIZE); }
    }
    hide Met;
    forall id | id in info && !info[id].inTried
      ensures Left(left, id) + |Met(h, t, id, info[id].service, b + 1, 0)| == info[id].refCount
    {
      MetRow(h, t, id, info[id].service, b);
    }
  }

  lemma {:induction false} HoldersNext(h: Hashes, info: Infos, t: Table, b: nat, p: nat)
    requires (forall c: nat, q: nat :: Before(c, q, b, p) ==> NewHolderOk(h, info, t, c, q))
             && NewHolderOk(h, info, t, b, p)
    ensures forall c: nat, q: nat :: Before(c, q, b, p + 1) ==> NewHolderOk(h, info, t, c, q)
  {
    hide NewHolderOk;
    forall c: nat, q: nat | Before(c, q, b, p + 1) ensures NewHolderOk(h, info, t, c, q) {
      if !(c == b && q == p) { assert Before(c, q, b, p); }
    }
  }

  /** What is left after meeting an id once more. */
  function MeetOnce(left: map<int, int>, id: int): map<int, int>
    requires id in left
  {
    if left[id] == 1 then left - {id} else left[id := left[id] - 1]
  }

  /** A slot that meets an id still expected at its position is fine. */
  lemma {:induction false} NewScannedMeet(h: Hashes, info: Infos, t: Table, left: map<int, int>, b: nat, p: nat)
    requires NewScanned(h, info, t, left, b, p) && b < NEW_BUCKET_COUNT && Slot(t, b, p) in left && Slot(t, b, p) != -1
    requires p == Position(h, true, b, info[Slot(t, b, p)].service)
    ensures NewScanned(h, info, t, MeetOnce(left, Slot(t, b, p)), b, p + 1)
  {
    var id := Slot(t, b, p);
    var left' := MeetOnce(left, id);
    HoldersNext(h, info, t, b, p);
    hide Met, NewHolderOk;
    forall j | j in info && !info[j].inTried
      ensures Left(left', j) + |Met(h, t, j, info[j].service, b, p + 1)| == info[j].refCount
    {
      MetNext(h, t, j, info[j].service, b, p);
    }
  }

  lemma {:induction false} NewScannedSkip(h: Hashes, info: Infos, t: Table, left: map<int, int>, b: nat, p: nat)
    requires NewScanned(h, info, t, left, b, p) && b < NEW_BUCKET_COUNT && Slot(t, b, p) == -1 && -1 !in info
    ensures NewScanned(h, info, t, left, b, p + 1)
  {
    HoldersNext(h, info, t, b, p);
    hide Met, NewHolderOk;
    forall j | j in info && !info[j].inTried
      ensures Left(left, j) + |Met(h, t, j, info[j].service, b, p + 1)| == info[j].refCount
    {
      MetNext(h, t, j, info[j].service, b, p);
    }
  }

  ghost predicate RefsExact(h: Hashes, info: Infos, t: Table) {
    forall id :: id in info && !info[id].inTried ==> info[id].refCount == |Buckets(h, t, id, info[id].service)|
  }

  /** A slot whose id is not expected any more is wrong, or one reference too many. */
  lemma {:induction false} NewScannedExcess(h: Hashes, info: Infos, t: Table, left: map<int, int>, b: nat, p: nat)
    requires NewScanned(h, info, t, left, b, p) && b < NEW_BUCKET_COUNT && Slot(t, b, p) != -1 && Slot(t, b, p) !in left
    requires NewHolderOk(h, info, t, b, p)
    ensures !RefsExact(h, info, t)
  {
    var id := Slot(t, b, p);
    var s := info[id].service;
    MetNext(h, t, id, s, b, p);
    var met := Met(h, t, id, s, b, p);
    forall c | c in met + {b} ensures c in Buckets(h, t, id, s) { }
    SubsetSize(met + {b}, Buckets(h, t, id, s));
  }

  lemma {:induction false} NewScannedAll(h: Hashes, info: Infos, t: Table, left: map<int, int>)
    requires Shaped(t, NEW_BUCKET_COUNT) && NewScanned(h, info, t, left, NEW_BUCKET_COUNT, 0)
    ensures NewOk(h, info, t)
    ensures left == map[] <==> RefsExact(h, info, t)
  {
    forall b, p | 0 <= b && Slot(t, b, p) != -1 ensures p >= 0 && NewHolderOk(h, info, t, b, p) {
      assert Before(b, p, NEW_BUCKET_COUNT, 0);
    }
    hide Met, Buckets;
    forall id | id in info && !info[id].inTried
      ensures Left(left, id) + |Buckets(h, t, id, info[id].service)| == info[id].refCount
    {
      MetAll(h, t, id, info[id].service);
    }
    if left != map[] {
      NoneLeft(left);
      var id :| id in left;
      assert Left(left, id) > 0;
    }
  }

  lemma {:induction false} NoneLeft(left: map<int, int>)
    requires left != map[]
    ensures exists id :: id in left
  {
    assert (forall id :: id !in left) ==> left == map[];
  }

  /** What a code of the loop over the new table says of one slot. */
  ghost predicate NewFault(h: Hashes, ix: Index, b: nat, p: nat, code: int) {
    var id := Slot(ix.newTable, b, p);
    && id != -1
    && (|| (&& code == -12
            && !(&& id in ix.info && !ix.info[id].inTried
                 && |Met(h, ix.newTable, id, ix.info[id].service, b, p)| < ix.info[id].refCount))
        || (code == -19 && id in ix.info && p != Position(h, true, b, ix.info[id].service)))
  }

  lemma {:induction false} NewKnown(h: Hashes, ix: Index, left: map<int, int>, b: nat, p: nat)
    requires NewScanned(h, ix.info, ix.newTable, left, b, p)
    ensures var id := Slot(ix.newTable, b, p);
            if id in left then id in ix.info else id != -1 ==> NewFault(h, ix, b, p, -12)
  {
  }

  method CheckNewTable(h: Hashes, ix: Index, news: map<int, int>) returns (code: int, left: map<int, int>)
    requires Shaped(ix.newTable, NEW_BUCKET_COUNT) && -1 !in ix.info && NewScanned(h, ix.info, ix.newTable, news, 0, 0)
    ensures code != 0 ==> !(NewOk(h, ix.info, ix.newTable) && RefsExact(h, ix.info, ix.newTable))
    ensures code == 0 ==> NewOk(h, ix.info, ix.newTable) && (left == map[] <==> RefsExact(h, ix.info, ix.newTable))
    ensures code != 0 ==> exists b: nat, p: nat :: NewFault(h, ix, b, p, code)
  {
    code, left := 0, news;
    hide NewScanned, NewOk, RefsExact;
    for n := 0 to NEW_BUCKET_COUNT
      invariant NewScanned(h, ix.info, ix.newTable, left, n, 0) && code == 0
    {
      for i := 0 to BUCKET_SIZE
        invariant NewScanned(h, ix.info, ix.newTable, left, n, i) && code == 0
      {
        var id := ix.newTable[n][i];
        assert id == Slot(ix.newTable, n, i);
        if id != -1 {
          NewHolderNeeded(h, ix.info, ix.newTable, n, i);
          NewKnown(h, ix, left, n, i);
          if id !in left {
            if NewHolderOk(h, ix.info, ix.newTable, n, i) { NewScannedExcess(h, ix.info, ix.newTable, left, n, i); }
            assert NewFault(h, ix, n, i, -12);
            return -12, left;
          }
          if id !in ix.info || Position(h, true, n, ix.info[id].service) != i {
            assert NewFault(h, ix, n, i, -19);
            return -19, left;
          }
          NewScannedMeet(h, ix.info, ix.newTable, left, n, i);
          left := MeetOnce(left, id);
        } else {
          NewScannedSkip(h, ix.info, ix.newTable, left, n, i);
        }
      }
      NewScannedRow(h, ix.info, ix.newTable, left, n);
    }
    NewScannedAll(h, ix.info, ix.newTable, left);
  }

  lemma {:induction false} NewHolderNeeded(h: Hashes, info: Infos, t: Table, b: nat, p: nat)
    ensures NewOk(h, info, t) ==> NewHolderOk(h, info, t, b, p)
  {
  }

  // ----- The whole check -----

  ghost predicate NetworksExact(h: Hashes, ix: Index) {
    && |Networks(h, ix.info)| <= |ix.counters.nets|
    && forall net :: net in ix.counters.nets ==> NetworkExact(h, ix, net)
  }

  ghost predicate NetworkExact(h: Hashes, ix: Index, net: nat)
    requires net in ix.counters.nets
  {
    && ix.counters.nets[net].nNew == |IdsOfKind(h, ix.info, {}, New(net))|
    && ix.counters.nets[net].nTried == |IdsOfKind(h, ix.info, {}, Tried(net))|
  }

  ghost predicate NetworkFault(h: Hashes, ix: Index, code: int) {
    || (code == -20 && |ix.counters.nets| < |Networks(h, ix.info)|)
    || (code == -21 && exists net :: net in ix.counters.nets && !NetworkExact(h, ix, net))
  }

  method CheckNetworks(h: Hashes, ix: Index, local: map<nat, NewTriedCount>, ghost nNew: nat, ghost nTried: nat)
    returns (code: int)
    requires CountersOk(h, ix.info, {}, Counters(nNew, nTried, local)) && local.Keys == Networks(h, ix.info)
    ensures code == 0 <==> NetworksExact(h, ix)
    ensures code != 0 ==> NetworkFault(h, ix, code)
  {
    assert |local| == |local.Keys|;
    if |ix.counters.nets| < |local| {
      return -20;
    }
    var todo := ix.counters.nets.Keys;
    while todo != {}
      invariant todo <= ix.counters.nets.Keys
      invariant forall net :: net in ix.counters.nets && net !in todo ==> NetworkExact(h, ix, net)
      decreases |todo|
    {
      var net :| net in todo;
      LocalCount(h, ix.info, nNew, nTried, local, net);
      var count := ix.counters.nets[net];
      if NetCount(local, net).nNew != count.nNew || NetCount(local, net).nTried != count.nTried {
        return -21;
      }
      todo := todo - {net};
    }
    code := 0;
  }

  lemma {:induction false} LocalCount(h: Hashes, info: Infos, nNew: nat, nTried: nat, local: map<nat, NewTriedCount>,
                                      net: nat)
    requires CountersOk(h, info, {}, Counters(nNew, nTried, local))
    ensures NetCount(local, net).nNew == |IdsOfKind(h, info, {}, New(net))|
    ensures NetCount(local, net).nTried == |IdsOfKind(h, info, {}, Tried(net))|
  {
  }

  /** What each code says of the manager. */
  ghost predicate Fault(h: Hashes, ix: Index, code: int) {
    || (code == -7 && |ix.rnd| != ix.counters.nTried + ix.counters.nNew)
    || (exists id :: id in ix.info && EntryFault(ix, id, code))
    || (code == -9 && |TriedIds(h, ix.info, {})| != ix.counters.nTried)
    || (code == -10 && |NewIds(h, ix.info, {})| != ix.counters.nNew)
    || (exists b: nat, p: nat :: TriedFault(h, ix, b, p, code))
    || (exists b: nat, p: nat :: NewFault(h, ix, b, p, code))
    || (code == -13 && !TriedOk(h, ix.info, ix.triedTable))
    || (code == -15 && !RefsExact(h, ix.info, ix.newTable))
    || (code == -16 && h.nKey == 0)
    || NetworkFault(h, ix, code)
  }

  /** Zero exactly when every clause holds; otherwise a clause that the code names does not. */
  method CheckAddrman(h: Hashes, ix: Index, order: seq<int>) returns (code: int)
    requires Walk(order, ix.info) && -1 !in ix.info
    requires Shaped(ix.newTable, NEW_BUCKET_COUNT) && Shaped(ix.triedTable, TRIED_BUCKET_COUNT)
    ensures code == 0 <==> Passes(h, ix)
    ensures code != 0 ==> Fault(h, ix, code)
  {
    hide Tallied, NewScanned, NewOk, TriedOk, RefsExact, NetworksExact, CountersOk, EntryPasses;
    hide EntryFault, TriedFault, NewFault, NetworkFault;
    if |ix.rnd| != ix.counters.nTried + ix.counters.nNew {
      return -7;
    }
    var tried, news, local;
    code, tried, news, local := CheckEntries(h, ix, order);
    if code != 0 {
      return;
    }
    TalliedAll(h, ix.info, order, tried, news, local);
    assert |news| == |news.Keys|;
    if |tried| != ix.counters.nTried { return -9; }
    if |news| != ix.counters.nNew { return -10; }
    TriedHoldersNeeded(h, ix.info, ix.triedTable);
    var leftTried, leftNew;
    code, leftTried := CheckTriedTable(h, ix, tried);
    if code != 0 {
      return;
    }
    NewScannedNone(h, ix, news);
    code, leftNew := CheckNewTable(h, ix, news);
    if code != 0 {
      return;
    }
    if leftTried != {} { return -13; }
    if leftNew != map[] { return -15; }
    if h.nKey == 0 { return -16; }
    code := CheckNetworks(h, ix, local, |news|, |tried|);
  }

  lemma {:induction false} TriedHoldersNeeded(h: Hashes, info: Infos, t: Table)
    ensures TriedOk(h, info, t) ==> TriedHoldersOk(h, info, t)
  {
  }

  // ----- What the check leaves open -----

  /** Ids are in range, and every address in the map leads to its entry. */
  ghost predicate AddrSound(info: Infos, addr: map<Service, int>, idCount: int) {
    && idCount >= 0 && (forall id :: id in info ==> 0 <= id < idCount)
    && (forall s :: s in addr ==> addr[s] in info && info[addr[s]].service == s)
  }

  lemma {:induction false} SameSet(a: set<int>, b: set<int>)
    requires a <= b && |b| <= |a|
    ensures a == b
  {
    if b - a != {} {
      HasElement(b - a);
      var x :| x in b - a;
      SubsetSize(a, b - {x});
    } else {
      assert a == b;
    }
  }

  lemma {:induction false} DistinctBySize(s: seq<int>)
    requires |SetOf(s)| >= |s|
    ensures Distinct(s)
  {
    if s != [] {
      var n := |s| - 1;
      assert s == s[..n] + [s[n]];
      assert SetOf(s) == SetOf(s[..n]) + {s[n]};
      SetSize(s[..n]);
      DistinctBySize(s[..n]);
      assert s[n] !in SetOf(s[..n]);
      forall i | 0 <= i < n ensures s[i] != s[n] { assert s[..n][i] in SetOf(s[..n]); }
    }
  }

  lemma {:induction false} SetSize(s: seq<int>)
    ensures |SetOf(s)| <= |s|
  {
    if s != [] {
      var n := |s| - 1;
      SetSize(s[..n]);
      assert s == s[..n] + [s[n]];
      assert SetOf(s) == SetOf(s[..n]) + {s[n]};
    }
  }

  /** As many positions as entries, each entry at its own: then every position is an entry's. */
  lemma {:induction false} RandomByCount(info: Infos, rnd: seq<int>)
    requires |rnd| == |info.Keys|
    requires forall id :: id in info ==> 0 <= info[id].randomPos < |rnd| && rnd[info[id].randomPos] == id
    ensures RandomOk(info, rnd)
  {
    forall id | id in info ensures id in SetOf(rnd) { assert rnd[info[id].randomPos] in rnd; }
    SetSize(rnd);
    SubsetSize(info.Keys, SetOf(rnd));
    SameSet(info.Keys, SetOf(rnd));
    DistinctBySize(rnd);
    forall i | 0 <= i < |rnd| ensures rnd[i] in info && info[rnd[i]].randomPos == i {
      assert rnd[i] in SetOf(rnd);
    }
  }

  lemma {:induction false} TriedHasNoBucket(h: Hashes, info: Infos, t: Table, id: int)
    requires NewOk(h, info, t) && id in info && info[id].inTried && id != -1
    ensures Buckets(h, t, id, info[id].service) == {}
  {
  }

  lemma {:induction false} RefsByPassing(h: Hashes, ix: Index)
    requires NewOk(h, ix.info, ix.newTable) && RefsExact(h, ix.info, ix.newTable) && -1 !in ix.info
    requires forall id :: id in ix.info ==> EntryPasses(ix, id)
    ensures RefsOk(h, ix.info, ix.newTable, {}) && TimesOk(ix.info)
  {
    forall id | id in ix.info && ix.info[id].inTried ensures |Buckets(h, ix.newTable, id, ix.info[id].service)| == 0 {
      TriedHasNoBucket(h, ix.info, ix.newTable, id);
    }
    hide Buckets, NewOk;
    forall id | id in ix.info ensures TimesFine(ix.info[id]) { assert EntryPasses(ix, id); }
  }

  lemma {:induction false} CountersByPassing(h: Hashes, ix: Index)
    requires NetworksExact(h, ix) && Networks(h, ix.info) <= ix.counters.nets.Keys
    requires |TriedIds(h, ix.info, {})| == ix.counters.nTried && |NewIds(h, ix.info, {})| == ix.counters.nNew
    ensures CountersOk(h, ix.info, {}, ix.counters)
  {
    forall net
      ensures NetCount(ix.counters.nets, net).nNew == |IdsOfKind(h, ix.info, {}, New(net))|
      ensures NetCount(ix.counters.nets, net).nTried == |IdsOfKind(h, ix.info, {}, Tried(net))|
    {
      if net in ix.counters.nets {
        assert NetworkExact(h, ix, net);
      } else {
        assert net !in Networks(h, ix.info);
        assert IdsOfKind(h, ix.info, {}, New(net)) == {} && IdsOfKind(h, ix.info, {}, Tried(net)) == {};
      }
    }
  }

  lemma {:induction false} OkAddrSound(h: Hashes, ix: Index)
    requires Ok(h, ix, {}, {})
    ensures AddrSound(ix.info, ix.addr, ix.idCount)
  {
    hide RandomOk, NewOk, RefsOk, TriedOk, CountersOk, TimesOk;
  }

  /** With a key, passing the check is being consistent, up to stale addresses, ids out of range and uncounted
      networks, which no operation and no file produces. */
  lemma {:induction false} PassingIsConsistent(h: Hashes, ix: Index)
    ensures Ok(h, ix, {}, {}) && h.nKey != 0 <==>
            Passes(h, ix) && AddrSound(ix.info, ix.addr, ix.idCount) && Networks(h, ix.info) <= ix.counters.nets.Keys
  {
    if Ok(h, ix, {}, {}) && h.nKey != 0 {
      OkPasses(h, ix);
      OkAddrSound(h, ix);
      NetworksWithin(h, ix.info, ix.counters);
    }
    if Passes(h, ix) && AddrSound(ix.info, ix.addr, ix.idCount) && Networks(h, ix.info) <= ix.counters.nets.Keys {
      ConsistentByPassing(h, ix);
    }
  }

  lemma {:induction false} ConsistentByPassing(h: Hashes, ix: Index)
    requires Passes(h, ix) && AddrSound(ix.info, ix.addr, ix.idCount) && Networks(h, ix.info) <= ix.counters.nets.Keys
    ensures Ok(h, ix, {}, {})
  {
    KeysSplit(h, ix.info);
    hide NewOk, TriedOk, RefsExact, NetworksExact, CountersOk;
    forall id | id in ix.info ensures 0 <= ix.info[id].randomPos < |ix.rnd| && ix.rnd[ix.info[id].randomPos] == id {
      assert EntryPasses(ix, id);
    }
    RandomByCount(ix.info, ix.rnd);
    RefsByPassing(h, ix);
    CountersByPassing(h, ix);
    forall id | id in ix.info ensures ix.info[id].service in ix.addr && ix.addr[ix.info[id].service] == id {
      assert EntryPasses(ix, id);
    }
    hide RefsOk, RandomOk, TimesOk;
  }

  /** A stale address, which no operation and no file leaves behind, would not be noticed. */
  lemma {:induction false} StaleAddressPasses(h: Hashes, s: Service)
    requires h.nKey != 0
    ensures var ix := Blank().(addr := map[s := 7]);
            Passes(h, ix) && !Ok(h, ix, {}, {})
  {
    var ix := Blank().(addr := map[s := 7]);
    BlankOk(h);
    OkPasses(h, Blank());
    assert s in ix.addr && ix.addr[s] !in ix.info;
    hide Ok;
    PassesWithoutEntries(h, ix, Blank());
    PassingIsConsistent(h, ix);
  }

  lemma {:induction false} PassesWithoutEntries(h: Hashes, ix: Index, blank: Index)
    requires Passes(h, blank) && blank.info == map[] && ix == blank.(addr := ix.addr)
    ensures Passes(h, ix)
  {
    assert NetworksExact(h, blank);
    forall net | net in ix.counters.nets ensures NetworkExact(h, ix, net) { assert NetworkExact(h, blank, net); }
  }
}
