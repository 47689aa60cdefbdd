/** The address manager of src/addrman.cpp. */
module AddrMan {
  import opened AddrIndex

  const SET_TRIED_COLLISION_SIZE := 10

  // Durations, in seconds.
  const HORIZON := 30 * 24 * 3600
  const RETRIES := 3
  const MAX_FAILURES := 10
  const MIN_FAIL := 7 * 24 * 3600
  const REPLACEMENT := 4 * 3600
  const TEST_WINDOW := 40 * 60

  datatype Address = Address(service: Service, time: int, services: set<nat>)

  /** Whether the statistics are bad enough to drop the entry. */
  predicate IsTerrible(x: AddrInfo, now: int) {
    if now - x.lastTry <= 60 then false
    else if x.time > now + 10 * 60 then true
    else if now - x.time > HORIZON then true
    else if x.lastSuccess == 0 && x.attempts >= RETRIES then true
    else now - x.lastSuccess > MIN_FAIL && x.attempts >= MAX_FAILURES
  }

  /** Left alone for a minute, and not worth keeping: from the future, unseen for thirty days, three failures and no
      success ever, or ten failures since a success over a week ago. */
  ghost predicate Terrible(x: AddrInfo, now: int) {
    && x.lastTry + 60 < now
    && (|| now + 600 < x.time || x.time + 2592000 < now
        || (x.attempts >= 3 && x.lastSuccess == 0) || (x.attempts >= 10 && x.lastSuccess + 604800 < now))
  }

  lemma {:induction false} TerribleIs(x: AddrInfo, now: int)
    ensures IsTerrible(x, now) <==> Terrible(x, now)
  {
  }

  class AddrManImpl {
    const h: Hashes
    var idCount: int
    var mapInfo: Infos
    var mapAddr: map<Service, int>
    var vRandom: seq<int>
    var nTried: nat
    var vvTried: Table
    var nNew: nat
    var vvNew: Table
    var lastGood: int
    var triedCollisions: set<int>
    var networkCounts: map<nat, NewTriedCount>

    ghost function Ix(): Index
      reads this
    {
      Index(idCount, mapInfo, mapAddr, vRandom, vvNew, vvTried, Counters(nNew, nTried, networkCounts))
    }

    /** The tables, inside an operation. */
    ghost predicate Consistent(floating: set<int>, detached: set<int>)
      reads this
    {
      Ok(h, Ix(), floating, detached)
    }

    /** Between operations. */
    ghost predicate Valid()
      reads this
    {
      Consistent({}, {}) && CollisionsOk(h, Ix(), triedCollisions)
    }

    constructor (h: Hashes)
      ensures Valid() && this.h == h
      ensures Ix() == Blank() && triedCollisions == {} && lastGood == 1
    {
      this.h := h;
      idCount, mapInfo, mapAddr, vRandom := 0, map[], map[], [];
      nTried, vvTried, nNew, vvNew := 0, EmptyTable(TRIED_BUCKET_COUNT), 0, EmptyTable(NEW_BUCKET_COUNT);
      lastGood, triedCollisions, networkCounts := 1, {}, map[];
      new;
      BlankOk(h);
    }

    method SwapRandom(i: nat, j: nat, ghost fl: set<int>, ghost det: set<int>)
      requires Consistent(fl, det)
      requires i < |vRandom| && j < |vRandom|
      modifies this`mapInfo, this`vRandom
      ensures Consistent(fl, det)
      ensures Content(mapInfo) == old(Content(mapInfo))
      ensures vRandom == old(vRandom)[i := old(vRandom)[j]][j := old(vRandom)[i]]
    {
      hide Ok, Content;
      if i == j { return; }
      SwapOk(h, Ix(), fl, det, i, j);
      var id1, id2 := vRandom[i], vRandom[j];
      SwapContent(mapInfo, id1, id2, i, j);
      mapInfo := mapInfo[id1 := mapInfo[id1].(randomPos := j)][id2 := mapInfo[id2].(randomPos := i)];
      vRandom := vRandom[i := id2][j := id1];
    }

    method Delete(id: int, ghost fl: set<int>, ghost det: set<int>)
      requires Consistent(fl, det) && id !in det
      requires id in mapInfo && !mapInfo[id].inTried && mapInfo[id].refCount == 0
      modifies this`mapInfo, this`mapAddr, this`vRandom, this`nNew, this`networkCounts
      ensures Consistent(fl - {id}, det)
      ensures Content(mapInfo) == old(Content(mapInfo)) - {id}
    {
      hide Ok, Content;
      OkPosition(h, Ix(), fl, det, id);
      ghost var before := mapInfo;
      SwapRandom(mapInfo[id].randomPos, |vRandom| - 1, fl, det);
      SameContent(before, mapInfo, id);
      OkPosition(h, Ix(), fl, det, id);
      OkRandom(h, Ix(), fl, det, |vRandom| - 1);
      ghost var ix := Ix();
      DeleteOk(h, ix, fl, det, id);
      DeleteContent(mapInfo, id);
      var service := mapInfo[id].service;
      var net := h.network(service);
      var count := NetCount(networkCounts, net);
      UncountIs(ix.counters, net);
      networkCounts, nNew := networkCounts[net := count.(nNew := count.nNew - 1)], nNew - 1;
      vRandom, mapAddr, mapInfo := vRandom[..|vRandom| - 1], mapAddr - {service}, mapInfo - {id};
      assert Ix() == ix.(info := ix.info - {id}, addr := ix.addr - {service}, rnd := ix.rnd[..|ix.rnd| - 1],
                         counters := Uncount(ix.counters, New(net)));
    }

    /** Empties a slot of the new table, deleting the entry if that was its last reference. */
    method ClearNew(b: nat, p: nat, ghost fl: set<int>, ghost det: set<int>)
      requires Consistent(fl, det) && b < NEW_BUCKET_COUNT && p < BUCKET_SIZE
      requires Slot(vvNew, b, p) !in det && -1 !in det
      modifies this`mapInfo, this`mapAddr, this`vRandom, this`nNew, this`networkCounts, this`vvNew
      ensures Consistent(fl, det)
      ensures vvNew == SetSlot(old(vvNew), b, p, -1)
      ensures Content(mapInfo) == Unreferenced(old(Content(mapInfo)), Slot(old(vvNew), b, p))
    {
      hide Ok, Content;
      var id := Slot(vvNew, b, p);
      if id == -1 {
        ClearEmpty(h, Ix(), fl, det, b, p);
        return;
      }
      OkReference(h, Ix(), fl, det, b, p);
      DropRefOk(h, Ix(), fl, det, b, p);
      ContentAt(mapInfo, id);
      var x := mapInfo[id].(refCount := mapInfo[id].refCount - 1);
      UpdateContent(mapInfo, id, x);
      mapInfo, vvNew := mapInfo[id := x], SetSlot(vvNew, b, p, -1);
      if x.refCount == 0 {
        Delete(id, fl + {id}, det);
        FloatMore(h, Ix(), fl + {id} - {id}, fl, det);
      } else {
        Unfloat(h, Ix(), fl, det, id);
      }
    }

    /** The first loop of MakeTried: takes an entry out of every new bucket. */
    method RemoveFromNew(id: int)
      requires Consistent({}, {}) && id in mapInfo && !mapInfo[id].inTried
      modifies this`mapInfo, this`vvNew
      ensures Consistent({id}, {})
      ensures mapInfo == old(mapInfo)[id := old(mapInfo)[id].(refCount := 0)]
      ensures Erased(old(vvNew), vvNew, id)
    {
      hide Ok, Content;
      OkEntry(h, Ix(), {}, {}, id);
      FloatMore(h, Ix(), {}, {id}, {});
      var s := mapInfo[id].service;
      var start := NewBucket(h, s, mapInfo[id].source);
      var n := 0;
      while n < NEW_BUCKET_COUNT && mapInfo[id].refCount != 0
        invariant 0 <= n <= NEW_BUCKET_COUNT
        invariant Consistent({id}, {}) && id in mapInfo
        invariant mapInfo == old(mapInfo)[id := old(mapInfo)[id].(refCount := mapInfo[id].refCount)]
        invariant PartlyErased(old(vvNew), vvNew, id)
        invariant forall m :: 0 <= m < n ==> !HoldsAt(h, Ix(), id, Wrap(start, m))
      {
        var b := Wrap(start, n);
        var p := Position(h, true, b, s);
        if Slot(vvNew, b, p) == id {
          RemoveReference(id, b, p);
        }
        n := n + 1;
      }
      if n == NEW_BUCKET_COUNT { WalkedAll(h, Ix(), {id}, {}, id, start); }
      assert mapInfo[id].refCount == 0;  // the assertion after the source's loop
      EraseDone(h, Ix(), {id}, {}, old(vvNew), id);
    }

    method RemoveReference(id: int, b: nat, p: nat)
      requires Consistent({id}, {}) && b < NEW_BUCKET_COUNT && p < BUCKET_SIZE && Slot(vvNew, b, p) == id
      requires id in mapInfo
      modifies this`mapInfo, this`vvNew
      ensures Consistent({id}, {})
      ensures mapInfo == old(mapInfo)[id := old(mapInfo)[id].(refCount := old(mapInfo)[id].refCount - 1)]
      ensures vvNew == SetSlot(old(vvNew), b, p, -1)
    {
      hide Ok, Content;
      ShapedNew(h, Ix(), {id}, {});
      DropRefOk(h, Ix(), {id}, {}, b, p);
      assert {id} + {id} == {id};
      mapInfo, vvNew := mapInfo[id := mapInfo[id].(refCount := mapInfo[id].refCount - 1)], SetSlot(vvNew, b, p, -1);
    }

    /** Moves the tried entry in a slot back to the new table, deleting whatever is there. */
    method EvictTried(b: nat, p: nat, ghost id: int)
      requires Consistent({id}, {id}) && id in mapInfo && mapInfo[id].refCount == 0 && !mapInfo[id].inTried
      requires Slot(vvTried, b, p) != -1
      modifies this`mapInfo, this`mapAddr, this`vRandom, this`nNew, this`nTried, this`networkCounts
      modifies this`vvNew, this`vvTried
      ensures Consistent({id}, {id})
      ensures vvTried == SetSlot(old(vvTried), b, p, -1)
      ensures EvictedFrom(h, old(Ix()), Ix(), id, Slot(old(vvTried), b, p))
    {
      hide Ok;
      var evicted := Slot(vvTried, b, p);
      ghost var ix0 := Ix();
      OkTriedSlot(h, ix0, {id}, {id}, b, p);
      ContentAt(mapInfo, evicted);
      LeaveTried(evicted, b, p, id);
      var x := mapInfo[evicted];
      var b' := NewBucket(h, x.service, x.source);
      var p' := Position(h, true, b', x.service);
      ReenterNew(evicted, b', p', id);
    }

    method LeaveTried(evicted: int, b: nat, p: nat, ghost id: int)
      requires Consistent({id}, {id}) && id != evicted
      requires evicted in mapInfo && mapInfo[evicted].inTried
      requires b == TriedBucket(h, mapInfo[evicted].service) && p == Position(h, false, b, mapInfo[evicted].service)
      modifies this`mapInfo, this`vvTried, this`nTried, this`networkCounts
      ensures Consistent({id, evicted}, {id, evicted})
      ensures mapInfo == old(mapInfo)[evicted := old(mapInfo)[evicted].(inTried := false)]
      ensures vvTried == SetSlot(old(vvTried), b, p, -1)
    {
      hide Ok, Content;
      ghost var ix := Ix();
      UntryOk(h, ix, {id}, {id}, evicted);
      var net := h.network(mapInfo[evicted].service);
      var count := NetCount(networkCounts, net);
      UncountIs(ix.counters, net);
      mapInfo, vvTried := mapInfo[evicted := mapInfo[evicted].(inTried := false)], SetSlot(vvTried, b, p, -1);
      nTried, networkCounts := nTried - 1, networkCounts[net := count.(nTried := count.nTried - 1)];
      assert {id} + {evicted} == {id, evicted};
      assert Ix() == ix.(info := ix.info[evicted := ix.info[evicted].(inTried := false)],
                         triedTable := SetSlot(ix.triedTable, b, p, -1),
                         counters := Uncount(ix.counters, Tried(net)));
    }

    method ReenterNew(evicted: int, b: nat, p: nat, ghost id: int)
      requires Consistent({id, evicted}, {id, evicted}) && id != evicted
      requires id in mapInfo && mapInfo[id].refCount == 0
      requires evicted in mapInfo && mapInfo[evicted].refCount == 0 && !mapInfo[evicted].inTried
      requires b < NEW_BUCKET_COUNT && p == Position(h, true, b, mapInfo[evicted].service)
      modifies this`mapInfo, this`mapAddr, this`vRandom, this`nNew, this`networkCounts, this`vvNew
      ensures Consistent({id}, {id})
      ensures vvNew == SetSlot(old(vvNew), b, p, evicted)
      ensures evicted in old(Content(mapInfo))
      ensures Content(mapInfo) == Unreferenced(old(Content(mapInfo)), Slot(old(vvNew), b, p))
                                  [evicted := old(Content(mapInfo))[evicted].(refCount := 1)]
    {
      hide Ok, Content;
      ghost var both := {id, evicted};
      NotReferred(h, Ix(), both, both, b, p, id);
      NotReferred(h, Ix(), both, both, b, p, evicted);
      ShapedNew(h, Ix(), both, both);
      ContentAt(mapInfo, evicted);
      ghost var before := mapInfo;
      ClearNew(b, p, both, both);
      SetSlotIs(old(vvNew), NEW_BUCKET_COUNT, b, p, -1);
      KeptContent(before, mapInfo, Slot(old(vvNew), b, p), evicted);
      AddRefOk(h, Ix(), both, both, b, p, evicted);
      var x := mapInfo[evicted].(refCount := 1);
      UpdateContent(mapInfo, evicted, x);
      SetSlotTwice(old(vvNew), b, p, evicted);
      mapInfo, vvNew := mapInfo[evicted := x], SetSlot(vvNew, b, p, evicted);
      ghost var ix := Ix();
      var net := h.network(x.service);
      var count := NetCount(networkCounts, net);
      AttachOk(h, ix, both - {evicted}, both, evicted);
      CountIs(ix.counters, net);
      nNew, networkCounts := nNew + 1, networkCounts[net := count.(nNew := count.nNew + 1)];
      assert both - {evicted} == {id};
      assert Ix() == ix.(counters := Count(ix.counters, New(net)));
    }

    /** Moves an entry from the new table to its slot of the tried table. */
    method MakeTried(id: int)
      requires Consistent({}, {}) && id in mapInfo && !mapInfo[id].inTried && mapInfo[id].lastSuccess != 0
      modifies this`mapInfo, this`mapAddr, this`vRandom, this`nNew, this`nTried, this`networkCounts
      modifies this`vvNew, this`vvTried
      ensures Consistent({}, {})
      ensures MadeTried(h, old(Ix()), Ix(), id)
    {
      hide Ok, Content;
      ghost var ix0 := Ix();
      var s := mapInfo[id].service;
      ContentAt(mapInfo, id);
      RemoveFromNew(id);
      LeaveNewCount(id);
      ghost var mid := Ix();
      var b := TriedBucket(h, s);
      var p := Position(h, false, b, s);
      if Slot(vvTried, b, p) != -1 {
        OkTriedSlot(h, Ix(), {id}, {id}, b, p);
        EvictTried(b, p, id);
        ghost var ev := Ix();
        EvictionKeeps(h, mid, ev, id, b, p);
        ClearedSlot(h, ev, {id}, {id}, mid.triedTable, b, p);
        EnterTried(id, b, p);
        MadeTriedEvicting(h, ix0, mid, ev, Ix(), id);
      } else {
        EnterTried(id, b, p);
        MadeTriedAlone(h, ix0, mid, Ix(), id);
      }
    }

    /** The entry is no longer counted as new. */
    method LeaveNewCount(id: int)
      requires Consistent({id}, {}) && id in mapInfo && !mapInfo[id].inTried
      modifies this`nNew, this`networkCounts
      ensures Consistent({id}, {id})
    {
      hide Ok, Content;
      ghost var ix := Ix();
      var net := h.network(mapInfo[id].service);
      var count := NetCount(networkCounts, net);
      DetachOk(h, ix, {id}, {}, id);
      UncountIs(ix.counters, net);
      nNew, networkCounts := nNew - 1, networkCounts[net := count.(nNew := count.nNew - 1)];
      assert {} + {id} == {id};
      assert Ix() == ix.(counters := Uncount(ix.counters, New(net)));
    }

    method EnterTried(id: int, b: nat, p: nat)
      requires Consistent({id}, {id}) && id in mapInfo && !mapInfo[id].inTried
      requires mapInfo[id].refCount == 0 && mapInfo[id].lastSuccess != 0
      requires b == TriedBucket(h, mapInfo[id].service) && p == Position(h, false, b, mapInfo[id].service)
      requires Slot(vvTried, b, p) == -1
      modifies this`mapInfo, this`vvTried, this`nTried, this`networkCounts
      ensures Consistent({}, {})
      ensures mapInfo == old(mapInfo)[id := old(mapInfo)[id].(inTried := true)]
      ensures vvTried == SetSlot(old(vvTried), b, p, id)
    {
      hide Ok, Content;
      ghost var ix := Ix();
      var net := h.network(mapInfo[id].service);
      var count := NetCount(networkCounts, net);
      TryOk(h, ix, {id}, {id}, id);
      CountIs(ix.counters, net);
      mapInfo, vvTried := mapInfo[id := mapInfo[id].(inTried := true)], SetSlot(vvTried, b, p, id);
      nTried, networkCounts := nTried + 1, networkCounts[net := count.(nTried := count.nTried + 1)];
      assert {id} - {id} == {};
      assert Ix() == ix.(info := ix.info[id := ix.info[id].(inTried := true)],
                         triedTable := SetSlot(ix.triedTable, b, p, id),
                         counters := Count(ix.counters, Tried(net)));
    }

    // ----- Adding addresses -----

    /** Assigning the statistics of an entry in place: harmless exactly if the times make sense. */
    method UpdateStats(id: int, x: AddrInfo)
      requires Valid() && id in mapInfo
      requires x.service == mapInfo[id].service && x.refCount == mapInfo[id].refCount
      requires x.inTried == mapInfo[id].inTried && x.randomPos == mapInfo[id].randomPos
      modifies this`mapInfo
      ensures mapInfo == old(mapInfo)[id := x] && (Valid() <==> TimesFine(x))
      ensures Evolves(h, old(Ix()), Ix())
    {
      hide Ok, Content;
      ghost var ix := Ix();
      if TimesFine(x) { StatsOk(h, ix, {}, {}, id, x); } else { StatsWrong(h, ix.(info := ix.info[id := x]), id); }
      mapInfo := mapInfo[id := x];
      CollisionsEvolve(h, ix, Ix(), triedCollisions);
    }

    method Create(addr: Address, source: nat) returns (id: int)
      requires Consistent({}, {}) && addr.service !in mapAddr
      modifies this`idCount, this`mapInfo, this`mapAddr, this`vRandom, this`nNew, this`networkCounts
      ensures Consistent({id}, {})
      ensures id == old(idCount) && idCount == id + 1
      ensures mapInfo == old(mapInfo)[id := Fresh(addr, source, |old(vRandom)|)]
      ensures vRandom == old(vRandom) + [id]
    {
      hide Ok, Content;
      ghost var ix := Ix();
      id := idCount;
      var x := AddrInfo(addr.service, addr.time, addr.services, source, 0, 0, 0, 0, 0, false, |vRandom|);
      var net := h.network(addr.service);
      var count := NetCount(networkCounts, net);
      CreateOk(h, ix, {}, {}, x);
      CountIs(ix.counters, net);
      idCount, mapInfo, mapAddr := idCount + 1, mapInfo[id := x], mapAddr[addr.service := id];
      vRandom := vRandom + [id];
      nNew, networkCounts := nNew + 1, networkCounts[net := count.(nNew := count.nNew + 1)];
      assert {} + {id} == {id};
      assert Ix() == ix.(idCount := id + 1, info := ix.info[id := x], addr := ix.addr[x.service := id],
                         rnd := ix.rnd + [id], counters := Count(ix.counters, New(net)));
    }

    /** The last part of AddSingle: gives an entry a reference in a slot of the new table, if the slot
        is empty or its entry may be overwritten, and drops an entry that got none. */
    method PlaceNew(id: int, b: nat, p: nat, now: int) returns (inserted: bool)
      requires Consistent({id}, {}) && id in mapInfo && !mapInfo[id].inTried
      requires mapInfo[id].refCount < NEW_BUCKETS_PER_ADDRESS
      requires b < NEW_BUCKET_COUNT && p == Position(h, true, b, mapInfo[id].service)
      modifies this`mapInfo, this`mapAddr, this`vRandom, this`nNew, this`networkCounts, this`vvNew
      ensures Consistent({}, {})
      ensures inserted <==> MayInsert(old(mapInfo), Slot(old(vvNew), b, p), id, now)
      ensures id in old(Content(mapInfo))
      ensures var c := old(Content(mapInfo));
              if inserted then
                && vvNew == SetSlot(old(vvNew), b, p, id)
                && Content(mapInfo)
                   == Unreferenced(c, Slot(old(vvNew), b, p))[id := c[id].(refCount := c[id].refCount + 1)]
              else
                && vvNew == old(vvNew)
                && Content(mapInfo) == if c[id].refCount == 0 then c - {id} else c
    {
      hide Ok, Content;
      ContentAt(mapInfo, id);
      OkEntry(h, Ix(), {id}, {}, id);
      var existing := Slot(vvNew, b, p);
      inserted := existing == -1;
      if existing == id {
        OkReference(h, Ix(), {id}, {}, b, p);
        assert {} + {id} == {id};
        Unfloat(h, Ix(), {}, {}, id);
        return;
      }
      if !inserted {
        OkReference(h, Ix(), {id}, {}, b, p);
        TerribleIs(mapInfo[existing], now);
        inserted := IsTerrible(mapInfo[existing], now) || (mapInfo[existing].refCount > 1 && mapInfo[id].refCount == 0);
      }
      if inserted {
        InsertReference(id, b, p);
      } else if mapInfo[id].refCount == 0 {
        Delete(id, {id}, {});
        assert {id} - {id} == {};
      } else {
        assert {} + {id} == {id};
        Unfloat(h, Ix(), {}, {}, id);
      }
    }

    method InsertReference(id: int, b: nat, p: nat)
      requires Consistent({id}, {}) && id in mapInfo && !mapInfo[id].inTried
      requires mapInfo[id].refCount < NEW_BUCKETS_PER_ADDRESS && Slot(vvNew, b, p) != id
      requires b < NEW_BUCKET_COUNT && p == Position(h, true, b, mapInfo[id].service)
      modifies this`mapInfo, this`mapAddr, this`vRandom, this`nNew, this`networkCounts, this`vvNew
      ensures Consistent({}, {})
      ensures vvNew == SetSlot(old(vvNew), b, p, id)
      ensures id in old(Content(mapInfo))
      ensures var c := old(Content(mapInfo));
              Content(mapInfo) == Unreferenced(c, Slot(old(vvNew), b, p))[id := c[id].(refCount := c[id].refCount + 1)]
    {
      hide Ok, Content;
      ghost var before := mapInfo;
      ContentAt(mapInfo, id);
      ShapedNew(h, Ix(), {id}, {});
      ClearNew(b, p, {id}, {});
      SetSlotIs(old(vvNew), NEW_BUCKET_COUNT, b, p, -1);
      KeptContent(before, mapInfo, Slot(old(vvNew), b, p), id);
      AddRefOk(h, Ix(), {id}, {}, b, p, id);
      var x := mapInfo[id].(refCount := mapInfo[id].refCount + 1);
      UpdateContent(mapInfo, id, x);
      SetSlotTwice(old(vvNew), b, p, id);
      mapInfo, vvNew := mapInfo[id := x], SetSlot(vvNew, b, p, id);
      assert {id} - {id} == {};
    }

    /** Adds one address heard from `source`.  `lucky` is the outcome of the stochastic test. */
    method AddSingle(addr: Address, source: nat, timePenalty: int, now: int, lucky: bool) returns (added: bool)
      requires Valid()
      modifies this`idCount, this`mapInfo, this`mapAddr, this`vRandom, this`nNew, this`networkCounts, this`vvNew
      ensures Valid() && Evolves(h, old(Ix()), Ix())
      ensures AddStep(h, old(Ix()), Ix(), addr, source, timePenalty, now, lucky, added)
      ensures added ==> addr.service in mapAddr && HasSlot(addr.service, source)
      ensures added ==>
        var g := h.group(source);
        var b := h.newHash(g, h.sourceHash(h.group(addr.service.addr), g) % 64) % 1024;
        Slot(vvNew, b, h.posHash(true, b, addr.service) % 64) == mapAddr[addr.service]
      ensures addr.service in old(mapAddr) ==>
                addr.service in mapAddr && mapAddr[addr.service] == old(mapAddr)[addr.service]
      ensures addr.service !in old(mapAddr) && !added ==>
                Content(mapInfo) == old(Content(mapInfo)) && vvNew == old(vvNew)
      ensures forall j :: j in old(mapInfo) && j !in mapInfo ==>
                added && j == NewSlot(old(vvNew), addr.service, source) && old(mapInfo)[j].refCount == 1
    {
      hide Ok, Content;
      hide KnownStep;
      hide UnknownStep;
      if !h.routable(addr.service) { return false; }
      var penalty := timePenalty;
      if addr.service.addr == source { penalty := 0; }
      if addr.service in mapAddr {
        added := AddKnown(addr, source, penalty, now, lucky);
      } else {
        added := AddUnknown(addr, source, penalty, now);
      }
    }

    /** The reference in the slot of the new table that an address hashes to, for a source. */
    function NewSlot(t: Table, s: Service, source: nat): int {
      var b := NewBucket(h, s, source);
      Slot(t, b, Position(h, true, b, s))
    }

    predicate HasSlot(s: Service, source: nat)
      reads this
    {
      s in mapAddr && NewSlot(vvNew, s, source) == mapAddr[s]
    }

    method CreatePenalized(addr: Address, source: nat, penalty: int) returns (id: int)
      requires Consistent({}, {}) && addr.service !in mapAddr
      modifies this`idCount, this`mapInfo, this`mapAddr, this`vRandom, this`nNew, this`networkCounts
      ensures Consistent({id}, {})
      ensures id == old(idCount) && idCount == id + 1
      ensures mapInfo ==
              old(mapInfo)[id := Fresh(addr, source, |old(vRandom)|).(time := Penalized(addr.time, penalty))]
    {
      hide Ok, Content;
      id := Create(addr, source);
      var x := mapInfo[id].(time := if mapInfo[id].time - penalty > 0 then mapInfo[id].time - penalty else 0);
      StatsOk(h, Ix(), {id}, {}, id, x);
      mapInfo := mapInfo[id := x];
    }

    method AddUnknown(addr: Address, source: nat, penalty: int, now: int) returns (added: bool)
      requires Valid() && addr.service !in mapAddr && h.routable(addr.service)
      modifies this`idCount, this`mapInfo, this`mapAddr, this`vRandom, this`nNew, this`networkCounts, this`vvNew
      ensures Valid() && Evolves(h, old(Ix()), Ix())
      ensures UnknownStep(h, old(Ix()), Ix(), addr, source, penalty, now, added)
      ensures added ==> addr.service in mapAddr && HasSlot(addr.service, source)
      ensures !added ==> Content(mapInfo) == old(Content(mapInfo)) && vvNew == old(vvNew)
      ensures forall j :: j in old(mapInfo) && j !in mapInfo ==>
                added && j == NewSlot(old(vvNew), addr.service, source) && old(mapInfo)[j].refCount == 1
    {
      hide Ok, Content;
      ghost var ix0 := Ix();
      var id := CreatePenalized(addr, source, penalty);
      ghost var x := mapInfo[id];
      UpdateContent(ix0.info, id, x);
      var b := NewBucket(h, addr.service, source);
      var p := Position(h, true, b, addr.service);
      FreshNotReferred(h, ix0, b, p, id);
      MayInsertContent(mapInfo, Slot(vvNew, b, p), id, now);
      added := PlaceNew(id, b, p, now);
      AddedUnknown(h, ix0, Ix(), id, x, b, p, added);
      SlotAfterSet(h, ix0, b, p, id);
      CollisionsEvolve(h, ix0, Ix(), triedCollisions);
    }

    method AddKnown(addr: Address, source: nat, penalty: int, now: int, lucky: bool) returns (added: bool)
      requires Valid() && addr.service in mapAddr
      modifies this`mapInfo, this`mapAddr, this`vRandom, this`nNew, this`networkCounts, this`vvNew
      ensures Valid() && Evolves(h, old(Ix()), Ix())
      ensures KnownStep(h, old(Ix()), Ix(), addr, source, penalty, now, lucky, added)
      ensures added ==> HasSlot(addr.service, source)
      ensures addr.service in mapAddr && mapAddr[addr.service] == old(mapAddr)[addr.service]
      ensures forall j :: j in old(mapInfo) && j !in mapInfo ==>
                added && j == NewSlot(old(vvNew), addr.service, source) && old(mapInfo)[j].refCount == 1
    {
      hide Ok, Content, Refreshed;
      ghost var ix0 := Ix();
      var id := mapAddr[addr.service];
      RefreshedKeeps(mapInfo, id, addr, penalty, now);
      OkFind(h, ix0, {}, {}, addr.service);
      OkEntry(h, ix0, {}, {}, id);
      var x := Refresh(mapInfo[id], addr, penalty, now);
      UpdateStats(id, x);
      if addr.time <= x.time || x.inTried || x.refCount == NEW_BUCKETS_PER_ADDRESS || !lucky { return false; }
      ghost var ix1 := Ix();
      FloatMore(h, ix1, {}, {id}, {});
      var b := NewBucket(h, addr.service, source);
      var p := Position(h, true, b, addr.service);
      added := PlaceNew(id, b, p, now);
      AddedKnown(h, ix1, Ix(), id, b, p, added);
      SlotAfterSet(h, ix1, b, p, id);
      EvolvesTransitive(h, ix0, ix1, Ix());
      CollisionsEvolve(h, ix0, Ix(), triedCollisions);
    }

    /** Adds a list of addresses from one source; `states` are the tables before each and at the end. */
    method Add(addrs: seq<Address>, source: nat, timePenalty: int, now: int)
      returns (any: bool, ghost states: seq<Index>, ghost draws: seq<bool>, ghost outcomes: seq<bool>)
      requires Valid()
      modifies this`idCount, this`mapInfo, this`mapAddr, this`vRandom, this`nNew, this`networkCounts, this`vvNew
      ensures Valid() && Evolves(h, old(Ix()), Ix())
      ensures AddSteps(h, states, addrs, source, timePenalty, now, draws, outcomes)
      ensures states[0] == old(Ix()) && states[|addrs|] == Ix()
      ensures any <==> true in outcomes
    {
      hide Ok, Content;
      hide AddStep;
      any, states, draws, outcomes := false, [Ix()], [], [];
      for i := 0 to |addrs|
        invariant Valid() && Evolves(h, old(Ix()), Ix())
        invariant AddSteps(h, states, addrs[..i], source, timePenalty, now, draws, outcomes)
        invariant states[0] == old(Ix()) && states[i] == Ix()
        invariant any <==> true in outcomes
      {
        ghost var ix := Ix();
        var lucky: bool := *;
        var added := AddSingle(addrs[i], source, timePenalty, now, lucky);
        EvolvesTransitive(h, old(Ix()), ix, Ix());
        AddStepsNext(h, states, Ix(), addrs[..i], addrs[i], source, timePenalty, now, draws, outcomes, lucky, added);
        assert addrs[..i] + [addrs[i]] == addrs[..i + 1];
        any, states := any || added, states + [Ix()];
        draws, outcomes := draws + [lucky], outcomes + [added];
      }
      assert addrs[..|addrs|] == addrs;
    }

    // ----- Connections -----

    method Attempt(addr: Service, countFailure: bool, time: int)
      requires Valid()
      modifies this`mapInfo
      ensures Valid() <==> time >= 0 || addr !in mapAddr
      ensures Evolves(h, old(Ix()), Ix())
      ensures addr !in mapAddr ==> mapInfo == old(mapInfo)
      ensures addr in mapAddr ==>
                var id := mapAddr[addr];
                && id in old(mapInfo)
                && var x := old(mapInfo)[id];
                   var counts := countFailure && x.lastCountAttempt < lastGood;
                   mapInfo == old(mapInfo)[id := x.(lastTry := time,
                     lastCountAttempt := if counts then time else x.lastCountAttempt,
                     attempts := if counts then x.attempts + 1 else x.attempts)]
    {
      hide Ok, Content;
      if addr !in mapAddr { return; }
      var id := mapAddr[addr];
      OkFind(h, Ix(), {}, {}, addr);
      OkEntry(h, Ix(), {}, {}, id);
      var x := mapInfo[id].(lastTry := time);
      if countFailure && x.lastCountAttempt < lastGood {
        x := x.(lastCountAttempt := time, attempts := x.attempts + 1);
      }
      UpdateStats(id, x);
    }

    /** Records a good connection; moves the entry to the tried table unless that would evict another
        entry that has yet to be tested. */
    method Good(addr: Service, testBeforeEvict: bool, time: int) returns (moved: bool)
      requires Valid() && time > 0
      modifies this
      ensures Valid() && Evolves(h, old(Ix()), Ix())
      ensures lastGood == time
      ensures addr !in old(mapAddr) ==> !moved && Ix() == old(Ix()) && triedCollisions == old(triedCollisions)
      ensures addr in old(mapAddr) ==>
                && old(mapAddr)[addr] in old(mapInfo)
                && GoodStep(old(Ix()), old(triedCollisions), old(mapAddr)[addr], testBeforeEvict, time, moved)
      ensures moved ==>
        var b := h.triedHash(h.group(addr.addr), h.keyHash(addr) % 8) % 256;
        addr in old(mapAddr) && Slot(vvTried, b, h.posHash(false, b, addr) % 64) == old(mapAddr)[addr]
    {
      hide Ok, Content;
      lastGood := time;
      if addr !in mapAddr { return false; }
      var id := mapAddr[addr];
      ghost var ix0 := Ix();
      OkFind(h, ix0, {}, {}, addr);
      OkEntry(h, ix0, {}, {}, id);
      UpdateStats(id, mapInfo[id].(lastSuccess := time, lastTry := time, attempts := 0));
      if mapInfo[id].inTried { return false; }
      assert mapInfo[id].refCount > 0;
      var b := TriedBucket(h, addr);
      var p := Position(h, false, b, addr);
      ghost var ix1 := Ix();
      if testBeforeEvict && Slot(vvTried, b, p) != -1 {
        if |triedCollisions| < SET_TRIED_COLLISION_SIZE { triedCollisions := triedCollisions + {id}; }
        return false;
      }
      MakeTried(id);
      moved := true;
      SlotAfterTry(h, ix1, b, p, id);
      MadeTriedEvolves(h, ix1, Ix(), id);
      EvolvesTransitive(h, ix0, ix1, Ix());
      CollisionsEvolve(h, ix1, Ix(), triedCollisions);
    }

    /** The outcome of Good for a known entry. */
    ghost predicate GoodStep(ix: Index, collisions: set<int>, id: int, testBeforeEvict: bool, time: int, moved: bool)
      requires id in ix.info
      reads this
    {
      var x := ix.info[id];
      var ix1 := ix.(info := ix.info[id := Connected(x, time)]);
      var blocked := testBeforeEvict && TriedSlot(h, ix.triedTable, x.service) != -1;
      && (moved <==> !x.inTried && !blocked)
      && (moved ==> MadeTried(h, ix1, Ix(), id))
      && (!moved ==> Ix() == ix1)
      && triedCollisions == if !x.inTried && blocked && |collisions| < 10
                            then collisions + {id} else collisions
    }

    method ConnectedTo(addr: Service, time: int)
      requires Valid()
      modifies this`mapInfo
      ensures Valid() && Evolves(h, old(Ix()), Ix())
      ensures addr !in mapAddr ==> mapInfo == old(mapInfo)
      ensures addr in mapAddr ==>
                var id := mapAddr[addr];
                && id in old(mapInfo)
                && var x := old(mapInfo)[id];
                   mapInfo == old(mapInfo)[id := if time - x.time > 20 * 60 then x.(time := time) else x]
    {
      hide Ok, Content;
      if addr !in mapAddr { return; }
      var id := mapAddr[addr];
      OkFind(h, Ix(), {}, {}, addr);
      OkEntry(h, Ix(), {}, {}, id);
      if time - mapInfo[id].time > 20 * 60 { UpdateStats(id, mapInfo[id].(time := time)); }
    }

    method SetServices(addr: Service, services: set<nat>)
      requires Valid()
      modifies this`mapInfo
      ensures Valid() && Evolves(h, old(Ix()), Ix())
      ensures addr !in mapAddr ==> mapInfo == old(mapInfo)
      ensures addr in mapAddr ==>
                var id := mapAddr[addr];
                id in old(mapInfo) && mapInfo == old(mapInfo)[id := old(mapInfo)[id].(services := services)]
    {
      hide Ok, Content;
      if addr !in mapAddr { return; }
      var id := mapAddr[addr];
      OkFind(h, Ix(), {}, {}, addr);
      OkEntry(h, Ix(), {}, {}, id);
      UpdateStats(id, mapInfo[id].(services := services));
    }

    // ----- Tried collisions -----

    /** One pending collision: whether it is settled, and the move to the tried table that may take. */
    method ResolveOne(id: int, now: int) returns (erase: bool)
      requires Valid() && now > 0 && id in triedCollisions
      modifies this
      ensures Valid() && Evolves(h, old(Ix()), Ix())
      ensures triedCollisions == old(triedCollisions)
      ensures ResolveStep(h, old(Ix()), Ix(), id, now, erase)
    {
      hide Ok, Content;
      if id !in mapInfo { return true; }
      ghost var ix0 := Ix();
      OkEntry(h, ix0, {}, {}, id);
      var x := mapInfo[id];
      var b := TriedBucket(h, x.service);
      var p := Position(h, false, b, x.service);
      var older := Slot(vvTried, b, p);
      assert older != -1;  // so the branch for a collision that is no longer one is never taken
      OkTriedSlot(h, ix0, {}, {}, b, p);
      var y := mapInfo[older];
      erase := false;
      if !h.valid(x.service) {
        erase := true;
      } else if now - y.lastSuccess < REPLACEMENT {
        erase := true;
      } else if now - y.lastTry < REPLACEMENT {
        if now - y.lastTry > 60 {
          var moved := Good(x.service, false, now);
          erase := true;
        }
      } else if now - x.lastSuccess > TEST_WINDOW {
        var moved := Good(x.service, false, now);
        erase := true;
      }
    }

    /** Goes through all pending collisions, each once, reading the clock for each; `states` are the tables
        before each and at the end. */
    method ResolveCollisions()
      returns (ghost states: seq<Index>, ghost ids: seq<int>, ghost times: seq<int>, ghost settled: seq<bool>)
      requires Valid()
      modifies this
      ensures Valid() && Evolves(h, old(Ix()), Ix())
      ensures ResolveSteps(h, states, ids, times, settled)
      ensures states[0] == old(Ix()) && states[|ids|] == Ix()
      ensures Handled(old(triedCollisions), {}, triedCollisions, ids, settled)
    {
      hide Ok, Content;
      hide ResolveStep;
      var todo := triedCollisions;
      states, ids, times, settled := [Ix()], [], [], [];
      while todo != {}
        invariant Valid() && Evolves(h, old(Ix()), Ix())
        invariant ResolveSteps(h, states, ids, times, settled)
        invariant states[0] == old(Ix()) && states[|ids|] == Ix()
        invariant Handled(old(triedCollisions), todo, triedCollisions, ids, settled)
      {
        HasElement(todo);
        var id :| id in todo;
        var now: int :| now > 0;
        ghost var ix := Ix();
        var erase := ResolveOne(id, now);
        EvolvesTransitive(h, old(Ix()), ix, Ix());
        ResolveStepsNext(h, states, Ix(), ids, id, times, now, settled, erase);
        HandledNext(old(triedCollisions), todo, triedCollisions, ids, settled, id, erase);
        if erase { triedCollisions := triedCollisions - {id}; }
        todo := todo - {id};
        states, ids, times, settled := states + [Ix()], ids + [id], times + [now], settled + [erase];
      }
    }

    /** The tried entry that a pending collision waits for.  A stale id is dropped; a live one always
        finds a real entry, so nothing is ever entered under the id -1. */
    method SelectTriedCollision() returns (found: Option<AddrInfo>)
      requires Valid()
      modifies this`triedCollisions
      ensures Valid() && mapInfo == old(mapInfo)
      ensures found.None? <==> old(triedCollisions) == {} || triedCollisions != old(triedCollisions)
      ensures forall id :: id in old(triedCollisions) && id in mapInfo ==> id in triedCollisions
      ensures found.Some? ==>
                exists id :: id in triedCollisions && id in mapInfo
                             && TriedSlot(h, vvTried, mapInfo[id].service) in mapInfo
                             && found.value == mapInfo[TriedSlot(h, vvTried, mapInfo[id].service)]
    {
      hide Ok, Content;
      if triedCollisions == {} { return None; }
      HasElement(triedCollisions);
      var id :| id in triedCollisions;
      if id !in mapInfo {
        triedCollisions := triedCollisions - {id};
        return None;
      }
      var b := TriedBucket(h, mapInfo[id].service);
      var p := Position(h, false, b, mapInfo[id].service);
      OkEntry(h, Ix(), {}, {}, id);
      OkTriedSlot(h, Ix(), {}, {}, b, p);
      found := Some(mapInfo[Slot(vvTried, b, p)]);
    }

    // ----- Sampling -----

    /** A random sample without repetition: only eligible entries, at most `Limit` of them, and all
        eligible entries if fewer than that are returned. */
    method GetAddr(maxAddresses: nat, maxPct: nat, network: Option<nat>, filtered: bool, now: int)
      returns (addresses: seq<Address>, ghost ids: seq<int>)
      requires Valid()
      modifies this`mapInfo, this`vRandom
      ensures Valid() && Content(mapInfo) == old(Content(mapInfo)) && |vRandom| == |old(vRandom)|
      ensures |addresses| <= Limit(|vRandom|, maxAddresses, maxPct)
      ensures Sampled(mapInfo, addresses, ids) && Distinct(ids)
      ensures forall i :: 0 <= i < |ids| ==> Eligible(h, mapInfo[ids[i]], network, filtered, now)
      ensures |addresses| < Limit(|vRandom|, maxAddresses, maxPct) ==>
                forall id :: id in mapInfo && Eligible(h, mapInfo[id], network, filtered, now) ==> id in ids
    {
      hide Ok, Content;
      hide Sampled, Distinct, SampledPrefix, Limit;
      var nNodes := SampleSize(|vRandom|, maxAddresses, maxPct);
      SampleNone(h, mapInfo, network, filtered, now);
      addresses, ids := [], [];
      var n := 0;
      while n < |vRandom| && |addresses| < nNodes
        invariant 0 <= n <= |vRandom| && |addresses| <= nNodes && |vRandom| == |old(vRandom)|
        invariant Valid() && Content(mapInfo) == old(Content(mapInfo))
        invariant Sampled(mapInfo, addresses, ids)
        invariant SampledPrefix(h, mapInfo, vRandom[..n], ids, network, filtered, now)
        invariant Distinct(ids)
      {
        var r: int :| n <= r < |vRandom|;
        ghost var info, prefix := mapInfo, vRandom[..n];
        Shuffle(n, r);
        SampleKept(h, info, mapInfo, addresses, ids, prefix, network, filtered, now);
        OkRandom(h, Ix(), {}, {}, n);
        var id := vRandom[n];
        SampleNext(h, Ix(), n, addresses, ids, network, filtered, now);
        var x := mapInfo[id];
        TerribleIs(x, now);
        if (network.None? || h.netClass(x.service) == network.value) && !(IsTerrible(x, now) && filtered) {
          addresses, ids := addresses + [Address(x.service, x.time, x.services)], ids + [id];
        }
        n := n + 1;
      }
      SampleEligible(h, mapInfo, vRandom[..n], addresses, ids, network, filtered, now);
      if |addresses| < nNodes { WholeSample(h, Ix(), ids, network, filtered, now); }
    }

    method Shuffle(n: nat, r: nat)
      requires Valid() && n <= r < |vRandom|
      modifies this`mapInfo, this`vRandom
      ensures Valid() && Content(mapInfo) == old(Content(mapInfo))
      ensures |vRandom| == |old(vRandom)| && vRandom[..n] == old(vRandom)[..n]
    {
      hide Ok, Content;
      ghost var ix := Ix();
      SwapRandom(n, r, {}, {});
      EvolvesContent(h, ix, Ix());
      CollisionsEvolve(h, ix, Ix(), triedCollisions);
    }

    // ----- Whole runs -----

    method Apply(op: Op)
      requires Valid() && OpOk(op)
      modifies this
      ensures Valid() && Evolves(h, old(Ix()), Ix())
    {
      hide Ok, Content;
      match op {
        case AddAll(addrs, source, penalty, now) => var _, _, _, _ := Add(addrs, source, penalty, now);
        case MarkGood(addr, testBeforeEvict, time) => var _ := Good(addr, testBeforeEvict, time);
        case MarkAttempt(addr, countFailure, time) => Attempt(addr, countFailure, time);
        case MarkConnected(addr, time) => ConnectedTo(addr, time);
        case Services(addr, services) => SetServices(addr, services);
        case Resolve => var _, _, _, _ := ResolveCollisions();
        case SelectCollision => var _ := SelectTriedCollision();
        case Sample(maxAddresses, maxPct, network, filtered, now) =>
          ghost var ix := Ix();
          var _, _ := GetAddr(maxAddresses, maxPct, network, filtered, now);
          EvolvesContent(h, ix, Ix());
      }
    }

    /** From any valid manager, every run keeps the tables consistent, never reuses an id and never
        vacates a slot of the tried table. */
    method Run(ops: seq<Op>)
      requires Valid() && forall i :: 0 <= i < |ops| ==> OpOk(ops[i])
      modifies this
      ensures Valid() && Evolves(h, old(Ix()), Ix())
    {
      hide Ok, Content;
      for i := 0 to |ops|
        invariant Valid() && Evolves(h, old(Ix()), Ix())
      {
        ghost var ix := Ix();
        Apply(ops[i]);
        EvolvesTransitive(h, old(Ix()), ix, Ix());
      }
    }
  }

  datatype Op =
    | AddAll(addrs: seq<Address>, source: nat, penalty: int, now: int)
    | MarkGood(addr: Service, testBeforeEvict: bool, time: int)
    | MarkAttempt(addr: Service, countFailure: bool, time: int)
    | MarkConnected(addr: Service, time: int)
    | Services(addr: Service, services: set<nat>)
    | Resolve
    | SelectCollision
    | Sample(maxAddresses: nat, maxPct: nat, network: Option<nat>, filtered: bool, now: int)

  /** Callers pass real times: the consistency check rejects a tried entry with success time 0. */
  predicate OpOk(op: Op) {
    match op
    case MarkGood(_, _, time) => time > 0
    case MarkAttempt(_, _, time) => time >= 0
    case _ => true
  }

  method SampleSize(size: nat, maxAddresses: nat, maxPct: nat) returns (nNodes: nat)
    ensures nNodes == Limit(size, maxAddresses, maxPct)
  {
    nNodes := size;
    if maxPct != 0 { nNodes := maxPct * nNodes / 100; }
    if maxAddresses != 0 && maxAddresses < nNodes { nNodes := maxAddresses; }
  }

  /** How many addresses a sample may hold: of `size` the given percentage, and no more than the given number; zero
      stands for no limit. */
  ghost function Limit(size: nat, maxAddresses: nat, maxPct: nat): nat {
    var share := if maxPct == 0 then size else size * maxPct / 100;
    if maxAddresses == 0 || share <= maxAddresses then share else maxAddresses
  }

  /** Of the wanted network, if one is wanted, and not terrible, if that matters. */
  ghost predicate Eligible(h: Hashes, x: AddrInfo, network: Option<nat>, filtered: bool, now: int) {
    && (network.Some? ==> h.netClass(x.service) == network.value)
    && (filtered ==> !Terrible(x, now))
  }

  ghost predicate Sampled(info: Infos, addresses: seq<Address>, ids: seq<int>) {
    && |ids| == |addresses|
    && forall i :: 0 <= i < |ids| ==>
         && ids[i] in info
         && addresses[i] == Address(info[ids[i]].service, info[ids[i]].time, info[ids[i]].services)
  }

  /** The sample is the eligible part of a prefix of vRandom. */
  ghost predicate SampledPrefix(h: Hashes, info: Infos, prefix: seq<int>, ids: seq<int>,
                                network: Option<nat>, filtered: bool, now: int) {
    && (forall i :: 0 <= i < |ids| ==>
          ids[i] in prefix && ids[i] in info && Eligible(h, info[ids[i]], network, filtered, now))
    && (forall k :: 0 <= k < |prefix| ==>
          prefix[k] in info && (Eligible(h, info[prefix[k]], network, filtered, now) ==> prefix[k] in ids))
  }

  lemma SampleKept(h: Hashes, info: Infos, info': Infos, addresses: seq<Address>, ids: seq<int>, prefix: seq<int>,
                   network: Option<nat>, filtered: bool, now: int)
    requires Content(info) == Content(info')
    requires Sampled(info, addresses, ids) && SampledPrefix(h, info, prefix, ids, network, filtered, now)
    ensures Sampled(info', addresses, ids) && SampledPrefix(h, info', prefix, ids, network, filtered, now)
  {
    forall i | 0 <= i < |ids|
      ensures ids[i] in info' && info'[ids[i]] == info[ids[i]].(randomPos := info'[ids[i]].randomPos) {
      SameContent(info, info', ids[i]);
    }
    forall k | 0 <= k < |prefix|
      ensures prefix[k] in info' && info'[prefix[k]] == info[prefix[k]].(randomPos := info'[prefix[k]].randomPos)
    {
      SameContent(info, info', prefix[k]);
    }
  }

  lemma SampleNone(h: Hashes, info: Infos, network: Option<nat>, filtered: bool, now: int)
    ensures Sampled(info, [], []) && Distinct([]) && SampledPrefix(h, info, [], [], network, filtered, now)
  {
  }

  lemma SampleEligible(h: Hashes, info: Infos, prefix: seq<int>, addresses: seq<Address>, ids: seq<int>,
                       network: Option<nat>, filtered: bool, now: int)
    requires SampledPrefix(h, info, prefix, ids, network, filtered, now) && Sampled(info, addresses, ids)
    ensures |ids| == |addresses|
    ensures forall i :: 0 <= i < |ids| ==> ids[i] in info && Eligible(h, info[ids[i]], network, filtered, now)
  {
  }

  lemma SampleNext(h: Hashes, ix: Index, n: nat, addresses: seq<Address>, ids: seq<int>,
                   network: Option<nat>, filtered: bool, now: int)
    requires Ok(h, ix, {}, {}) && n < |ix.rnd| && Sampled(ix.info, addresses, ids) && Distinct(ids)
    requires SampledPrefix(h, ix.info, ix.rnd[..n], ids, network, filtered, now)
    ensures ix.rnd[n] in ix.info
    ensures var x := ix.info[ix.rnd[n]];
            var ids' := ids + [ix.rnd[n]];
            if Eligible(h, x, network, filtered, now) then
              && Sampled(ix.info, addresses + [Address(x.service, x.time, x.services)], ids') && Distinct(ids')
              && SampledPrefix(h, ix.info, ix.rnd[..n + 1], ids', network, filtered, now)
            else SampledPrefix(h, ix.info, ix.rnd[..n + 1], ids, network, filtered, now)
  {
    hide Ok, Eligible;
    var prefix, id := ix.rnd[..n], ix.rnd[n];
    OkRandom(h, ix, {}, {}, n);
    forall k | 0 <= k < n ensures prefix[k] != id { OkRandom(h, ix, {}, {}, k); }
    assert ix.rnd[..n + 1] == prefix + [id];
    SampleExtended(h, ix.info, prefix, addresses, ids, id, network, filtered, now);
  }

  lemma SampleExtended(h: Hashes, info: Infos, prefix: seq<int>, addresses: seq<Address>, ids: seq<int>, id: int,
                       network: Option<nat>, filtered: bool, now: int)
    requires id in info && id !in prefix && Sampled(info, addresses, ids) && Distinct(ids)
    requires SampledPrefix(h, info, prefix, ids, network, filtered, now)
    ensures var x := info[id];
            if Eligible(h, x, network, filtered, now) then
              && Sampled(info, addresses + [Address(x.service, x.time, x.services)], ids + [id]) && Distinct(ids + [id])
              && SampledPrefix(h, info, prefix + [id], ids + [id], network, filtered, now)
            else SampledPrefix(h, info, prefix + [id], ids, network, filtered, now)
  {
    hide Eligible;
    var ids', prefix' := ids + [id], prefix + [id];
    forall k | 0 <= k < |prefix| ensures prefix'[k] in info && prefix'[k] == prefix[k] { }
    forall i | 0 <= i < |ids| ensures ids'[i] == ids[i] && ids[i] in prefix && ids[i] in prefix' {
      assert ids[i] in prefix;
      var k :| 0 <= k < |prefix| && prefix[k] == ids[i];
      assert prefix'[k] == ids[i];
    }
    assert ids'[|ids|] == id && prefix'[|prefix|] == id;
  }

  lemma WholeSample(h: Hashes, ix: Index, ids: seq<int>, network: Option<nat>, filtered: bool, now: int)
    requires Ok(h, ix, {}, {}) && SampledPrefix(h, ix.info, ix.rnd[..|ix.rnd|], ids, network, filtered, now)
    ensures forall id :: id in ix.info && Eligible(h, ix.info[id], network, filtered, now) ==> id in ids
  {
    forall id | id in ix.info && Eligible(h, ix.info[id], network, filtered, now) ensures id in ids {
      assert ix.rnd[..|ix.rnd|][ix.info[id].randomPos] == id;
    }
  }

  /** The outcome for one pending collision.  The tried slot of a live newcomer always holds an entry.  That one stays,
      and the collision is settled, if the newcomer is invalid or the entry had a success in the last four hours.
      Otherwise it makes room if it was tried in the last four hours but not in the last minute, or if it was not tried
      and the newcomer's own success is over forty minutes ago. */
  ghost predicate ResolveStep(h: Hashes, ix: Index, ix': Index, id: int, now: int, settled: bool) {
    if id !in ix.info then settled && ix' == ix
    else
      && TriedSlot(h, ix.triedTable, ix.info[id].service) in ix.info
      && var x := ix.info[id];
         var older := ix.info[TriedSlot(h, ix.triedTable, x.service)];
         var stays := !h.valid(x.service) || older.lastSuccess + 14400 > now;
         var triedLately := older.lastTry + 14400 > now;
         var replaced := !stays && if triedLately then older.lastTry + 60 < now else x.lastSuccess + 2400 < now;
         var connected := ix.(info := ix.info[id := Connected(x, now)]);
         && (settled <==> stays || replaced)
         && (replaced && !x.inTried ==> MadeTried(h, connected, ix', id))
         && (replaced && x.inTried ==> ix' == connected)
         && (!replaced ==> ix' == ix)
  }

  ghost predicate ResolveSteps(h: Hashes, states: seq<Index>, ids: seq<int>, times: seq<int>, settled: seq<bool>) {
    && |states| == |ids| + 1 && |times| == |ids| && |settled| == |ids|
    && forall i :: 0 <= i < |ids| ==>
       times[i] > 0 && ResolveStep(h, states[i], states[i + 1], ids[i], times[i], settled[i])
  }

  lemma ResolveStepsNext(h: Hashes, states: seq<Index>, ix: Index, ids: seq<int>, id: int, times: seq<int>, now: int,
                         settled: seq<bool>, erase: bool)
    requires ResolveSteps(h, states, ids, times, settled)
    requires now > 0 && ResolveStep(h, states[|ids|], ix, id, now, erase)
    ensures ResolveSteps(h, states + [ix], ids + [id], times + [now], settled + [erase])
  {
    hide ResolveStep;
  }

  /** Of the ids `all`, those not in `todo` were handled once each, and the unsettled ones are left. */
  ghost predicate Handled(all: set<int>, todo: set<int>, left: set<int>, ids: seq<int>, settled: seq<bool>) {
    && todo <= left <= all && |settled| == |ids|
    && Distinct(ids) && (forall id :: id in ids <==> id in all - todo)
    && forall i :: 0 <= i < |ids| ==> (ids[i] in left <==> !settled[i])
  }

  lemma HandledNext(all: set<int>, todo: set<int>, left: set<int>, ids: seq<int>, settled: seq<bool>, id: int,
                    erase: bool)
    requires Handled(all, todo, left, ids, settled) && id in todo
    ensures Handled(all, todo - {id}, if erase then left - {id} else left, ids + [id], settled + [erase])
  {
    assert id !in ids;
    forall j ensures j in ids + [id] <==> j in all - (todo - {id}) {
      assert j in ids + [id] <==> j in ids || j == id;
    }
  }

  /** The statistics after a good connection. */
  ghost function Connected(x: AddrInfo, time: int): AddrInfo {
    x.(lastSuccess := time, lastTry := time, attempts := 0)
  }

  method Refresh(x: AddrInfo, addr: Address, penalty: int, now: int) returns (y: AddrInfo)
    ensures y == Refreshed(x, addr, penalty, now)
  {
    y := x;
    var updateInterval := if now - addr.time < 24 * 3600 then 3600 else 24 * 3600;
    if y.time < addr.time - updateInterval - penalty {
      y := y.(time := if addr.time - penalty > 0 then addr.time - penalty else 0);
    }
    y := y.(services := y.services + addr.services);
  }

  lemma {:induction false} RefreshedKeeps(info: Infos, id: int, addr: Address, penalty: int, now: int)
    ensures id in info ==>
              var x, y := info[id], Refreshed(info[id], addr, penalty, now);
              && y.service == x.service && y.refCount == x.refCount && y.inTried == x.inTried
              && y.randomPos == x.randomPos && (TimesFine(x) ==> TimesFine(y))
  {
  }

  /** A known entry after an announcement: it gains the services, and takes the announced time if that is news by over
      an hour, or over a day for an address that is not online now. */
  ghost function Refreshed(x: AddrInfo, addr: Address, penalty: int, now: int): AddrInfo {
    var online := addr.time + 86400 > now;
    var news := x.time + penalty + (if online then 3600 else 86400) < addr.time;
    x.(time := if news then Penalized(addr.time, penalty) else x.time, services := x.services + addr.services)
  }

  ghost function Penalized(time: int, penalty: int): int { if time < penalty then 0 else time - penalty }

  /** A new entry: nothing tried, nothing referring to it, at the end of vRandom. */
  ghost function Fresh(addr: Address, source: nat, randomPos: int): AddrInfo {
    AddrInfo(addr.service, addr.time, addr.services, source, 0, 0, 0, 0, 0, false, randomPos)
  }

  /** Whether AddSingle writes to a slot that holds `existing`. */
  ghost predicate MayInsert(info: Infos, existing: int, id: int, now: int) {
    || existing == -1
    || (existing != id && existing in info && id in info
        && (Terrible(info[existing], now) || (info[existing].refCount > 1 && info[id].refCount == 0)))
  }

  lemma MayInsertContent(info: Infos, existing: int, id: int, now: int)
    ensures MayInsert(Content(info), existing, id, now) <==> MayInsert(info, existing, id, now)
  {
    ContentAt(info, existing);
    ContentAt(info, id);
  }

  /** A source is not penalized for announcing itself. */
  ghost function Penalty(addr: Address, source: nat, timePenalty: int): int {
    if addr.service.addr == source then 0 else timePenalty
  }

  /** An address that had no entry: it gets one exactly when the slot it hashes to may be written. */
  ghost predicate UnknownStep(h: Hashes, ix: Index, ix': Index, addr: Address, source: nat, penalty: int, now: int,
                              added: bool) {
    var b := NewBucket(h, addr.service, source);
    var p := Position(h, true, b, addr.service);
    var c := Content(ix.info)[ix.idCount := Fresh(addr, source, 0).(time := Penalized(addr.time, penalty))];
    && (added <==> MayInsert(c, Slot(ix.newTable, b, p), ix.idCount, now))
    && Placed(c, ix.newTable, ix', ix.idCount, b, p, added)
  }

  /** An address that had an entry: the entry is refreshed, and gets one more reference exactly when the
      announcement is news, the entry is new with references to spare, the draw was lucky, and the slot
      may be written. */
  ghost predicate KnownStep(h: Hashes, ix: Index, ix': Index, addr: Address, source: nat, penalty: int, now: int,
                            lucky: bool, added: bool) {
    && addr.service in ix.addr && ix.addr[addr.service] in ix.info
    && var id := ix.addr[addr.service];
       var x := Refreshed(ix.info[id], addr, penalty, now);
       var info := ix.info[id := x];
       var b := NewBucket(h, addr.service, source);
       var p := Position(h, true, b, addr.service);
       var tries := addr.time > x.time && !x.inTried && x.refCount < 8 && lucky;
       && (added <==> tries && MayInsert(info, Slot(ix.newTable, b, p), id, now))
       && (tries ==> Placed(Content(info), ix.newTable, ix', id, b, p, added))
       && (!tries ==> ix' == ix.(info := info))
  }

  /** The outcome of AddSingle. */
  ghost predicate AddStep(h: Hashes, ix: Index, ix': Index, addr: Address, source: nat, timePenalty: int, now: int,
                          lucky: bool, added: bool) {
    if !h.routable(addr.service) then !added && ix' == ix
    else if addr.service in ix.addr
    then KnownStep(h, ix, ix', addr, source, Penalty(addr, source, timePenalty), now, lucky, added)
    else UnknownStep(h, ix, ix', addr, source, Penalty(addr, source, timePenalty), now, added)
  }

  /** Every address of a list in turn, each with its own draw. */
  ghost predicate AddSteps(h: Hashes, states: seq<Index>, addrs: seq<Address>, source: nat, timePenalty: int, now: int,
                           draws: seq<bool>, outcomes: seq<bool>) {
    && |states| == |addrs| + 1 && |draws| == |addrs| && |outcomes| == |addrs|
    && forall i :: 0 <= i < |addrs| ==>
         AddStep(h, states[i], states[i + 1], addrs[i], source, timePenalty, now, draws[i], outcomes[i])
  }

  lemma AddStepsNext(h: Hashes, states: seq<Index>, ix: Index, addrs: seq<Address>, addr: Address, source: nat,
                     timePenalty: int, now: int, draws: seq<bool>, outcomes: seq<bool>, lucky: bool, added: bool)
    requires AddSteps(h, states, addrs, source, timePenalty, now, draws, outcomes)
    requires AddStep(h, states[|addrs|], ix, addr, source, timePenalty, now, lucky, added)
    ensures AddSteps(h, states + [ix], addrs + [addr], source, timePenalty, now, draws + [lucky], outcomes + [added])
  {
    hide AddStep;
  }
}
