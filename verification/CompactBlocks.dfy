/** Compact block relay (src/blockencodings.h, src/blockencodings.cpp; BIP 152). */
module CompactBlocks {

  type Tx(==, !new)
  type Header(==, !new)

  datatype Option<T> = None | Some(value: T)

  datatype ReadStatus = OK | INVALID | FAILED | CHECKBLOCK_FAILED

  datatype CheckResult = Passed | Mutated | Rejected

  /** The hash functions: a transaction's witness hash, and the message's short id of a hash. */
  datatype Hashes = Hashes(txHash: Tx -> nat, shortId: nat -> nat)

  datatype Prefilled = Prefilled(index: nat, tx: Tx)

  datatype Message = Message(header: Option<Header>, shortIds: seq<nat>, prefilled: seq<Prefilled>) {
    function TxCount(): nat { |shortIds| + |prefilled| }
  }

  const MAX_BLOCK_WEIGHT: nat := 16000000
  const MIN_SERIALIZABLE_TRANSACTION_WEIGHT: nat := 40
  const UINT16_MAX: nat := 65535
  const UINT64_LIMIT: nat := 0x1_0000_0000_0000_0000

  type Slots = seq<Option<Tx>>

  // ----- Free slots -----

  /** How many slots hold no transaction. */
  function CountFree(s: Slots): nat {
    if s == [] then 0 else CountFree(s[..|s| - 1]) + if s[|s| - 1].None? then 1 else 0
  }

  lemma {:induction false} CountFreeNext(s: Slots, k: nat)
    requires k < |s|
    ensures CountFree(s[..k + 1]) == CountFree(s[..k]) + if s[k].None? then 1 else 0
  {
    assert s[..k + 1][..k] == s[..k];
  }

  lemma {:induction false} CountFreeMonotone(s: Slots, j: nat, k: nat)
    requires j <= k <= |s|
    ensures CountFree(s[..j]) <= CountFree(s[..k]) <= CountFree(s[..j]) + (k - j)
    decreases k - j
  {
    if j < k {
      CountFreeMonotone(s, j, k - 1);
      CountFreeNext(s, k - 1);
    }
  }

  lemma {:induction false} CountFreeUpdate(s: Slots, k: nat, x: Option<Tx>)
    requires k < |s|
    ensures CountFree(s[k := x]) + (if s[k].None? then 1 else 0) == CountFree(s) + if x.None? then 1 else 0
  {
    var n := |s| - 1;
    if k == n {
      assert s[k := x][..n] == s[..n];
    } else {
      CountFreeUpdate(s[..n], k, x);
      assert s[k := x][..n] == s[..n][k := x];
    }
  }

  lemma {:induction false} AllFree(n: nat)
    ensures CountFree(seq(n, _ => None)) == n
  {
    if n > 0 {
      var s: Slots := seq(n, _ => None);
      AllFree(n - 1);
      assert s[..n - 1] == seq(n - 1, _ => None);
    }
  }

  /** `p` is the free slot that `i` free slots precede. */
  ghost predicate IsSlot(s: Slots, i: nat, p: nat) { p < |s| && s[p].None? && CountFree(s[..p]) == i }

  lemma {:induction false} SlotUnique(s: Slots, i: nat, p: nat, q: nat)
    requires IsSlot(s, i, p) && IsSlot(s, i, q)
    ensures p == q
  {
    if p < q {
      CountFreeNext(s, p);
      CountFreeMonotone(s, p + 1, q);
    } else if q < p {
      CountFreeNext(s, q);
      CountFreeMonotone(s, q + 1, p);
    }
  }

  /** While free slots remain ahead, the search has not reached the end of the array. */
  lemma {:induction false} Ahead(s: Slots, i: nat, p: nat)
    requires p <= |s| && CountFree(s[..p]) == i < CountFree(s)
    ensures p < |s|
  {
    assert s[..|s|] == s;
  }

  lemma {:induction false} EveryFreeSlot(s: Slots, p: nat)
    requires p < |s| && s[p].None?
    ensures CountFree(s[..p]) < CountFree(s) && IsSlot(s, CountFree(s[..p]), p)
  {
    CountFreeNext(s, p);
    CountFreeMonotone(s, p + 1, |s|);
    assert s[..|s|] == s;
  }

  // ----- Prefilled transactions -----

  /** The position of the `i`-th prefilled transaction: offsets count from the one before. */
  function Position(prefilled: seq<Prefilled>, i: nat): int
    requires i < |prefilled|
  {
    (if i == 0 then -1 else Position(prefilled, i - 1)) + prefilled[i].index + 1
  }

  predicate PositionOk(m: Message, i: nat)
    requires i < |m.prefilled|
  {
    Position(m.prefilled, i) <= 0xffff && Position(m.prefilled, i) <= |m.shortIds| + i
  }

  lemma {:induction false} PositionsGrow(prefilled: seq<Prefilled>, i: nat, j: nat)
    requires i < j < |prefilled|
    ensures 0 <= Position(prefilled, i) < Position(prefilled, j)
    decreases j
  {
    PositionsFrom(prefilled, i);
    if i < j - 1 { PositionsGrow(prefilled, i, j - 1); }
  }

  lemma {:induction false} PositionsFrom(prefilled: seq<Prefilled>, i: nat)
    requires i < |prefilled|
    ensures Position(prefilled, i) >= i
  {
    if i > 0 { PositionsFrom(prefilled, i - 1); }
  }

  /** The slots with the first `i` prefilled transactions put in. */
  ghost predicate PutIn(s: Slots, m: Message, i: nat) {
    && i <= |m.prefilled| && |s| == m.TxCount() && CountFree(s) == |s| - i
    && (forall j :: 0 <= j < i ==> PositionOk(m, j) && 0 <= Position(m.prefilled, j) < |s|
                                   && s[Position(m.prefilled, j)] == Some(m.prefilled[j].tx))
    && (forall p :: 0 <= p < |s| && s[p].Some? ==> exists j :: 0 <= j < i && p == Position(m.prefilled, j))
  }

  lemma {:induction false} PutInNone(m: Message)
    ensures PutIn(seq(m.TxCount(), _ => None), m, 0)
  {
    AllFree(m.TxCount());
  }

  lemma {:induction false} PutInNext(s: Slots, m: Message, i: nat)
    requires PutIn(s, m, i) && i < |m.prefilled| && PositionOk(m, i)
    ensures 0 <= Position(m.prefilled, i) < |s|
            && PutIn(s[Position(m.prefilled, i) := Some(m.prefilled[i].tx)], m, i + 1)
  {
    var p := Position(m.prefilled, i);
    PositionsFrom(m.prefilled, i);
    forall j: nat | j < i ensures Position(m.prefilled, j) < p { PositionsGrow(m.prefilled, j, i); }
    CountFreeUpdate(s, p, Some(m.prefilled[i].tx));
    var s' := s[p := Some(m.prefilled[i].tx)];
    forall q | 0 <= q < |s| && s'[q].Some? ensures exists j :: 0 <= j < i + 1 && q == Position(m.prefilled, j) {
      if q != p {
        var j :| 0 <= j < i && q == Position(m.prefilled, j);
        assert 0 <= j < i + 1 && q == Position(m.prefilled, j);
      }
    }
  }

  // ----- Short ids -----

  ghost predicate Distinct(ids: seq<nat>) { forall i, j :: 0 <= i < j < |ids| ==> ids[i] != ids[j] }

  lemma {:induction false} DistinctNext(ids: seq<nat>, i: nat)
    requires i < |ids|
    ensures Distinct(ids[..i + 1]) <==> Distinct(ids[..i]) && forall j :: 0 <= j < i ==> ids[j] != ids[i]
  {
    var a, b := ids[..i], ids[..i + 1];
    assert forall j :: 0 <= j < i ==> a[j] == b[j] == ids[j];
    if Distinct(b) {
      forall j | 0 <= j < i ensures ids[j] != ids[i] { assert b[j] != b[i]; }
    }
  }

  ghost predicate HasSlot(ids: seq<nat>, base: Slots, i: nat, id: nat, p: nat) {
    exists j :: 0 <= j < i && j < |ids| && ids[j] == id && IsSlot(base, j, p)
  }

  /** The first `i` short ids are mapped to slots of their ranks. */
  ghost predicate Targets(ids: seq<nat>, base: Slots, table: map<nat, nat>, i: nat) {
    forall id :: id in table ==> HasSlot(ids, base, i, id, table[id])
  }

  /** The table has the first `i` ids as keys; an id seen twice shows in the size. */
  ghost predicate Counted(ids: seq<nat>, table: map<nat, nat>, i: nat) {
    && i <= |ids| && |table| <= i
    && (forall id :: id in table <==> id in ids[..i])
    && (|table| == i <==> Distinct(ids[..i]))
  }

  ghost predicate Mapped(ids: seq<nat>, base: Slots, table: map<nat, nat>, i: nat) {
    Targets(ids, base, table, i) && Counted(ids, table, i)
  }

  lemma {:induction false} TargetsNext(ids: seq<nat>, base: Slots, table: map<nat, nat>, i: nat, p: nat)
    requires Targets(ids, base, table, i) && i < |ids| && IsSlot(base, i, p)
    ensures Targets(ids, base, table[ids[i] := p], i + 1)
  {
    hide IsSlot;
    var t := table[ids[i] := p];
    forall id | id in t ensures HasSlot(ids, base, i + 1, id, t[id]) {
      if id != ids[i] {
        assert HasSlot(ids, base, i, id, table[id]);
      }
    }
  }

  lemma {:induction false} TableSize(table: map<nat, nat>, id: nat, p: nat)
    ensures |table[id := p]| == |table| + if id in table then 0 else 1
  {
    assert table[id := p].Keys == table.Keys + {id};
  }

  lemma {:induction false} CountedNext(ids: seq<nat>, table: map<nat, nat>, i: nat, p: nat)
    requires Counted(ids, table, i) && i < |ids|
    ensures Counted(ids, table[ids[i] := p], i + 1)
  {
    TableSize(table, ids[i], p);
    DistinctNext(ids, i);
    assert ids[..i + 1] == ids[..i] + [ids[i]];
    assert ids[i] in ids[..i] <==> exists j :: 0 <= j < i && ids[j] == ids[i];
    hide Distinct;
  }

  lemma {:induction false} MappedNext(ids: seq<nat>, base: Slots, table: map<nat, nat>, i: nat, p: nat)
    requires Mapped(ids, base, table, i) && i < |ids| && IsSlot(base, i, p)
    ensures Mapped(ids, base, table[ids[i] := p], i + 1)
  {
    hide Targets, Counted;
    TargetsNext(ids, base, table, i, p);
    CountedNext(ids, table, i, p);
  }

  /** With no collision every id has the slot of its own rank. */
  lemma {:induction false} SlotOfId(ids: seq<nat>, base: Slots, table: map<nat, nat>, id: nat) returns (j: nat)
    requires Mapped(ids, base, table, |ids|) && id in table
    ensures j < |ids| && ids[j] == id && IsSlot(base, j, table[id])
  {
    assert HasSlot(ids, base, |ids|, id, table[id]);
    j :| 0 <= j < |ids| && ids[j] == id && IsSlot(base, j, table[id]);
  }

  // ----- Filling slots from the transactions at hand -----

  /** `t` was offered for the short id, by the mempool or among the extra transactions. */
  ghost predicate Offered(env: Hashes, pool: seq<Tx>, extra: seq<(nat, Tx)>, id: nat, t: Tx) {
    (t in pool && env.shortId(env.txHash(t)) == id) || exists h :: (h, t) in extra && env.shortId(h) == id
  }

  /** Prefilled slots are as they were; a filled one holds a transaction offered for its short id. */
  ghost predicate Scanned(env: Hashes, ids: seq<nat>, pool: seq<Tx>, extra: seq<(nat, Tx)>, base: Slots, txn: Slots,
                          have: seq<bool>) {
    && |txn| == |have| == |base| && CountFree(base) == |ids|
    && (forall p :: 0 <= p < |base| && base[p].Some? ==> txn[p] == base[p])
    && (forall p :: 0 <= p < |base| && base[p].None? && txn[p].Some? ==>
          have[p] && SlotOffered(env, ids, pool, extra, base, p, txn[p].value))
  }

  ghost predicate SlotOffered(env: Hashes, ids: seq<nat>, pool: seq<Tx>, extra: seq<(nat, Tx)>, base: Slots, p: nat,
                              t: Tx)
    requires p < |base|
  {
    var i := CountFree(base[..p]);
    i < |ids| && Offered(env, pool, extra, ids[i], t)
  }

  lemma {:induction false} ScannedNone(env: Hashes, ids: seq<nat>, pool: seq<Tx>, extra: seq<(nat, Tx)>, base: Slots)
    requires CountFree(base) == |ids|
    ensures Scanned(env, ids, pool, extra, base, base, seq(|base|, _ => false))
  {
  }

  lemma {:induction false} ScannedTake(env: Hashes, ids: seq<nat>, pool: seq<Tx>, extra: seq<(nat, Tx)>, base: Slots,
                                       txn: Slots, have: seq<bool>, j: nat, p: nat, t: Tx)
    requires Scanned(env, ids, pool, extra, base, txn, have) && j < |ids| && IsSlot(base, j, p)
    requires !have[p] && Offered(env, pool, extra, ids[j], t)
    ensures Scanned(env, ids, pool, extra, base, txn[p := Some(t)], have[p := true])
    ensures CountFree(txn[p := Some(t)]) == CountFree(txn) - 1
  {
    hide Offered;
    CountFreeUpdate(txn, p, Some(t));
  }

  /** Filled slots were free, so the count of filled ones is never below one when a slot is emptied again. */
  lemma {:induction false} FewerFree(base: Slots, txn: Slots)
    requires |txn| == |base| && forall p :: 0 <= p < |base| && base[p].Some? ==> txn[p].Some?
    ensures CountFree(txn) <= CountFree(base)
    ensures (exists p :: 0 <= p < |base| && base[p].None? && txn[p].Some?) ==> CountFree(txn) < CountFree(base)
  {
    if base != [] {
      var n := |base| - 1;
      FewerFree(base[..n], txn[..n]);
      if p :| 0 <= p < |base| && base[p].None? && txn[p].Some? {
        if p < n { assert base[..n][p].None? && txn[..n][p].Some?; }
      }
    }
  }

  lemma {:induction false} ScannedDrop(env: Hashes, ids: seq<nat>, pool: seq<Tx>, extra: seq<(nat, Tx)>, base: Slots,
                                       txn: Slots, have: seq<bool>, p: nat)
    requires Scanned(env, ids, pool, extra, base, txn, have) && p < |base| && base[p].None? && txn[p].Some?
    ensures Scanned(env, ids, pool, extra, base, txn[p := None], have)
    ensures CountFree(txn[p := None]) == CountFree(txn) + 1 && CountFree(txn) < CountFree(base)
  {
    hide Offered;
    CountFreeUpdate(txn, p, None);
    FewerFree(base, txn);
  }

  /** The mempool holds exactly one transaction with the short id, at index `k`. */
  ghost predicate UniqueMatch(env: Hashes, pool: seq<Tx>, id: nat, k: nat) {
    && k < |pool| && env.shortId(env.txHash(pool[k])) == id
    && forall j :: 0 <= j < |pool| && env.shortId(env.txHash(pool[j])) == id ==> j == k
  }

  /** No extra transaction but copies of `t` has the short id. */
  ghost predicate NoRival(env: Hashes, extra: seq<(nat, Tx)>, id: nat, t: Tx) {
    forall j :: 0 <= j < |extra| && env.shortId(extra[j].0) == id ==> env.txHash(extra[j].1) == env.txHash(t)
  }

  ghost predicate NoMatch(env: Hashes, pool: seq<Tx>, id: nat) {
    forall j :: 0 <= j < |pool| ==> env.shortId(env.txHash(pool[j])) != id
  }

  /** The mempool has nothing for the short id, and all extra transactions for it are copies of the one at `k`, the
      first of them. */
  ghost predicate SoleExtra(env: Hashes, pool: seq<Tx>, extra: seq<(nat, Tx)>, id: nat, k: nat) {
    && NoMatch(env, pool, id)
    && k < |extra| && env.shortId(extra[k].0) == id && NoRival(env, extra, id, extra[k].1)
    && forall j :: 0 <= j < k ==> env.shortId(extra[j].0) != id
  }

  /** Slots with exactly one mempool candidate and no rival among the extra transactions hold it, and so do slots with
      nothing but copies of one extra transaction. */
  ghost predicate SinglesKept(env: Hashes, ids: seq<nat>, pool: seq<Tx>, extra: seq<(nat, Tx)>, base: Slots,
                              txn: Slots) {
    && |txn| == |base|
    && (forall i: nat, p: nat, k: nat ::
          i < |ids| && IsSlot(base, i, p) && UniqueMatch(env, pool, ids[i], k)
          && NoRival(env, extra, ids[i], pool[k]) ==>
            txn[p] == Some(pool[k]))
    && (forall i: nat, p: nat, k: nat ::
          i < |ids| && IsSlot(base, i, p) && SoleExtra(env, pool, extra, ids[i], k) ==> txn[p] == Some(extra[k].1))
  }

  /** What is known for a short id: whether a candidate was met, and the one that is kept.  The first is kept, a second
      one from the mempool drops it for good, and so does a different one among the extra transactions. */
  datatype Candidate = Candidate(met: bool, kept: Option<Tx>)

  ghost function Candidates(env: Hashes, pool: seq<Tx>, extra: seq<(nat, Tx)>, id: nat): Candidate {
    if extra != [] then
      var n := |extra| - 1;
      var c := Candidates(env, pool, extra[..n], id);
      if env.shortId(extra[n].0) != id then c
      else if !c.met then Candidate(true, Some(extra[n].1))
      else if c.kept.Some? && env.txHash(c.kept.value) != env.txHash(extra[n].1) then Candidate(true, None)
      else c
    else if pool != [] then
      var n := |pool| - 1;
      var c := Candidates(env, pool[..n], [], id);
      if env.shortId(env.txHash(pool[n])) != id then c
      else Candidate(true, if c.met then None else Some(pool[n]))
    else Candidate(false, None)
  }

  /** Every slot is as these mempool and extra transactions make it. */
  ghost predicate Weighed(env: Hashes, ids: seq<nat>, pool: seq<Tx>, extra: seq<(nat, Tx)>, base: Slots, txn: Slots,
                          have: seq<bool>) {
    && |txn| == |have| == |base|
    && forall i: nat, p: nat :: i < |ids| && IsSlot(base, i, p) ==>
         Candidate(have[p], txn[p]) == Candidates(env, pool, extra, ids[i])
  }

  lemma {:induction false} WeighedNone(env: Hashes, ids: seq<nat>, pool: seq<Tx>, extra: seq<(nat, Tx)>, base: Slots)
    ensures Weighed(env, ids, pool[..0], extra[..0], base, base, seq(|base|, _ => false))
  {
  }

  /** One more candidate for the id of one slot changes what is known for that id only. */
  lemma {:induction false} WeighedNext(env: Hashes, ids: seq<nat>, pool: seq<Tx>, extra: seq<(nat, Tx)>,
                                       pool': seq<Tx>, extra': seq<(nat, Tx)>, base: Slots, txn: Slots,
                                       have: seq<bool>, j: nat, q: nat)
    requires Weighed(env, ids, pool, extra, base, txn, have) && Distinct(ids) && j < |ids| && IsSlot(base, j, q)
    requires forall id :: id in ids && id != ids[j] ==>
               Candidates(env, pool', extra', id) == Candidates(env, pool, extra, id)
    ensures var c := Candidates(env, pool', extra', ids[j]);
            Weighed(env, ids, pool', extra', base, txn[q := c.kept], have[q := c.met])
  {
    hide Candidates;
    var c := Candidates(env, pool', extra', ids[j]);
    forall i: nat, p: nat | i < |ids| && IsSlot(base, i, p)
      ensures Candidate(have[q := c.met][p], txn[q := c.kept][p]) == Candidates(env, pool', extra', ids[i])
    {
      if i == j { SlotUnique(base, i, p, q); } else { assert p != q && ids[i] != ids[j]; }
    }
  }

  lemma {:induction false} WeighedSame(env: Hashes, ids: seq<nat>, pool: seq<Tx>, extra: seq<(nat, Tx)>,
                                       pool': seq<Tx>, extra': seq<(nat, Tx)>, base: Slots, txn: Slots,
                                       have: seq<bool>)
    requires Weighed(env, ids, pool, extra, base, txn, have)
    requires forall id :: id in ids ==> Candidates(env, pool', extra', id) == Candidates(env, pool, extra, id)
    ensures Weighed(env, ids, pool', extra', base, txn, have)
  {
    hide Candidates, IsSlot;
  }

  lemma {:induction false} PoolCandidate(env: Hashes, pool: seq<Tx>, n: nat, id: nat)
    requires n < |pool|
    ensures var c := Candidates(env, pool[..n], [], id);
            Candidates(env, pool[..n + 1], [], id) ==
              if env.shortId(env.txHash(pool[n])) != id then c
              else Candidate(true, if c.met then None else Some(pool[n]))
  {
    assert pool[..n + 1][..n] == pool[..n];
  }

  lemma {:induction false} ExtraCandidate(env: Hashes, pool: seq<Tx>, extra: seq<(nat, Tx)>, n: nat, id: nat)
    requires n < |extra|
    ensures var c := Candidates(env, pool, extra[..n], id);
            Candidates(env, pool, extra[..n + 1], id) ==
              if env.shortId(extra[n].0) != id then c
              else if !c.met then Candidate(true, Some(extra[n].1))
              else if c.kept.Some? && env.txHash(c.kept.value) != env.txHash(extra[n].1) then Candidate(true, None)
              else c
  {
    assert extra[..n + 1][..n] == extra[..n];
  }

  lemma {:induction false} WeighedPool(env: Hashes, ids: seq<nat>, pool: seq<Tx>, base: Slots, txn: Slots,
                                       have: seq<bool>, n: nat, j: nat, q: nat)
    requires n < |pool| && Weighed(env, ids, pool[..n], [], base, txn, have)
    requires Distinct(ids) && j < |ids| && IsSlot(base, j, q) && env.shortId(env.txHash(pool[n])) == ids[j]
    ensures Weighed(env, ids, pool[..n + 1], [], base, txn[q := if have[q] then None else Some(pool[n])],
                    have[q := true])
  {
    forall id ensures env.shortId(env.txHash(pool[n])) != id ==>
                        Candidates(env, pool[..n + 1], [], id) == Candidates(env, pool[..n], [], id) {
      PoolCandidate(env, pool, n, id);
    }
    PoolCandidate(env, pool, n, ids[j]);
    hide Candidates;
    WeighedNext(env, ids, pool[..n], [], pool[..n + 1], [], base, txn, have, j, q);
  }

  lemma {:induction false} WeighedPoolSkip(env: Hashes, ids: seq<nat>, pool: seq<Tx>, base: Slots, txn: Slots,
                                           have: seq<bool>, n: nat)
    requires n < |pool| && Weighed(env, ids, pool[..n], [], base, txn, have)
    requires env.shortId(env.txHash(pool[n])) !in ids
    ensures Weighed(env, ids, pool[..n + 1], [], base, txn, have)
  {
    forall id | id in ids ensures Candidates(env, pool[..n + 1], [], id) == Candidates(env, pool[..n], [], id) {
      PoolCandidate(env, pool, n, id);
    }
    hide Candidates, Weighed;
    WeighedSame(env, ids, pool[..n], [], pool[..n + 1], [], base, txn, have);
  }

  lemma {:induction false} WeighedExtra(env: Hashes, ids: seq<nat>, pool: seq<Tx>, extra: seq<(nat, Tx)>, base: Slots,
                                        txn: Slots, have: seq<bool>, n: nat, j: nat, q: nat)
    requires n < |extra| && Weighed(env, ids, pool, extra[..n], base, txn, have)
    requires Distinct(ids) && j < |ids| && IsSlot(base, j, q) && env.shortId(extra[n].0) == ids[j]
    ensures var x := if !have[q] then Some(extra[n].1)
                     else if txn[q].Some? && env.txHash(txn[q].value) != env.txHash(extra[n].1) then None else txn[q];
            Weighed(env, ids, pool, extra[..n + 1], base, txn[q := x], have[q := true])
  {
    forall id ensures env.shortId(extra[n].0) != id ==>
                        Candidates(env, pool, extra[..n + 1], id) == Candidates(env, pool, extra[..n], id) {
      ExtraCandidate(env, pool, extra, n, id);
    }
    ExtraCandidate(env, pool, extra, n, ids[j]);
    hide Candidates;
    WeighedNext(env, ids, pool, extra[..n], pool, extra[..n + 1], base, txn, have, j, q);
  }

  lemma {:induction false} WeighedExtraSkip(env: Hashes, ids: seq<nat>, pool: seq<Tx>, extra: seq<(nat, Tx)>,
                                            base: Slots, txn: Slots, have: seq<bool>, n: nat)
    requires n < |extra| && Weighed(env, ids, pool, extra[..n], base, txn, have) && env.shortId(extra[n].0) !in ids
    ensures Weighed(env, ids, pool, extra[..n + 1], base, txn, have)
  {
    forall id | id in ids ensures Candidates(env, pool, extra[..n + 1], id) == Candidates(env, pool, extra[..n], id) {
      ExtraCandidate(env, pool, extra, n, id);
    }
    hide Candidates, Weighed;
    WeighedSame(env, ids, pool, extra[..n], pool, extra[..n + 1], base, txn, have);
  }

  /** Every slot is as the scanned parts of mempool and extra transactions make it. */
  ghost predicate WeighedUpTo(env: Hashes, ids: seq<nat>, pool: seq<Tx>, inPool: nat, extra: seq<(nat, Tx)>,
                              inExtra: nat, base: Slots, txn: Slots, have: seq<bool>) {
    && inPool <= |pool| && inExtra <= |extra|
    && Weighed(env, ids, pool[..inPool], extra[..inExtra], base, txn, have)
  }

  /** These mempool transactions alone fill every slot, so the scan may stop. */
  ghost predicate AllKept(env: Hashes, ids: seq<nat>, pool: seq<Tx>) {
    forall i :: 0 <= i < |ids| ==> Candidates(env, pool, [], ids[i]).kept.Some?
  }

  lemma {:induction false} FullIsKept(env: Hashes, ids: seq<nat>, pool: seq<Tx>, base: Slots, txn: Slots,
                                      have: seq<bool>)
    requires Weighed(env, ids, pool, [], base, txn, have) && CountFree(txn) == 0 && |ids| <= CountFree(base)
    ensures AllKept(env, ids, pool)
  {
    hide Candidates;
    forall i | 0 <= i < |ids| ensures Candidates(env, pool, [], ids[i]).kept.Some? {
      var p := SlotAt(base, i);
      if txn[p].None? { EveryFreeSlot(txn, p); }
    }
  }

  /** There is an `i`-th free slot. */
  lemma {:induction false} SlotAt(s: Slots, i: nat) returns (p: nat)
    requires i < CountFree(s)
    ensures IsSlot(s, i, p)
  {
    var n := |s| - 1;
    CountFreeNext(s, n);
    assert s[..|s|] == s;
    if s[n].None? && CountFree(s[..n]) == i {
      p := n;
    } else {
      p := SlotAt(s[..n], i);
      assert s[..n][..p] == s[..p];
    }
  }

  lemma {:induction false} NothingMet(env: Hashes, pool: seq<Tx>, extra: seq<(nat, Tx)>, id: nat)
    requires NoMatch(env, pool, id) && forall j :: 0 <= j < |extra| ==> env.shortId(extra[j].0) != id
    ensures Candidates(env, pool, extra, id) == Candidate(false, None)
  {
    if extra != [] {
      NothingMet(env, pool, extra[..|extra| - 1], id);
    } else if pool != [] {
      NothingMet(env, pool[..|pool| - 1], [], id);
    }
  }

  lemma {:induction false} UniqueIsKept(env: Hashes, pool: seq<Tx>, extra: seq<(nat, Tx)>, id: nat, k: nat)
    requires UniqueMatch(env, pool, id, k) && NoRival(env, extra, id, pool[k])
    ensures Candidates(env, pool, extra, id) == Candidate(true, Some(pool[k]))
    decreases |extra|, |pool|
  {
    var n := |pool| - 1;
    if extra != [] {
      UniqueIsKept(env, pool, extra[..|extra| - 1], id, k);
    } else if k == n {
      NothingMet(env, pool[..n], [], id);
    } else {
      UniqueIsKept(env, pool[..n], [], id, k);
    }
  }

  lemma {:induction false} SoleIsKept(env: Hashes, pool: seq<Tx>, extra: seq<(nat, Tx)>, id: nat, k: nat)
    requires SoleExtra(env, pool, extra, id, k)
    ensures Candidates(env, pool, extra, id) == Candidate(true, Some(extra[k].1))
    decreases |extra|
  {
    var n := |extra| - 1;
    if k == n {
      NothingMet(env, pool, extra[..n], id);
    } else {
      SoleIsKept(env, pool, extra[..n], id, k);
    }
  }

  /** A scan that stops only when every slot is filled misses no single candidate. */
  lemma {:induction false} SinglesAreKept(env: Hashes, ids: seq<nat>, pool: seq<Tx>, inPool: nat,
                                          extra: seq<(nat, Tx)>, inExtra: nat, base: Slots, txn: Slots,
                                          have: seq<bool>)
    requires WeighedUpTo(env, ids, pool, inPool, extra, inExtra, base, txn, have)
    requires inPool < |pool| ==> AllKept(env, ids, pool[..inPool])
    requires inExtra < |extra| ==> CountFree(txn) == 0
    ensures SinglesKept(env, ids, pool, extra, base, txn)
  {
    hide Candidates, CountFree;
    var ps, es := pool[..inPool], extra[..inExtra];
    forall i: nat, p: nat, k: nat | i < |ids| && IsSlot(base, i, p) && UniqueMatch(env, pool, ids[i], k)
                                      && NoRival(env, extra, ids[i], pool[k])
      ensures txn[p] == Some(pool[k])
    {
      if k >= inPool {
        NothingMet(env, ps, [], ids[i]);
        assert false;
      }
      UniqueIsKept(env, ps, es, ids[i], k);
    }
    forall i: nat, p: nat, k: nat | i < |ids| && IsSlot(base, i, p) && SoleExtra(env, pool, extra, ids[i], k)
      ensures txn[p] == Some(extra[k].1)
    {
      if k >= inExtra {
        NothingMet(env, ps, es, ids[i]);
        SomeFree(base, txn, i, p);
        assert false;
      }
      SoleIsKept(env, ps, es, ids[i], k);
    }
  }

  lemma {:induction false} SomeFree(base: Slots, txn: Slots, i: nat, p: nat)
    requires IsSlot(base, i, p) && |txn| == |base| && txn[p].None?
    ensures CountFree(txn) > 0
  {
    EveryFreeSlot(txn, p);
  }

  /** The 64-bit count of extra transactions moves with the count of filled slots. */
  ghost predicate InStep(count0: nat, filled0: nat, count: nat, filled: nat) {
    count0 < UINT64_LIMIT ==> count == (count0 + filled - filled0) % UINT64_LIMIT
  }

  lemma {:induction false} InStepNone(count: nat, filled: nat)
    ensures InStep(count, filled, count, filled)
  {
  }

  lemma {:induction false} InStepNext(count0: nat, filled0: nat, count1: nat, filled1: nat, count2: nat, filled2: nat)
    requires InStep(count0, filled0, count1, filled1) && InStep(count1, filled1, count2, filled2)
    ensures InStep(count0, filled0, count2, filled2)
  {
  }

  // ----- The partially downloaded block -----

  /** Every prefilled transaction is present and at a position that short ids and earlier ones can reach. */
  ghost predicate WellPlaced(m: Message, isNull: Tx -> bool, n: nat) {
    n <= |m.prefilled| && forall i :: 0 <= i < n ==> !isNull(m.prefilled[i].tx) && PositionOk(m, i)
  }

  class PartiallyDownloadedBlock {
    var header: Option<Header>
    var txn: Slots
    var prefilledCount: nat
    var mempoolCount: nat
    var extraCount: nat

    constructor ()
      ensures header == None && txn == [] && prefilledCount == mempoolCount == extraCount == 0
    {
      header, txn, prefilledCount, mempoolCount, extraCount := None, [], 0, 0, 0;
    }

    /** Puts the prefilled transactions at their positions. */
    method PlacePrefilled(m: Message, isNull: Tx -> bool) returns (ok: bool)
      requires PutIn(txn, m, 0)
      modifies this`txn
      ensures ok <==> WellPlaced(m, isNull, |m.prefilled|)
      ensures ok ==> PutIn(txn, m, |m.prefilled|)
    {
      hide PutIn;
      var last := -1;
      for i := 0 to |m.prefilled|
        invariant PutIn(txn, m, i) && WellPlaced(m, isNull, i)
        invariant last == if i == 0 then -1 else Position(m.prefilled, i - 1)
      {
        if isNull(m.prefilled[i].tx) {
          return false;
        }
        last := last + m.prefilled[i].index + 1;
        if last > UINT16_MAX {
          return false;
        }
        if last > |m.shortIds| + i {
          return false;
        }
        PutInNext(txn, m, i);
        PutInSize(txn, m, i);
        txn := txn[last := Some(m.prefilled[i].tx)];
      }
      ok := true;
    }

    /** Maps the `i`-th short id to the `i`-th free slot; the search never leaves the array. */
    method MapShortIds(ids: seq<nat>, crowded: seq<nat> -> bool) returns (status: ReadStatus, table: map<nat, nat>)
      requires CountFree(txn) == |ids|
      ensures status == OK || status == FAILED
      ensures status == OK <==> Distinct(ids) && forall i :: 0 < i <= |ids| ==> !crowded(ids[..i])
      ensures status == OK ==> Mapped(ids, txn, table, |ids|)
    {
      table := map[];
      NoneMapped(ids, txn);
      hide Mapped, Distinct, CountFree;
      var offset := 0;
      for i := 0 to |ids|
        invariant 0 <= offset && i + offset <= |txn| && CountFree(txn[..i + offset]) == i
        invariant Mapped(ids, txn, table, i)
        invariant forall k :: 0 < k <= i ==> !crowded(ids[..k])
      {
        var from := offset;
        Ahead(txn, i, i + offset);
        while txn[i + offset].Some?
          invariant from <= offset && i + offset < |txn| && CountFree(txn[..i + offset]) == i
          decreases |txn| - offset
        {
          CountFreeNext(txn, i + offset);
          offset := offset + 1;
          Ahead(txn, i, i + offset);
        }
        CountFreeNext(txn, i + offset);
        MappedNext(ids, txn, table, i, i + offset);
        table := table[ids[i] := i + offset];
        if crowded(ids[..i + 1]) {
          return FAILED, table;
        }
      }
      MappedSize(ids, txn, table);
      if |table| != |ids| {
        return FAILED, table;
      }
      status := OK;
    }

    /** Mempool transactions fill the slots of their short ids; a second match empties the slot again. */
    method ScanPool(env: Hashes, ids: seq<nat>, pool: seq<Tx>, table: map<nat, nat>, ghost base: Slots,
                    ghost extra: seq<(nat, Tx)>)
      returns (have: seq<bool>, ghost seen: nat)
      requires txn == base && CountFree(base) == |ids| == |table| && Mapped(ids, base, table, |ids|) && Distinct(ids)
      modifies this`txn, this`mempoolCount
      ensures Scanned(env, ids, pool, extra, base, txn, have)
      ensures mempoolCount + CountFree(txn) == old(mempoolCount) + CountFree(base)
      ensures seen <= |pool| && Weighed(env, ids, pool[..seen], [], base, txn, have)
      ensures old(mempoolCount) == 0 && seen < |pool| ==> CountFree(txn) == 0
    {
      have := seq(|txn|, _ => false);
      WeighedNone(env, ids, pool, [], base);
      ScannedNone(env, ids, pool, extra, base);
      hide Mapped, Scanned, CountFree, Weighed, Distinct;
      seen := 0;
      for k := 0 to |pool|
        invariant Scanned(env, ids, pool, extra, base, txn, have)
        invariant seen == k && Weighed(env, ids, pool[..k], [], base, txn, have)
        invariant mempoolCount + CountFree(txn) == old(mempoolCount) + CountFree(base)
      {
        var shortId := env.shortId(env.txHash(pool[k]));
        TableIds(ids, base, table, shortId);
        if shortId in table {
          have := PoolMatch(env, ids, pool, k, extra, table, shortId, pool[k], have, base);
        } else {
          WeighedPoolSkip(env, ids, pool, base, txn, have, k);
        }
        seen := k + 1;
        if mempoolCount == |table| {
          return;
        }
      }
    }

    method PoolMatch(env: Hashes, ids: seq<nat>, ghost pool: seq<Tx>, ghost k: nat, ghost extra: seq<(nat, Tx)>,
                     table: map<nat, nat>, id: nat, t: Tx, have: seq<bool>, ghost base: Slots)
      returns (have': seq<bool>)
      requires Mapped(ids, base, table, |ids|) && Distinct(ids) && id in table
      requires k < |pool| && pool[k] == t && env.shortId(env.txHash(t)) == id
      requires Scanned(env, ids, pool, extra, base, txn, have) && Weighed(env, ids, pool[..k], [], base, txn, have)
      requires mempoolCount + CountFree(txn) >= CountFree(base)
      modifies this`txn, this`mempoolCount
      ensures Scanned(env, ids, pool, extra, base, txn, have')
      ensures Weighed(env, ids, pool[..k + 1], [], base, txn, have')
      ensures mempoolCount + CountFree(txn) == old(mempoolCount) + CountFree(old(txn))
    {
      hide Mapped, CountFree, Weighed, Distinct;
      ghost var j := SlotOfId(ids, base, table, id);
      WeighedPool(env, ids, pool, base, txn, have, k, j, table[id]);
      var p := table[id];
      have' := have[p := true];
      if !have[p] {
        ScannedTake(env, ids, pool, extra, base, txn, have, j, p, t);
        txn := txn[p := Some(t)];
        mempoolCount := mempoolCount + 1;
      } else {
        assert have' == have;
        if txn[p].Some? {
          ScannedDrop(env, ids, pool, extra, base, txn, have, p);
          txn := txn[p := None];
          mempoolCount := mempoolCount - 1;
        } else {
          assert txn[p := None] == txn;
        }
      }
    }

    /** The extra transactions next; only a different transaction empties a slot. */
    method ScanExtra(env: Hashes, ids: seq<nat>, extra: seq<(nat, Tx)>, table: map<nat, nat>, have0: seq<bool>,
                     ghost base: Slots, ghost pool: seq<Tx>, ghost weighed: seq<Tx>)
      returns (ghost have: seq<bool>, ghost seen: nat)
      requires Mapped(ids, base, table, |ids|) && Distinct(ids) && Scanned(env, ids, pool, extra, base, txn, have0)
      requires mempoolCount + CountFree(txn) >= CountFree(base) && Weighed(env, ids, weighed, [], base, txn, have0)
      modifies this`txn, this`mempoolCount, this`extraCount
      ensures Scanned(env, ids, pool, extra, base, txn, have)
      ensures mempoolCount + CountFree(txn) == old(mempoolCount) + CountFree(old(txn))
      ensures seen <= |extra| && Weighed(env, ids, weighed, extra[..seen], base, txn, have)
      ensures InStep(old(extraCount), old(mempoolCount), extraCount, mempoolCount)
      ensures old(mempoolCount) + CountFree(old(txn)) == |table| && seen < |extra| ==> CountFree(txn) == 0
    {
      InStepNone(extraCount, mempoolCount);
      hide Mapped, Scanned, CountFree, Weighed, InStep, Distinct;
      assert extra[..0] == [];
      seen := 0;
      var mark := have0;
      have := mark;
      for k := 0 to |extra|
        invariant have == mark && Scanned(env, ids, pool, extra, base, txn, mark)
        invariant mempoolCount + CountFree(txn) == old(mempoolCount) + CountFree(old(txn))
        invariant seen == k && Weighed(env, ids, weighed, extra[..k], base, txn, mark)
        invariant InStep(old(extraCount), old(mempoolCount), extraCount, mempoolCount)
      {
        var shortId := env.shortId(extra[k].0);
        TableIds(ids, base, table, shortId);
        if shortId in table {
          ghost var count, filled := extraCount, mempoolCount;
          mark := ExtraMatch(env, ids, pool, weighed, extra, k, table, shortId, extra[k].1, mark, base);
          have := mark;
          InStepNext(old(extraCount), old(mempoolCount), count, filled, extraCount, mempoolCount);
        } else {
          WeighedExtraSkip(env, ids, weighed, extra, base, txn, mark, k);
        }
        seen := k + 1;
        if mempoolCount == |table| {
          break;
        }
      }
    }

    method ExtraMatch(env: Hashes, ids: seq<nat>, ghost pool: seq<Tx>, ghost weighed: seq<Tx>,
                      ghost extra: seq<(nat, Tx)>, ghost k: nat, table: map<nat, nat>, id: nat, t: Tx,
                      have: seq<bool>, ghost base: Slots)
      returns (have': seq<bool>)
      requires Mapped(ids, base, table, |ids|) && Distinct(ids) && id in table
      requires k < |extra| && env.shortId(extra[k].0) == id && extra[k].1 == t
      requires Scanned(env, ids, pool, extra, base, txn, have)
      requires Weighed(env, ids, weighed, extra[..k], base, txn, have)
      requires mempoolCount + CountFree(txn) >= CountFree(base)
      modifies this`txn, this`mempoolCount, this`extraCount
      ensures Scanned(env, ids, pool, extra, base, txn, have')
      ensures mempoolCount + CountFree(txn) == old(mempoolCount) + CountFree(old(txn))
      ensures Weighed(env, ids, weighed, extra[..k + 1], base, txn, have')
      ensures InStep(old(extraCount), old(mempoolCount), extraCount, mempoolCount)
    {
      hide Mapped, CountFree, Offered, Weighed, Distinct;
      ExtraOffered(env, pool, extra, k);
      ghost var j := SlotOfId(ids, base, table, id);
      var p := table[id];
      have' := have[p := true];
      WeighedExtra(env, ids, weighed, extra, base, txn, have, k, j, p);
      assert txn[p := txn[p]] == txn;
      if !have[p] {
        ScannedTake(env, ids, pool, extra, base, txn, have, j, p, t);
        txn := txn[p := Some(t)];
        mempoolCount := mempoolCount + 1;
        extraCount := (extraCount + 1) % UINT64_LIMIT;
      } else {
        assert have' == have;
        if txn[p].Some? && env.txHash(txn[p].value) != env.txHash(t) {
          ScannedDrop(env, ids, pool, extra, base, txn, have, p);
          txn := txn[p := None];
          mempoolCount := mempoolCount - 1;
          extraCount := (extraCount + UINT64_LIMIT - 1) % UINT64_LIMIT;  // an unsigned counter
        }
      }
    }

    /** Fills the free slots from what is at hand, after mapping the short ids to them. */
    method FillSlots(env: Hashes, ids: seq<nat>, crowded: seq<nat> -> bool, pool: seq<Tx>, extra: seq<(nat, Tx)>)
      returns (status: ReadStatus, ghost have: seq<bool>, ghost inPool: nat, ghost inExtra: nat)
      requires CountFree(txn) == |ids|
      modifies this`txn, this`mempoolCount, this`extraCount
      ensures status == OK || status == FAILED
      ensures status == OK <==> Distinct(ids) && forall i :: 0 < i <= |ids| ==> !crowded(ids[..i])
      ensures status == OK ==> Scanned(env, ids, pool, extra, old(txn), txn, have)
      ensures status == OK ==> mempoolCount + CountFree(txn) == old(mempoolCount) + |ids|
      ensures status == OK && old(mempoolCount) == 0 ==> SinglesKept(env, ids, pool, extra, old(txn), txn)
      ensures status == OK ==> WeighedUpTo(env, ids, pool, inPool, extra, inExtra, old(txn), txn, have)
      ensures status == OK && old(mempoolCount) == 0 && inExtra < |extra| ==> CountFree(txn) == 0
      ensures status == OK && old(mempoolCount) == 0 && inPool < |pool| ==> AllKept(env, ids, pool[..inPool])
    {
      hide Distinct, CountFree, Scanned, Mapped, SinglesKept, Weighed, AllKept;
      inPool, inExtra := 0, 0;
      ghost var base := txn;
      var table;
      status, table := MapShortIds(ids, crowded);
      have := [];
      if status == FAILED {
        return;
      }
      MappedSize(ids, base, table);
      var mark;
      mark, inPool := ScanPool(env, ids, pool, table, base, extra);
      if CountFree(txn) == 0 { FullIsKept(env, ids, pool[..inPool], base, txn, mark); }
      have, inExtra := ScanExtra(env, ids, extra, table, mark, base, pool, pool[..inPool]);
      if old(mempoolCount) == 0 { SinglesAreKept(env, ids, pool, inPool, extra, inExtra, base, txn, have); }
    }

    /** Starts a block from a message. On success prefilled slots hold their transactions, every other slot is
        empty or holds one offered for its short id, the mempool counter has counted the filled ones, and slots
        with a single candidate are filled. */
    method InitData(env: Hashes, m: Message, isNull: Tx -> bool, crowded: seq<nat> -> bool, pool: seq<Tx>,
                    extra: seq<(nat, Tx)>)
      returns (status: ReadStatus, ghost base: Slots, ghost have: seq<bool>, ghost inPool: nat, ghost inExtra: nat)
      requires m.TxCount() <= UINT16_MAX
      modifies this
      ensures status == INVALID <==>
        m.header == None || m.TxCount() == 0 || old(header) != None || old(txn) != []
          || !WellPlaced(m, isNull, |m.prefilled|)
      ensures status == FAILED <==>
              status != INVALID
                && !(Distinct(m.shortIds) && forall i :: 0 < i <= |m.shortIds| ==> !crowded(m.shortIds[..i]))
      ensures status != CHECKBLOCK_FAILED
      ensures status == OK ==> header == m.header && PutIn(base, m, |m.prefilled|) && prefilledCount == |m.prefilled|
      ensures status == OK ==> Scanned(env, m.shortIds, pool, extra, base, txn, have)
      ensures status == OK ==> mempoolCount == old(mempoolCount) + CountFree(base) - CountFree(txn)
      ensures status == OK && old(mempoolCount) == 0 ==> SinglesKept(env, m.shortIds, pool, extra, base, txn)
      ensures status == OK ==> WeighedUpTo(env, m.shortIds, pool, inPool, extra, inExtra, base, txn, have)
      ensures status == OK && old(mempoolCount) == 0 && inExtra < |extra| ==> CountFree(txn) == 0
      ensures status == OK && old(mempoolCount) == 0 && inPool < |pool| ==> AllKept(env, m.shortIds, pool[..inPool])
    {
      base, have, inPool, inExtra := [], [], 0, 0;
      if m.header == None || (m.shortIds == [] && m.prefilled == []) {
        return INVALID, base, have, inPool, inExtra;
      }
      if m.TxCount() > MAX_BLOCK_WEIGHT / MIN_SERIALIZABLE_TRANSACTION_WEIGHT {
        return INVALID, base, have, inPool, inExtra;
      }
      if header != None || txn != [] {
        return INVALID, base, have, inPool, inExtra;
      }
      hide Distinct, CountFree, WellPlaced, PutIn, Scanned, SinglesKept, WeighedUpTo, AllKept;
      header := m.header;
      txn := seq(m.TxCount(), _ => None);
      PutInNone(m);
      var ok := PlacePrefilled(m, isNull);
      if !ok {
        return INVALID, base, have, inPool, inExtra;
      }
      prefilledCount := |m.prefilled|;
      base := txn;
      PutInSize(base, m, |m.prefilled|);
      status, have, inPool, inExtra := FillSlots(env, m.shortIds, crowded, pool, extra);
    }

    predicate IsTxAvailable(index: nat)
      requires header != None ==> index < |txn|
      reads this
    {
      header != None && txn[index].Some?
    }

    /** Completes the block: the `k`-th transaction asked for goes into the `k`-th empty slot. */
    method FillBlock(missing: seq<Tx>, check: (Header, seq<Tx>) -> CheckResult)
      returns (status: ReadStatus, vtx: seq<Tx>)
      modifies this
      ensures old(header) == None ==> status == INVALID && header == old(header) && txn == old(txn)
      ensures old(header) != None && CountFree(old(txn)) > |missing| ==>
        status == INVALID && header == old(header) && Emptied(txn, old(txn), |missing|)
      ensures old(header) != None && CountFree(old(txn)) <= |missing| ==>
        && header == None && txn == [] && vtx == Rebuilt(old(txn), missing)
        && status == if CountFree(old(txn)) != |missing| then INVALID else StatusOf(check(old(header).value, vtx))
      ensures prefilledCount == old(prefilledCount) && mempoolCount == old(mempoolCount)
              && extraCount == old(extraCount)
    {
      vtx := [];
      if header == None {
        return INVALID, vtx;
      }
      hide CountFree, Rebuilt;
      var blockHeader := header.value;
      ghost var was := txn;
      NothingRebuilt(was, missing);
      var offset := 0;
      for i := 0 to |txn|
        invariant |txn| == |was| && 0 <= offset == CountFree(was[..i]) <= |missing| && header == old(header)
        invariant forall k :: 0 <= k < i ==> txn[k] == None
        invariant forall k :: i <= k < |was| ==> txn[k] == was[k]
        invariant vtx == Rebuilt(was[..i], missing)
        invariant prefilledCount == old(prefilledCount) && mempoolCount == old(mempoolCount)
                  && extraCount == old(extraCount)
      {
        RebuiltNext(was, i, missing);
        if txn[i].None? {
          if |missing| <= offset {
            EveryFreeSlot(was, i);
            return INVALID, vtx;
          }
          vtx := vtx + [missing[offset]];
          offset := offset + 1;
        } else {
          vtx := vtx + [txn[i].value];
          txn := txn[i := None];
        }
      }
      assert was[..|was|] == was;
      header, txn := None, [];
      if |missing| != offset {
        return INVALID, vtx;
      }
      match check(blockHeader, vtx) {
        case Passed => status := OK;
        case Mutated => status := FAILED;
        case Rejected => status := CHECKBLOCK_FAILED;
      }
    }
  }

  ghost function StatusOf(r: CheckResult): ReadStatus {
    match r
    case Passed => OK
    case Mutated => FAILED
    case Rejected => CHECKBLOCK_FAILED
  }

  /** Slots before the `n`-th empty one have been moved out; the others are as they were. */
  ghost predicate Emptied(txn: Slots, was: Slots, n: nat) {
    exists stop: nat :: IsSlot(was, n, stop) && |txn| == |was|
      && (forall k :: 0 <= k < stop ==> txn[k] == None) && (forall k :: stop <= k < |was| ==> txn[k] == was[k])
  }

  function Rebuilt(txn: Slots, missing: seq<Tx>): (r: seq<Tx>)
    requires CountFree(txn) <= |missing|
    ensures |r| == |txn|
  {
    if txn == [] then []
    else
      var n := |txn| - 1;
      Rebuilt(txn[..n], missing) + [if txn[n].Some? then txn[n].value else missing[CountFree(txn[..n])]]
  }

  lemma {:induction false} NothingRebuilt(txn: Slots, missing: seq<Tx>)
    ensures CountFree(txn[..0]) == 0 && Rebuilt(txn[..0], missing) == []
  {
  }

  lemma {:induction false} RebuiltNext(txn: Slots, i: nat, missing: seq<Tx>)
    requires i < |txn| && CountFree(txn[..i]) <= |missing|
    ensures CountFree(txn[..i + 1]) == CountFree(txn[..i]) + if txn[i].None? then 1 else 0
    ensures txn[i].Some? ==> Rebuilt(txn[..i + 1], missing) == Rebuilt(txn[..i], missing) + [txn[i].value]
    ensures txn[i].None? && CountFree(txn[..i]) < |missing| ==>
      Rebuilt(txn[..i + 1], missing) == Rebuilt(txn[..i], missing) + [missing[CountFree(txn[..i])]]
  {
    assert txn[..i + 1][..i] == txn[..i];
  }

  // ----- Reconstruction -----

  /** The transactions of the block that the slots do not have, in order. */
  function MissingOf(vtx: seq<Tx>, txn: Slots): seq<Tx>
    requires |vtx| == |txn|
  {
    if txn == [] then []
    else var n := |txn| - 1; MissingOf(vtx[..n], txn[..n]) + if txn[n].None? then [vtx[n]] else []
  }

  /** Slots that hold only the block's own transactions, with the missing ones, give the block. */
  lemma {:induction false} RebuiltIsBlock(vtx: seq<Tx>, txn: Slots, missing: seq<Tx>)
    requires |vtx| == |txn| && MissingOf(vtx, txn) <= missing
    requires forall p :: 0 <= p < |txn| && txn[p].Some? ==> txn[p].value == vtx[p]
    ensures CountFree(txn) == |MissingOf(vtx, txn)| && Rebuilt(txn, missing) == vtx
  {
    if txn != [] {
      var n := |txn| - 1;
      RebuiltIsBlock(vtx[..n], txn[..n], missing);
      assert vtx == vtx[..n] + [vtx[n]];
    }
  }

  /** Prefilled slots have the block's transactions, the others the short ids of the block's. */
  ghost predicate Describes(env: Hashes, m: Message, base: Slots, vtx: seq<Tx>) {
    && |vtx| == |base| == m.TxCount() && CountFree(base) == |m.shortIds|
    && (forall p :: 0 <= p < |base| && base[p].Some? ==> base[p].value == vtx[p])
    && (forall i: nat, p: nat :: IsSlot(base, i, p) && i < |m.shortIds| ==>
          m.shortIds[i] == env.shortId(env.txHash(vtx[p])))
  }

  /** Nothing at hand has the short id of one of the block's transactions without being it. */
  ghost predicate NoCollision(env: Hashes, pool: seq<Tx>, extra: seq<(nat, Tx)>, vtx: seq<Tx>) {
    forall p, t :: 0 <= p < |vtx| && Offered(env, pool, extra, env.shortId(env.txHash(vtx[p])), t) ==> t == vtx[p]
  }

  lemma {:induction false} SlotsAreRight(env: Hashes, m: Message, pool: seq<Tx>, extra: seq<(nat, Tx)>, base: Slots,
                                         txn: Slots, have: seq<bool>, vtx: seq<Tx>)
    requires Describes(env, m, base, vtx) && Scanned(env, m.shortIds, pool, extra, base, txn, have)
             && NoCollision(env, pool, extra, vtx)
    ensures forall p :: 0 <= p < |txn| && txn[p].Some? ==> txn[p].value == vtx[p]
  {
    hide Offered;
    forall p: nat | p < |txn| && txn[p].Some? ensures txn[p].value == vtx[p] {
      if base[p].None? {
        EveryFreeSlot(base, p);
        assert SlotOffered(env, m.shortIds, pool, extra, base, p, txn[p].value);
      }
    }
  }

  /** The message a node sends for a block: the first transaction in full, short ids of the rest. */
  function Announce(env: Hashes, header: Header, vtx: seq<Tx>): Message
    requires |vtx| > 0
  {
    Message(Some(header), seq<nat>(|vtx| - 1, i requires 0 <= i < |vtx| - 1 => env.shortId(env.txHash(vtx[i + 1]))),
      [Prefilled(0, vtx[0])])
  }

  lemma {:induction false} RankAfterFirst(base: Slots, p: nat)
    requires 0 < p <= |base| && base[0].Some? && forall q :: 0 < q < |base| ==> base[q].None?
    ensures CountFree(base[..p]) == p - 1
  {
    if p == 1 {
      CountFreeNext(base, 0);
    } else {
      RankAfterFirst(base, p - 1);
      CountFreeNext(base, p - 1);
    }
  }

  lemma {:induction false} AnnounceDescribes(env: Hashes, header: Header, vtx: seq<Tx>, base: Slots)
    requires |vtx| > 0 && PutIn(base, Announce(env, header, vtx), 1)
    ensures Describes(env, Announce(env, header, vtx), base, vtx)
  {
    var m := Announce(env, header, vtx);
    assert Position(m.prefilled, 0) == 0;
    forall q | 0 < q < |base| ensures base[q].None? {
    }
    forall i: nat, p: nat | IsSlot(base, i, p) && i < |m.shortIds|
      ensures m.shortIds[i] == env.shortId(env.txHash(vtx[p])) {
      RankAfterFirst(base, p);
    }
  }

  /** A whole relay: announced, matched against what is at hand, completed with what was missing. */
  method Relay(env: Hashes, header: Header, vtx: seq<Tx>, isNull: Tx -> bool, crowded: seq<nat> -> bool, pool: seq<Tx>,
               extra: seq<(nat, Tx)>, check: (Header, seq<Tx>) -> CheckResult)
    returns (init: ReadStatus, status: ReadStatus, block: seq<Tx>)
    requires 0 < |vtx| <= UINT16_MAX && !isNull(vtx[0]) && NoCollision(env, pool, extra, vtx)
    ensures init == OK <==>
            (var ids := Announce(env, header, vtx).shortIds;
             Distinct(ids) && forall i :: 0 < i <= |ids| ==> !crowded(ids[..i]))
    ensures init == OK ==> block == vtx && status == StatusOf(check(header, vtx))
  {
    hide Distinct, CountFree, PutIn, Scanned, SinglesKept, WeighedUpTo, AllKept, NoCollision, Rebuilt, MissingOf;
    var m := Announce(env, header, vtx);
    var part := new PartiallyDownloadedBlock();
    ghost var base, have, inPool, inExtra;
    assert Position(m.prefilled, 0) == 0;
    init, base, have, inPool, inExtra := part.InitData(env, m, isNull, crowded, pool, extra);
    status, block := init, [];
    if init == OK {
      AnnounceDescribes(env, header, vtx, base);
      SlotsAreRight(env, m, pool, extra, base, part.txn, have, vtx);
      ScannedSize(env, m.shortIds, pool, extra, base, part.txn, have);
      var missing := MissingOf(vtx, part.txn);
      RebuiltIsBlock(vtx, part.txn, missing);
      status, block := part.FillBlock(missing, check);
    }
  }

  lemma {:induction false} ScannedSize(env: Hashes, ids: seq<nat>, pool: seq<Tx>, extra: seq<(nat, Tx)>, base: Slots,
                                       txn: Slots, have: seq<bool>)
    requires Scanned(env, ids, pool, extra, base, txn, have)
    ensures |txn| == |base|
  {
  }

  lemma {:induction false} ExtraOffered(env: Hashes, pool: seq<Tx>, extra: seq<(nat, Tx)>, k: nat)
    requires k < |extra|
    ensures Offered(env, pool, extra, env.shortId(extra[k].0), extra[k].1)
  {
    assert (extra[k].0, extra[k].1) in extra;
  }

  lemma {:induction false} PutInSize(s: Slots, m: Message, i: nat)
    requires PutIn(s, m, i)
    ensures |s| == m.TxCount() && CountFree(s) == |s| - i
  {
  }

  lemma {:induction false} TableIds(ids: seq<nat>, base: Slots, table: map<nat, nat>, id: nat)
    requires Mapped(ids, base, table, |ids|)
    ensures id in table <==> id in ids
  {
    assert ids[..|ids|] == ids;
  }

  lemma {:induction false} NoneMapped(ids: seq<nat>, base: Slots)
    ensures CountFree(base[..0]) == 0 && Mapped(ids, base, map[], 0)
  {
  }

  lemma {:induction false} MappedSize(ids: seq<nat>, base: Slots, table: map<nat, nat>)
    requires Mapped(ids, base, table, |ids|)
    ensures |table| == |ids| <==> Distinct(ids)
  {
    assert ids[..|ids|] == ids;
  }

  // ----- Differential indexes -----

  /** Writes and reads rising index lists as distances from the one before. */
  class DifferenceFormatter {
    var shift: nat

    constructor ()
      ensures shift == 0
    {
      shift := 0;
    }

    method Ser(v: nat) returns (r: Option<nat>)
      modifies this
      ensures r.Some? <==> old(shift) <= v < UINT64_LIMIT - 1
      ensures r.Some? ==> old(shift) + r.value == v && shift == v + 1
      ensures r.None? ==> shift == old(shift)
    {
      if v < shift || v >= UINT64_LIMIT - 1 {
        return None;
      }
      r := Some(v - shift);
      shift := v + 1;
    }

    method Unser(n: nat, max: nat) returns (r: Option<nat>)
      requires n < UINT64_LIMIT && shift < UINT64_LIMIT
      modifies this
      ensures shift < UINT64_LIMIT
      ensures r.Some? <==> old(shift) + n < UINT64_LIMIT - 1 && old(shift) + n <= max
      ensures r.Some? ==> r.value == old(shift) + n && shift == r.value + 1
    {
      shift := (shift + n) % UINT64_LIMIT;
      if shift < n || shift >= UINT64_LIMIT - 1 || shift > max {
        return None;
      }
      r := Some(shift);
      shift := shift + 1;
    }

    method SerAll(indexes: seq<nat>) returns (r: Option<seq<nat>>)
      requires shift == 0
      modifies this
      ensures r.Some? <==> Rising(indexes) && forall i :: 0 <= i < |indexes| ==> indexes[i] < 0xffff_ffff_ffff_ffff
      ensures r.Some? ==> r.value == Differences(indexes)
    {
      var out := [];
      for i := 0 to |indexes|
        invariant shift == if i == 0 then 0 else indexes[i - 1] + 1
        invariant out == Differences(indexes[..i]) && Rising(indexes[..i])
        invariant forall k :: 0 <= k < i ==> indexes[k] < UINT64_LIMIT - 1
      {
        RisingNext(indexes, i);
        var d := Ser(indexes[i]);
        if d == None {
          return None;
        }
        assert indexes[..i + 1][..i] == indexes[..i];
        out := out + [d.value];
      }
      assert indexes[..|indexes|] == indexes;
      r := Some(out);
    }

    method UnserAll(distances: seq<nat>, max: nat) returns (r: Option<seq<nat>>)
      requires shift == 0 && forall i :: 0 <= i < |distances| ==> distances[i] < UINT64_LIMIT
      modifies this
      ensures r.Some? ==> IsListOf(r.value, distances, Largest(max))
      ensures r.None? ==> !exists s :: IsListOf(s, distances, Largest(max))
    {
      var out: seq<nat> := [];
      for i := 0 to |distances|
        invariant |out| == i && shift == if i == 0 then 0 else out[i - 1] + 1
        invariant shift < UINT64_LIMIT && Rising(out) && Differences(out) == distances[..i]
        invariant forall k :: 0 <= k < i ==> out[k] <= Largest(max)
      {
        var v := Unser(distances[i], max);
        if v == None {
          TooFar(out, distances, i, Largest(max));
          return None;
        }
        ghost var next := out + [v.value];
        assert next[..i] == out;
        assert distances[..i + 1] == distances[..i] + [distances[i]];
        out := out + [v.value];
      }
      assert distances[..|distances|] == distances;
      r := Some(out);
    }
  }

  /** The largest index of a type: the largest 64-bit number is not one. */
  ghost function Largest(max: nat): nat {
    if max < 0xffff_ffff_ffff_ffff then max else 0xffff_ffff_ffff_fffe
  }

  ghost predicate IsListOf(s: seq<nat>, distances: seq<nat>, max: nat) {
    Rising(s) && Differences(s) == distances && forall i :: 0 <= i < |s| ==> s[i] <= max
  }

  predicate Rising(s: seq<nat>) {
    s == [] || (Rising(s[..|s| - 1]) && (|s| > 1 ==> s[|s| - 2] < s[|s| - 1]))
  }

  /** The first index, then each index's distance beyond the one before. */
  function Differences(s: seq<nat>): seq<int> {
    if s == [] then []
    else
      var n := |s| - 1;
      var here: int, before: int := s[n], if n == 0 then -1 else s[n - 1];
      Differences(s[..n]) + [here - before - 1]
  }

  lemma {:induction false} RisingPrefix(s: seq<nat>, i: nat)
    requires i <= |s| && Rising(s)
    ensures Rising(s[..i]) && |Differences(s)| == |s| && Differences(s[..i]) == Differences(s)[..i]
  {
    if i < |s| {
      RisingPrefix(s[..|s| - 1], i);
      assert s[..|s| - 1][..i] == s[..i];
      DifferencesLength(s);
      DifferencesLength(s[..|s| - 1]);
    } else {
      assert s[..i] == s;
      DifferencesLength(s);
    }
  }

  lemma {:induction false} DifferencesLength(s: seq<nat>)
    ensures |Differences(s)| == |s|
  {
    if s != [] { DifferencesLength(s[..|s| - 1]); }
  }

  lemma {:induction false} RisingNext(s: seq<nat>, i: nat)
    requires i < |s| && Rising(s[..i])
    ensures Rising(s[..i + 1]) <==> i == 0 || s[i - 1] < s[i]
    ensures i > 0 && s[i - 1] >= s[i] ==> !Rising(s)
  {
    assert s[..i + 1][..i] == s[..i];
    if Rising(s) { RisingPrefix(s, i + 1); }
  }

  /** Rising lists are told apart by their distances: nothing is lost in between. */
  lemma {:induction false} DifferencesInjective(s: seq<nat>, t: seq<nat>)
    requires Differences(s) == Differences(t)
    ensures s == t
  {
    DifferencesLength(s);
    DifferencesLength(t);
    if s != [] {
      var n := |s| - 1;
      var a, b := Differences(s[..n]), Differences(t[..n]);
      DifferencesLength(s[..n]);
      DifferencesLength(t[..n]);
      assert a == Differences(s)[..n] && b == Differences(t)[..n];
      DifferencesInjective(s[..n], t[..n]);
      if n > 0 { assert s[..n][n - 1] == t[..n][n - 1]; }
      assert s == s[..n] + [s[n]] && t == t[..n] + [t[n]];
    }
  }

  lemma {:induction false} TooFar(out: seq<nat>, distances: seq<nat>, i: nat, max: nat)
    requires |out| == i < |distances| && Rising(out) && Differences(out) == distances[..i]
    requires (if i == 0 then 0 else out[i - 1] + 1) + distances[i] > max
    ensures !exists s :: IsListOf(s, distances, max)
  {
    forall s: seq<nat> | Rising(s) && Differences(s) == distances ensures exists k :: 0 <= k < |s| && s[k] > max {
      DifferencesLength(s);
      RisingPrefix(s, i);
      RisingPrefix(s, i + 1);
      DifferencesInjective(s[..i], out);
      assert s[..i + 1][..i] == s[..i];
      assert Differences(s[..i + 1])[i] == distances[i];
      assert s[i] > max;
    }
  }
}
