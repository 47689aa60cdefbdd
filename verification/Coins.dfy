/** The UTXO cache hierarchy of src/coins.h and src/coins.cpp.

    A `CoinsViewCache` is a write-back cache with DIRTY and FRESH flags over another view:
    a further cache, or the coins database at the bottom.  The specification of a stack is
    the plain map from outpoints to unspent coins that each level stands for: `Top()` for the
    level itself and `Below()` for those under it.
 */
module Coins {
  const OP_RETURN := 0x6a
  const MAX_SCRIPT_SIZE := 10000
  const DIRECT_SCRIPT_BYTES := 28  // bytes a CScript stores without allocating

  datatype Option<T> = None | Some(value: T)

  datatype OutPoint = OutPoint(hash: nat, n: nat)

  datatype TxOut = TxOut(value: int, scriptPubKey: seq<nat>)

  datatype Coin = Coin(out: TxOut, coinBase: bool, height: nat) {
    predicate IsSpent() { out.value == -1 }

    predicate IsUnspendable() {
      || (|out.scriptPubKey| > 0 && out.scriptPubKey[0] == OP_RETURN)
      || |out.scriptPubKey| > MAX_SCRIPT_SIZE
    }

    /** Heap bytes of the script, for a script stored at its exact size. */
    function DynamicMemoryUsage(): nat {
      if |out.scriptPubKey| <= DIRECT_SCRIPT_BYTES then 0
      else (|out.scriptPubKey| + 31) / 16 * 16
    }
  }

  /** No heap memory up to 28 bytes, and the least multiple of 16 that leaves 16 bytes to the allocator above. */
  lemma {:induction false} UsageIs(c: Coin)
    ensures var n, usage := |c.out.scriptPubKey|, c.DynamicMemoryUsage();
            if n <= 28 then usage == 0 else usage % 16 == 0 && n + 16 <= usage < n + 32
  {
  }

  const COIN_EMPTY := Coin(TxOut(-1, []), false, 0)

  datatype Entry = Entry(coin: Coin, isDirty: bool, isFresh: bool)

  type CoinsMap = map<OutPoint, Entry>
  type View = map<OutPoint, Coin>

  /** What a level of the stack stands for: a plain map of unspent coins, and its best block. */
  datatype Level = Level(view: View, best: nat)

  function At<K, V>(m: map<K, V>, k: K): Option<V> {
    if k in m then Some(m[k]) else None
  }

  // ----- One outpoint: a cache entry over what the view below holds -----

  /** What a level shows at one outpoint, given its own entry and the view below. */
  function Look(e: Option<Entry>, below: Option<Coin>): Option<Coin> {
    match e
    case None => below
    case Some(entry) => if entry.coin.IsSpent() then None else Some(entry.coin)
  }

  /** The five flag combinations that SanityCheck accepts. */
  ghost predicate FlagsSane(e: Entry) {
    && !(!e.isDirty && e.isFresh && !e.coin.IsSpent())
    && !(!e.isDirty && !e.isFresh && e.coin.IsSpent())
    && !(e.isDirty && e.isFresh && e.coin.IsSpent())
  }

  /** FRESH: nothing unspent below.  Not DIRTY: the same content as below. */
  ghost predicate EntryOk(e: Entry, below: Option<Coin>) {
    && FlagsSane(e)
    && (e.isFresh ==> below == None)
    && (!e.isDirty ==> Look(Some(e), below) == below)
  }

  /** BatchWrite's treatment of one child entry against the parent's own entry. */
  function MergeEntry(child: Entry, us: Option<Entry>): Option<Entry> {
    if !child.isDirty then us
    else match us
      case None =>
        if child.isFresh && child.coin.IsSpent() then None
        else Some(Entry(child.coin, true, child.isFresh))
      case Some(own) =>
        if own.isFresh && child.coin.IsSpent() then None
        else Some(Entry(child.coin, true, own.isFresh))
  }

  /** The child says that nothing unspent is below, and the parent has it. */
  predicate Misapplied(child: Entry, us: Option<Entry>) {
    child.isDirty && child.isFresh && us.Some? && !us.value.coin.IsSpent()
  }

  ghost predicate NoneMisapplied(mapCoins: CoinsMap, cache: CoinsMap) {
    forall o :: o in mapCoins ==> !Misapplied(mapCoins[o], At(cache, o))
  }

  /** Merging keeps the parent's flags meaningful and makes the parent show what the child shows. */
  lemma MergeEntryCorrect(child: Entry, us: Option<Entry>, below: Option<Coin>)
    requires us.Some? ==> EntryOk(us.value, below)
    requires EntryOk(child, Look(us, below))
    ensures Look(MergeEntry(child, us), below) == Look(Some(child), Look(us, below))
    ensures MergeEntry(child, us).Some? ==> EntryOk(MergeEntry(child, us).value, below)
    ensures !Misapplied(child, us)
  {
  }

  /** The entry that AddCoin leaves: FRESH survives, and is set when no unflushed spend is covered. */
  function AddedEntry(was: Option<Entry>, coin: Coin, possibleOverwrite: bool): Entry {
    var wasFresh := was.Some? && was.value.isFresh;
    var wasDirty := was.Some? && was.value.isDirty;
    Entry(coin, true, wasFresh || (!possibleOverwrite && !wasDirty))
  }

  /** Its flags are right exactly unless the coin was below and neither announced nor cached. */
  lemma AddedEntryOk(was: Option<Entry>, coin: Coin, possibleOverwrite: bool, below: Option<Coin>)
    requires was.Some? ==> EntryOk(was.value, below)
    requires !coin.IsSpent()
    requires !possibleOverwrite && was.Some? ==> was.value.coin.IsSpent()
    ensures EntryOk(AddedEntry(was, coin, possibleOverwrite), below) <==>
            possibleOverwrite || was.Some? || below == None
  {
  }

  // ----- Whole maps -----

  ghost function Overlay(cache: CoinsMap, base: View): View {
    map o | o in cache.Keys + base.Keys && Look(At(cache, o), At(base, o)).Some?
      :: Look(At(cache, o), At(base, o)).value
  }

  lemma OverlayAt(cache: CoinsMap, base: View, o: OutPoint)
    ensures At(Overlay(cache, base), o) == Look(At(cache, o), At(base, o))
  {
  }

  lemma SameView(v: View, w: View)
    requires forall o :: At(v, o) == At(w, o)
    ensures v == w
  {
    forall o ensures o in v <==> o in w { assert At(v, o) == At(w, o); }
    forall o | o in v ensures v[o] == w[o] { assert At(v, o) == At(w, o); }
  }

  lemma OverlayUnique(cache: CoinsMap, base: View, v: View)
    requires forall o :: At(v, o) == Look(At(cache, o), At(base, o))
    ensures Overlay(cache, base) == v
  {
    forall o ensures At(Overlay(cache, base), o) == At(v, o) { OverlayAt(cache, base, o); }
    SameView(Overlay(cache, base), v);
  }

  ghost predicate EntriesOk(cache: CoinsMap, base: View) {
    forall o :: o in cache ==> EntryOk(cache[o], At(base, o))
  }

  /** The bytes held by all entries, as SanityCheck recomputes them. */
  ghost function TotalUsage(m: CoinsMap): nat {
    if m == map[] then 0
    else
      var o :| o in m;
      m[o].coin.DynamicMemoryUsage() + TotalUsage(m - {o})
  }

  lemma {:induction false} TotalUsageSplit(m: CoinsMap, o: OutPoint)
    requires o in m
    ensures TotalUsage(m) == m[o].coin.DynamicMemoryUsage() + TotalUsage(m - {o})
    decreases |m|
  {
    var p :| p in m && TotalUsage(m) == m[p].coin.DynamicMemoryUsage() + TotalUsage(m - {p});
    if p != o {
      TotalUsageSplit(m - {p}, o);
      TotalUsageSplit(m - {o}, p);
      assert m - {p} - {o} == m - {o} - {p};
    }
  }

  function UsageAt(cache: CoinsMap, o: OutPoint): nat {
    if o in cache then cache[o].coin.DynamicMemoryUsage() else 0
  }

  lemma UsageErase(m: CoinsMap, o: OutPoint)
    ensures UsageAt(m, o) <= TotalUsage(m)
    ensures TotalUsage(m - {o}) == TotalUsage(m) - UsageAt(m, o)
  {
    if o in m { TotalUsageSplit(m, o); } else { assert m - {o} == m; }
  }

  lemma UsageStore(m: CoinsMap, o: OutPoint, e: Entry)
    ensures UsageAt(m, o) <= TotalUsage(m)
    ensures TotalUsage(m[o := e]) == TotalUsage(m) - UsageAt(m, o) + e.coin.DynamicMemoryUsage()
  {
    UsageErase(m, o);
    TotalUsageSplit(m[o := e], o);
    assert m[o := e] - {o} == m - {o};
  }

  /** What one level promises over the view below it. */
  ghost predicate LevelOk(cache: CoinsMap, usage: nat, base: View) {
    EntriesOk(cache, base) && usage == TotalUsage(cache)
  }

  function Put(v: View, o: OutPoint, c: Option<Coin>): View {
    if c.Some? then v[o := c.value] else v - {o}
  }

  lemma OverlayStore(cache: CoinsMap, base: View, o: OutPoint, e: Entry)
    ensures Overlay(cache[o := e], base) == Put(Overlay(cache, base), o, Look(Some(e), At(base, o)))
  {
    var v := Put(Overlay(cache, base), o, Look(Some(e), At(base, o)));
    forall p ensures At(v, p) == Look(At(cache[o := e], p), At(base, p)) { OverlayAt(cache, base, p); }
    OverlayUnique(cache[o := e], base, v);
  }

  /** One entry decides whether the flags stay right. */
  lemma AddedLevel(cache: CoinsMap, base: View, o: OutPoint, e: Entry)
    requires EntriesOk(cache, base)
    ensures EntriesOk(cache[o := e], base) <==> EntryOk(e, At(base, o))
  {
    assert o in cache[o := e];
  }

  /** Storing one good entry keeps the level and changes its view at that outpoint only. */
  lemma StoreEntry(cache: CoinsMap, usage: nat, base: View, o: OutPoint, e: Entry)
    requires LevelOk(cache, usage, base)
    requires EntryOk(e, At(base, o))
    ensures UsageAt(cache, o) <= usage
    ensures LevelOk(cache[o := e], usage - UsageAt(cache, o) + e.coin.DynamicMemoryUsage(), base)
    ensures Overlay(cache[o := e], base) == Put(Overlay(cache, base), o, Look(Some(e), At(base, o)))
  {
    UsageStore(cache, o, e);
    OverlayStore(cache, base, o, e);
  }

  /** Erasing an entry keeps the level and uncovers what is below. */
  lemma EraseEntry(cache: CoinsMap, usage: nat, base: View, o: OutPoint)
    requires LevelOk(cache, usage, base)
    ensures UsageAt(cache, o) <= usage
    ensures LevelOk(cache - {o}, usage - UsageAt(cache, o), base)
    ensures Overlay(cache - {o}, base) == Put(Overlay(cache, base), o, At(base, o))
  {
    UsageErase(cache, o);
    var v := Put(Overlay(cache, base), o, At(base, o));
    forall p ensures At(v, p) == Look(At(cache - {o}, p), At(base, p)) { OverlayAt(cache, base, p); }
    OverlayUnique(cache - {o}, base, v);
  }

  lemma PutSame(v: View, o: OutPoint)
    ensures Put(v, o, At(v, o)) == v
  {
  }

  /** What Sync leaves of an entry. */
  function Synced(e: Option<Entry>): Option<Entry> {
    if e.Some? && !e.value.coin.IsSpent() then Some(Entry(e.value.coin, false, false)) else None
  }

  /** Once the parent shows what the child showed, the synced child is consistent and shows the same. */
  lemma SyncedView(cache: CoinsMap, synced: CoinsMap, base: View)
    requires forall o :: At(synced, o) == Synced(At(cache, o))
    ensures EntriesOk(synced, Overlay(cache, base))
    ensures Overlay(synced, Overlay(cache, base)) == Overlay(cache, base)
  {
    var v := Overlay(cache, base);
    forall o
      ensures o in synced ==> EntryOk(synced[o], At(v, o))
      ensures At(v, o) == Look(At(synced, o), At(v, o))
    {
      assert At(synced, o) == Synced(At(cache, o));
      OverlayAt(cache, base, o);
    }
    OverlayUnique(synced, v, v);
  }

  /** The entries of `mapCoins` but those in `todo` are merged into `before`. */
  ghost predicate Merged(mapCoins: CoinsMap, todo: set<OutPoint>, before: CoinsMap, after: CoinsMap) {
    forall o :: At(after, o) == if o in mapCoins && o !in todo then MergeEntry(mapCoins[o], At(before, o))
      else At(before, o)
  }

  /** Flags that are right about a view are not misapplied to the cache that shows it. */
  lemma RightFlagsMerge(mapCoins: CoinsMap, cache: CoinsMap, base: View)
    requires EntriesOk(cache, base) && EntriesOk(mapCoins, Overlay(cache, base))
    ensures NoneMisapplied(mapCoins, cache)
  {
    forall o | o in mapCoins ensures !Misapplied(mapCoins[o], At(cache, o)) {
      OverlayAt(cache, base, o);
      MergeEntryCorrect(mapCoins[o], At(cache, o), At(base, o));
    }
  }

  /** A parent that merged every entry of a child is consistent and shows what the child showed. */
  lemma MergeAll(mapCoins: CoinsMap, before: CoinsMap, after: CoinsMap, base: View)
    requires EntriesOk(before, base)
    requires EntriesOk(mapCoins, Overlay(before, base))
    requires Merged(mapCoins, {}, before, after)
    ensures EntriesOk(after, base)
    ensures Overlay(after, base) == Overlay(mapCoins, Overlay(before, base))
  {
    var v := Overlay(mapCoins, Overlay(before, base));
    forall o
      ensures At(v, o) == Look(At(after, o), At(base, o))
      ensures o in after ==> EntryOk(after[o], At(base, o))
    {
      assert At(after, o) == if o in mapCoins then MergeEntry(mapCoins[o], At(before, o)) else At(before, o);
      OverlayAt(before, base, o);
      OverlayAt(mapCoins, Overlay(before, base), o);
      if o in mapCoins { MergeEntryCorrect(mapCoins[o], At(before, o), At(base, o)); }
    }
    OverlayUnique(after, base, v);
  }

  // ----- The coins database -----

  /** A database with the DIRTY entries of `mapCoins`, but those of `left`, written over `base`. */
  ghost predicate Committed(mapCoins: CoinsMap, left: set<OutPoint>, base: View, coins: View) {
    forall o :: At(coins, o) == if o in mapCoins && o !in left && mapCoins[o].isDirty then Look(Some(mapCoins[o]), None)
                                else At(base, o)
  }

  ghost predicate NoneSpent(coins: View) { forall o :: o in coins ==> !coins[o].IsSpent() }

  /** One entry in a batch. */
  function Write(coins: View, o: OutPoint, e: Entry): View {
    if !e.isDirty then coins else if e.coin.IsSpent() then coins - {o} else coins[o := e.coin]
  }

  lemma CommitNext(mapCoins: CoinsMap, todo: set<OutPoint>, base: View, coins: View, o: OutPoint)
    requires Committed(mapCoins, todo, base, coins) && NoneSpent(coins) && o in mapCoins && o in todo
    ensures Committed(mapCoins, todo - {o}, base, Write(coins, o, mapCoins[o]))
            && NoneSpent(Write(coins, o, mapCoins[o]))
  {
  }

  lemma CommitNone(mapCoins: CoinsMap, base: View)
    ensures Committed(mapCoins, mapCoins.Keys, base, base)
  {
  }

  /** Writing everything over a part of it is writing everything. */
  lemma CommitAgain(mapCoins: CoinsMap, left: set<OutPoint>, base: View, part: View, coins: View)
    requires Committed(mapCoins, left, base, part) && Committed(mapCoins, {}, part, coins)
    ensures Committed(mapCoins, {}, base, coins)
  {
  }

  /** Writing some over a part is writing some. */
  lemma CommitMore(mapCoins: CoinsMap, left: set<OutPoint>, more: set<OutPoint>, base: View, part: View, coins: View)
    returns (both: set<OutPoint>)
    requires Committed(mapCoins, left, base, part)
    requires coins == part || Committed(mapCoins, more, part, coins)
    ensures Committed(mapCoins, both, base, coins)
  {
    both := if coins == part then left else left * more;
  }

  /** With flags that are right about the base, that is what the cache showed. */
  lemma CommittedView(mapCoins: CoinsMap, base: View, coins: View)
    requires Committed(mapCoins, {}, base, coins) && EntriesOk(mapCoins, base)
    ensures coins == Overlay(mapCoins, base)
  {
    forall o ensures At(coins, o) == Look(At(mapCoins, o), At(base, o)) {
      assert o in mapCoins ==> EntryOk(mapCoins[o], At(base, o));
    }
    OverlayUnique(mapCoins, base, coins);
  }

  class CoinsViewDB {
    var coins: View
    var bestBlock: nat
    var headBlocks: seq<nat>  // the target and the start of a transition that is under way

    ghost predicate Valid()
      reads this
    {
      NoneSpent(coins) && (headBlocks == [] || (|headBlocks| == 2 && bestBlock == 0))
    }

    /** No transition is under way. */
    ghost predicate Settled()
      reads this
    {
      Valid() && headBlocks == []
    }

    constructor (coins: View, bestBlock: nat)
      requires NoneSpent(coins)
      ensures Settled() && this.coins == coins && this.bestBlock == bestBlock
    {
      this.coins, this.bestBlock, headBlocks := coins, bestBlock, [];
    }

    /** A transition to another block is under way, which BatchWrite does not survive. */
    ghost predicate Elsewhere(hashBlock: nat)
      reads this
    {
      bestBlock == 0 && |headBlocks| == 2 && headBlocks[0] != hashBlock
    }

    /** The block the coins belong to, or did when the transition under way began. */
    ghost function OldTip(): nat
      reads this
    {
      if bestBlock == 0 && |headBlocks| == 2 then headBlocks[1] else bestBlock
    }

    method FindOldTip(hashBlock: nat) returns (ok: bool, oldTip: nat)
      ensures ok <==> !Elsewhere(hashBlock)
      ensures ok ==> oldTip == OldTip()
    {
      ok, oldTip := true, bestBlock;
      if oldTip == 0 && |headBlocks| == 2 {
        if headBlocks[0] != hashBlock { return false, 0; }
        oldTip := headBlocks[1];
      }
    }

    /** The batches of BatchWrite, of which only the first `budget` reach the disk before the process dies.  A batch is
        written whole or not at all; what is in it so far is the difference of `ahead` from `coins`. */
    method WriteBatches(mapCoins: CoinsMap, hashBlock: nat, erase: bool, budget: nat)
      returns (crashed: bool, rest: CoinsMap, ghost left: set<OutPoint>, ghost batches: nat)
      requires Valid() && hashBlock != 0
      modifies this
      ensures Valid()
      ensures !crashed ==> bestBlock == hashBlock && headBlocks == [] && Committed(mapCoins, {}, old(coins), coins)
      ensures !crashed ==> rest == if erase then map[] else mapCoins
      ensures crashed ==>
        || (coins == old(coins) && bestBlock == old(bestBlock) && headBlocks == old(headBlocks))
        || (&& Committed(mapCoins, left, old(coins), coins)
            && bestBlock == 0 && headBlocks == [hashBlock, old(OldTip())])
      ensures old(Elsewhere(hashBlock)) ==>
        crashed && coins == old(coins) && bestBlock == old(bestBlock) && headBlocks == old(headBlocks)
      ensures crashed <==> old(Elsewhere(hashBlock)) || batches > budget
      ensures batches <= |mapCoins| + 1
      ensures crashed && budget > 0 && !old(Elsewhere(hashBlock)) ==> headBlocks == [hashBlock, old(OldTip())]
    {
      hide Committed, NoneSpent, Write, OldTip, Elsewhere;
      rest, left, crashed, batches := mapCoins, mapCoins.Keys, true, 0;
      var ok, oldTip := FindOldTip(hashBlock);
      if !ok { return; }
      var todo, ahead, written := mapCoins.Keys, coins, 0;
      CommitNone(mapCoins, coins);
      while todo != {}
        invariant todo <= mapCoins.Keys
        invariant rest == if erase then mapCoins - (mapCoins.Keys - todo) else mapCoins
        invariant NoneSpent(ahead) && Committed(mapCoins, todo, old(coins), ahead)
        invariant NoneSpent(coins) && Committed(mapCoins, left, old(coins), coins)
        invariant written == batches <= budget && written + |todo| <= |mapCoins|
        invariant if written == 0
                  then coins == old(coins) && bestBlock == old(bestBlock) && headBlocks == old(headBlocks)
                  else bestBlock == 0 && headBlocks == [hashBlock, oldTip]
      {
        var o :| o in todo;
        CommitNext(mapCoins, todo, old(coins), ahead, o);
        ahead := Write(ahead, o, mapCoins[o]);
        if erase { rest := rest - {o}; }
        todo := todo - {o};
        var isFull: bool := *;
        if isFull {
          batches := batches + 1;
          if written == budget { return; }
          coins, bestBlock, headBlocks, written, left := ahead, 0, [hashBlock, oldTip], written + 1, todo;
        }
      }
      batches := batches + 1;
      if written == budget { return; }
      coins, bestBlock, headBlocks, crashed := ahead, hashBlock, [], false;
    }

    /** Writes the DIRTY entries; `rest` is what is left of the caller's map. */
    method BatchWrite(mapCoins: CoinsMap, hashBlock: nat, erase: bool) returns (ok: bool, rest: CoinsMap)
      requires Settled() && hashBlock != 0
      requires EntriesOk(mapCoins, coins)
      modifies this
      ensures Settled() && ok
      ensures coins == Overlay(mapCoins, old(coins))
      ensures bestBlock == hashBlock
      ensures rest == if erase then map[] else mapCoins
    {
      var crashed;
      ghost var left, batches;
      crashed, rest, left, batches := WriteBatches(mapCoins, hashBlock, erase, |mapCoins| + 1);
      ok := !crashed;
      CommittedView(mapCoins, old(coins), coins);
    }

    /** However often the process dies in the middle, writing the same changes again ends with what one
        uninterrupted write gives. */
    method WriteThrough(mapCoins: CoinsMap, hashBlock: nat, budgets: seq<nat>)
      requires Settled() && hashBlock != 0
      requires EntriesOk(mapCoins, coins)
      modifies this
      ensures Settled() && bestBlock == hashBlock
      ensures coins == Overlay(mapCoins, old(coins))
    {
      ghost var left := mapCoins.Keys;
      for i := 0 to |budgets|
        invariant Valid() && !Elsewhere(hashBlock) && Committed(mapCoins, left, old(coins), coins)
      {
        ghost var part := coins;
        var crashed, rest;
        ghost var more, batches;
        crashed, rest, more, batches := WriteBatches(mapCoins, hashBlock, false, budgets[i]);
        left := CommitMore(mapCoins, left, if crashed then more else {}, old(coins), part, coins);
      }
      ghost var part := coins;
      var crashed, rest;
      ghost var more, batches;
      crashed, rest, more, batches := WriteBatches(mapCoins, hashBlock, false, |mapCoins| + 1);
      CommitAgain(mapCoins, left, old(coins), part, coins);
      CommittedView(mapCoins, old(coins), coins);
    }
  }

  // ----- A cache over another view -----

  /** The best block of the first level that has one. */
  ghost function Best(levels: seq<Level>): nat {
    if levels == [] then 0 else if levels[0].best != 0 then levels[0].best else Best(levels[1..])
  }

  ghost predicate SameViews(a: seq<Level>, b: seq<Level>) {
    |a| == |b| && forall i :: 0 <= i < |a| ==> a[i].view == b[i].view
  }

  datatype Base = OnDatabase(db: CoinsViewDB) | OnCache(cache: CoinsViewCache)

  class CoinsViewCache {
    const base: Base
    var hashBlock: nat
    var cacheCoins: CoinsMap
    var cachedCoinsUsage: nat
    ghost const Repr: set<object>

    /** Ownership: the levels form a list that ends in a database. */
    ghost predicate Linked()
      decreases Repr
    {
      && this in Repr
      && match base
         case OnDatabase(db) => Repr == {this, db}
         case OnCache(c) => this !in c.Repr && c in c.Repr && Repr == {this} + c.Repr && c.Linked()
    }

    /** What the levels under this one stand for, down to the database. */
    ghost function Below(): (levels: seq<Level>)
      requires Linked()
      reads Repr - {this}
      ensures |levels| >= 1
      decreases Repr, 0
    {
      match base
      case OnDatabase(db) => [Level(db.coins, db.bestBlock)]
      case OnCache(c) => [c.Top()] + c.Below()
    }

    ghost predicate BelowValid()
      requires Linked()
      reads Repr - {this}
      decreases Repr, 0
    {
      match base
      case OnDatabase(db) => db.Settled()
      case OnCache(c) => c.Valid()
    }

    /** What this level stands for. */
    ghost function Top(): Level
      requires Linked()
      reads Repr
      decreases Repr, 1
    {
      Level(Overlay(cacheCoins, Below()[0].view), hashBlock)
    }

    /** At every level: the flags are right about the view below, and the usage is exact. */
    ghost predicate Valid()
      reads this, Repr
      decreases Repr, 1
    {
      && Linked()
      && LevelOk(cacheCoins, cachedCoinsUsage, Below()[0].view)
      && BelowValid()
    }

    constructor (base: Base)
      requires base.OnDatabase? ==> base.db.Settled()
      requires base.OnCache? ==> base.cache.Valid()
      ensures Valid() && this.base == base && cacheCoins == map[]
      ensures Top() == Level(Below()[0].view, 0)
      ensures Below() == match base
                         case OnDatabase(db) => [Level(db.coins, db.bestBlock)]
                         case OnCache(c) => [c.Top()] + c.Below()
    {
      this.base := base;
      hashBlock, cacheCoins, cachedCoinsUsage := 0, map[], 0;
      ghost var below: set<object> := match base case OnDatabase(db) => {db} case OnCache(c) => c.Repr;
      Repr := {this} + below;
      new;
      OverlayUnique(map[], Below()[0].view, Below()[0].view);
    }

    /** The virtual call base->GetCoin. */
    method BaseGetCoin(o: OutPoint) returns (found: bool, coin: Coin)
      requires Linked() && BelowValid()
      modifies Repr - {this}
      ensures BelowValid() && Below() == old(Below())
      ensures found <==> o in Below()[0].view
      ensures found ==> coin == Below()[0].view[o] && !coin.IsSpent()
      decreases Repr, 0
    {
      match base {
        case OnDatabase(db) =>
          found := o in db.coins;
          coin := if found then db.coins[o] else COIN_EMPTY;
        case OnCache(c) =>
          found, coin := c.GetCoin(o);
      }
    }

    /** Looks up an entry, filling this cache (and those below) from the base. */
    method FetchCoin(o: OutPoint) returns (found: bool)
      requires Valid()
      modifies Repr
      ensures Valid() && Top() == old(Top()) && Below() == old(Below())
      ensures found <==> o in cacheCoins
      ensures cacheCoins ==
              if o !in old(cacheCoins) && o in old(Below())[0].view
              then old(cacheCoins)[o := Entry(old(Below())[0].view[o], false, false)]
              else old(cacheCoins)
      decreases Repr, 1
    {
      if o in cacheCoins { return true; }
      var haveCoin, tmp := BaseGetCoin(o);
      if !haveCoin { return false; }
      var entry := Entry(tmp, false, tmp.IsSpent());
      StoreEntry(cacheCoins, cachedCoinsUsage, Below()[0].view, o, entry);
      OverlayAt(cacheCoins, Below()[0].view, o);
      PutSame(Overlay(cacheCoins, Below()[0].view), o);
      cacheCoins, cachedCoinsUsage := cacheCoins[o := entry], cachedCoinsUsage + tmp.DynamicMemoryUsage();
      found := true;
    }

    method GetCoin(o: OutPoint) returns (found: bool, coin: Coin)
      requires Valid()
      modifies Repr
      ensures Valid() && Top() == old(Top()) && Below() == old(Below())
      ensures found <==> o in Top().view
      ensures found ==> coin == Top().view[o] && !coin.IsSpent()
      decreases Repr, 2
    {
      var present := FetchCoin(o);
      OverlayAt(cacheCoins, Below()[0].view, o);
      if !present { return false, COIN_EMPTY; }
      coin := cacheCoins[o].coin;
      found := !coin.IsSpent();
    }

    method HaveCoin(o: OutPoint) returns (have: bool)
      requires Valid()
      modifies Repr
      ensures Valid() && Top() == old(Top()) && Below() == old(Below())
      ensures have <==> o in Top().view
    {
      var present := FetchCoin(o);
      OverlayAt(cacheCoins, Below()[0].view, o);
      have := present && !cacheCoins[o].coin.IsSpent();
    }

    /** Adds an unspent coin.  Without `possibleOverwrite`, an unspent coin that this cache holds makes the call fail,
        which leaves the running usage short; one that only the levels below hold goes unnoticed, which leaves
        the FRESH flag wrong. */
    method AddCoin(o: OutPoint, coin: Coin, possibleOverwrite: bool) returns (ok: bool)
      requires Valid() && !coin.IsSpent()
      modifies this
      ensures Below() == old(Below())
      ensures ok <==>
        coin.IsUnspendable() || possibleOverwrite || o !in old(cacheCoins) || old(cacheCoins)[o].coin.IsSpent()
      ensures ok ==>
        (Valid() <==> coin.IsUnspendable() || possibleOverwrite || o in old(cacheCoins) || o !in Below()[0].view)
      ensures ok ==>
        Top() == if coin.IsUnspendable() then old(Top()) else Level(old(Top()).view[o := coin], old(hashBlock))
      ensures ok && !coin.IsUnspendable() ==>
        cacheCoins == old(cacheCoins)[o := AddedEntry(At(old(cacheCoins), o), coin, possibleOverwrite)]
      ensures !ok || coin.IsUnspendable() ==> cacheCoins == old(cacheCoins) && Top() == old(Top())
      ensures !ok ==>
        && o in cacheCoins && cachedCoinsUsage + cacheCoins[o].coin.DynamicMemoryUsage() == old(cachedCoinsUsage)
        && (Valid() <==> cacheCoins[o].coin.DynamicMemoryUsage() == 0)
    {
      if coin.IsUnspendable() { return true; }
      if !possibleOverwrite && o in cacheCoins && !cacheCoins[o].coin.IsSpent() {
        UsageErase(cacheCoins, o);
        cachedCoinsUsage := cachedCoinsUsage - cacheCoins[o].coin.DynamicMemoryUsage();
        return false;
      }
      StoreCoin(o, coin, possibleOverwrite);
      ok := true;
    }

    /** AddCoin once the check for an overwrite has passed. */
    method StoreCoin(o: OutPoint, coin: Coin, possibleOverwrite: bool)
      requires Valid()
      requires !coin.IsSpent() && !coin.IsUnspendable()
      requires !possibleOverwrite && o in cacheCoins ==> cacheCoins[o].coin.IsSpent()
      modifies this
      ensures Below() == old(Below())
      ensures Valid() <==> possibleOverwrite || o in old(cacheCoins) || o !in Below()[0].view
      ensures Top() == Level(old(Top()).view[o := coin], old(hashBlock))
      ensures cacheCoins == old(cacheCoins)[o := AddedEntry(At(old(cacheCoins), o), coin, possibleOverwrite)]
    {
      ghost var below, added := Below()[0].view, AddedEntry(At(cacheCoins, o), coin, possibleOverwrite);
      OverlayStore(cacheCoins, below, o, added);
      UsageStore(cacheCoins, o, added);
      AddedEntryOk(At(cacheCoins, o), coin, possibleOverwrite, At(below, o));
      AddedLevel(cacheCoins, below, o, added);
      var entry := if o in cacheCoins then cacheCoins[o] else Entry(COIN_EMPTY, false, false);
      var usage := if o in cacheCoins then cachedCoinsUsage - entry.coin.DynamicMemoryUsage() else cachedCoinsUsage;
      var isFresh := false;
      if !possibleOverwrite {
        assert entry.coin.IsSpent();
        isFresh := !entry.isDirty;
      }
      entry := Entry(coin, true, entry.isFresh || isFresh);
      assert entry == added;
      cacheCoins, cachedCoinsUsage := cacheCoins[o := entry], usage + coin.DynamicMemoryUsage();
    }

    /** Spends a coin.  `spent` only tells whether there was an entry to act on. */
    method SpendCoin(o: OutPoint) returns (spent: bool, moveout: Coin)
      requires Valid()
      modifies Repr
      ensures Valid()
      ensures Top() == Level(old(Top()).view - {o}, old(hashBlock)) && Below() == old(Below())
      ensures spent <==> o in old(cacheCoins) || o in old(Top()).view
      ensures o in old(Top()).view ==> moveout == old(Top()).view[o]
      ensures o !in old(Top()).view ==> moveout.IsSpent()
      ensures o in cacheCoins ==> cacheCoins[o] == Entry(Coin(TxOut(-1, []), false, 0), true, false)
    {
      OverlayAt(cacheCoins, Below()[0].view, o);
      spent := FetchCoin(o);
      if !spent {
        PutSame(Top().view, o);
        return false, COIN_EMPTY;
      }
      moveout := SpendEntry(o);
    }

    /** SpendCoin once the entry is in this cache. */
    method SpendEntry(o: OutPoint) returns (moveout: Coin)
      requires Valid()
      requires o in cacheCoins
      modifies this
      ensures Valid()
      ensures Top() == Level(old(Top()).view - {o}, old(hashBlock)) && Below() == old(Below())
      ensures moveout == old(cacheCoins)[o].coin
      ensures At(old(Top()).view, o) == if moveout.IsSpent() then None else Some(moveout)
      ensures cacheCoins == if old(cacheCoins)[o].isFresh then old(cacheCoins) - {o}
                            else old(cacheCoins)[o := Entry(Coin(TxOut(-1, []), false, 0), true, false)]
    {
      ghost var below := Below()[0].view;
      OverlayAt(cacheCoins, below, o);
      moveout := cacheCoins[o].coin;
      if cacheCoins[o].isFresh {
        EraseEntry(cacheCoins, cachedCoinsUsage, below, o);
        cacheCoins, cachedCoinsUsage := cacheCoins - {o}, cachedCoinsUsage - moveout.DynamicMemoryUsage();
      } else {
        StoreEntry(cacheCoins, cachedCoinsUsage, below, o, Entry(COIN_EMPTY, true, false));
        cacheCoins, cachedCoinsUsage :=
          cacheCoins[o := Entry(COIN_EMPTY, true, false)], cachedCoinsUsage - moveout.DynamicMemoryUsage();
      }
    }

    /** Drops an unmodified entry. */
    method Uncache(o: OutPoint)
      requires Valid()
      modifies this
      ensures Valid() && Top() == old(Top()) && Below() == old(Below())
      ensures cacheCoins ==
              if o in old(cacheCoins) && !old(cacheCoins)[o].isDirty && !old(cacheCoins)[o].isFresh
              then old(cacheCoins) - {o} else old(cacheCoins)
    {
      if o in cacheCoins && !cacheCoins[o].isDirty && !cacheCoins[o].isFresh {
        EraseEntry(cacheCoins, cachedCoinsUsage, Below()[0].view, o);
        OverlayAt(cacheCoins, Below()[0].view, o);
        PutSame(Overlay(cacheCoins, Below()[0].view), o);
        cachedCoinsUsage := cachedCoinsUsage - cacheCoins[o].coin.DynamicMemoryUsage();
        cacheCoins := cacheCoins - {o};
      }
    }

    /** Takes the DIRTY entries of a child cache.  Fails exactly on a misapplied FRESH flag, with any part of the
        entries merged; a child whose flags are right about this view is taken whole. */
    method BatchWrite(mapCoins: CoinsMap, hashBlockIn: nat, erase: bool) returns (ok: bool, rest: CoinsMap)
      requires Valid()
      modifies this
      ensures Below() == old(Below()) && cachedCoinsUsage == TotalUsage(cacheCoins)
      ensures ok <==> NoneMisapplied(mapCoins, old(cacheCoins))
      ensures ok ==>
        hashBlock == hashBlockIn && rest == (if erase then map[] else mapCoins)
          && Merged(mapCoins, {}, old(cacheCoins), cacheCoins)
      ensures !ok ==>
        hashBlock == old(hashBlock) && exists todo :: Merged(mapCoins, todo, old(cacheCoins), cacheCoins)
      ensures EntriesOk(mapCoins, old(Top()).view) ==>
        ok && Valid() && Top() == Level(Overlay(mapCoins, old(Top()).view), hashBlockIn)
    {
      ghost var below := Below()[0].view;
      ghost var todo;
      ok, rest, todo := MergeEntries(mapCoins, erase);
      if ok { hashBlock := hashBlockIn; }
      if EntriesOk(mapCoins, old(Top()).view) {
        RightFlagsMerge(mapCoins, old(cacheCoins), below);
        MergeAll(mapCoins, old(cacheCoins), cacheCoins, below);
      }
    }

    /** BatchWrite's loop; `left` is what was not merged. */
    method MergeEntries(mapCoins: CoinsMap, erase: bool) returns (ok: bool, rest: CoinsMap, ghost left: set<OutPoint>)
      requires cachedCoinsUsage == TotalUsage(cacheCoins)
      modifies this`cacheCoins, this`cachedCoinsUsage
      ensures cachedCoinsUsage == TotalUsage(cacheCoins)
      ensures ok <==> NoneMisapplied(mapCoins, old(cacheCoins))
      ensures ok ==> left == {} && rest == if erase then map[] else mapCoins
      ensures Merged(mapCoins, left, old(cacheCoins), cacheCoins)
    {
      var todo := mapCoins.Keys;
      rest, ok := mapCoins, true;
      while todo != {}
        invariant todo <= mapCoins.Keys
        invariant rest == if erase then mapCoins - (mapCoins.Keys - todo) else mapCoins
        invariant cachedCoinsUsage == TotalUsage(cacheCoins)
        invariant Merged(mapCoins, todo, old(cacheCoins), cacheCoins)
        invariant forall o :: o in mapCoins && o !in todo ==> !Misapplied(mapCoins[o], At(old(cacheCoins), o))
      {
        var o :| o in todo;
        assert At(cacheCoins, o) == At(old(cacheCoins), o);
        ok := MergeOne(o, mapCoins[o]);
        if !ok {
          left := todo;
          return;
        }
        if erase { rest := rest - {o}; }
        todo := todo - {o};
      }
      left := {};
    }

    /** The body of BatchWrite's loop; fails, changing nothing, on a misapplied FRESH flag. */
    method MergeOne(o: OutPoint, child: Entry) returns (ok: bool)
      requires cachedCoinsUsage == TotalUsage(cacheCoins)
      modifies this`cacheCoins, this`cachedCoinsUsage
      ensures cachedCoinsUsage == TotalUsage(cacheCoins)
      ensures ok <==> !Misapplied(child, At(old(cacheCoins), o))
      ensures !ok ==> cacheCoins == old(cacheCoins)
      ensures ok ==> forall p :: At(cacheCoins, p) == if p == o then MergeEntry(child, At(old(cacheCoins), o))
                                                      else At(old(cacheCoins), p)
    {
      if !child.isDirty { return true; }
      UsageErase(cacheCoins, o);
      if o !in cacheCoins {
        if !(child.isFresh && child.coin.IsSpent()) {
          cacheCoins := cacheCoins[o := Entry(child.coin, true, child.isFresh)];
          UsageStore(old(cacheCoins), o, cacheCoins[o]);
          cachedCoinsUsage := cachedCoinsUsage + child.coin.DynamicMemoryUsage();
        }
      } else {
        var us := cacheCoins[o];
        if child.isFresh && !us.coin.IsSpent() { return false; }
        cachedCoinsUsage := cachedCoinsUsage - us.coin.DynamicMemoryUsage();
        if us.isFresh && child.coin.IsSpent() {
          cacheCoins := cacheCoins - {o};
        } else {
          cacheCoins := cacheCoins[o := Entry(child.coin, true, us.isFresh)];
          UsageStore(old(cacheCoins), o, cacheCoins[o]);
          cachedCoinsUsage := cachedCoinsUsage + child.coin.DynamicMemoryUsage();
        }
      }
      ok := true;
    }

    /** The virtual call base->BatchWrite. */
    method BaseBatchWrite(mapCoins: CoinsMap, erase: bool) returns (ok: bool, rest: CoinsMap)
      requires Linked() && BelowValid()
      requires base.OnDatabase? ==> hashBlock != 0
      requires EntriesOk(mapCoins, Below()[0].view)
      modifies Repr - {this}
      ensures BelowValid() && ok
      ensures Below() == [Level(Overlay(mapCoins, old(Below())[0].view), hashBlock)] + old(Below())[1..]
      ensures rest == if erase then map[] else mapCoins
    {
      match base {
        case OnDatabase(db) => ok, rest := db.BatchWrite(mapCoins, hashBlock, erase);
        case OnCache(c) => ok, rest := c.BatchWrite(mapCoins, hashBlock, erase);
      }
    }

    /** Pushes all changes to the base and empties this cache. */
    method Flush() returns (ok: bool)
      requires Valid()
      requires base.OnDatabase? ==> hashBlock != 0
      modifies Repr
      ensures Valid() && ok
      ensures Top() == old(Top()) && Below() == [old(Top())] + old(Below())[1..]
      ensures cacheCoins == map[]
    {
      var rest;
      ok, rest := BaseBatchWrite(cacheCoins, true);
      cacheCoins := rest;
      assert cacheCoins == map[];  // the "not all cached coins were erased" exception
      cachedCoinsUsage := 0;
      OverlayUnique(cacheCoins, Below()[0].view, Below()[0].view);
    }

    /** Pushes all changes to the base and keeps the unspent entries. */
    method Sync() returns (ok: bool)
      requires Valid()
      requires base.OnDatabase? ==> hashBlock != 0
      modifies Repr
      ensures Valid() && ok
      ensures Top() == old(Top()) && Below() == [old(Top())] + old(Below())[1..]
      ensures forall o :: At(cacheCoins, o) == Synced(At(old(cacheCoins), o))
    {
      var rest;
      hide Overlay, TotalUsage, NoneSpent;
      ok, rest := BaseBatchWrite(cacheCoins, false);
      cacheCoins := rest;
      SyncEntries();
      SyncedView(old(cacheCoins), cacheCoins, old(Below())[0].view);
    }

    /** Sync's loop: spent entries go, the others lose their flags. */
    method SyncEntries()
      requires cachedCoinsUsage == TotalUsage(cacheCoins)
      modifies this`cacheCoins, this`cachedCoinsUsage
      ensures cachedCoinsUsage == TotalUsage(cacheCoins)
      ensures forall o :: At(cacheCoins, o) == Synced(At(old(cacheCoins), o))
    {
      var todo := cacheCoins.Keys;
      while todo != {}
        invariant todo <= old(cacheCoins).Keys
        invariant cachedCoinsUsage == TotalUsage(cacheCoins)
        invariant forall o :: At(cacheCoins, o) == if o in todo then At(old(cacheCoins), o)
                                                   else Synced(At(old(cacheCoins), o))
      {
        var o :| o in todo;
        assert At(cacheCoins, o) == At(old(cacheCoins), o);
        SyncOne(o);
        todo := todo - {o};
      }
    }

    /** The body of Sync's loop. */
    method SyncOne(o: OutPoint)
      requires o in cacheCoins
      requires cachedCoinsUsage == TotalUsage(cacheCoins)
      modifies this`cacheCoins, this`cachedCoinsUsage
      ensures cachedCoinsUsage == TotalUsage(cacheCoins)
      ensures forall p :: At(cacheCoins, p) == if p == o then Synced(At(old(cacheCoins), o))
                                               else At(old(cacheCoins), p)
    {
      var coin := cacheCoins[o].coin;
      UsageErase(cacheCoins, o);
      if coin.IsSpent() {
        cachedCoinsUsage := cachedCoinsUsage - coin.DynamicMemoryUsage();
        cacheCoins := cacheCoins - {o};
      } else {
        UsageStore(cacheCoins, o, Entry(coin, false, false));
        cacheCoins := cacheCoins[o := Entry(coin, false, false)];
      }
    }

    /** The assertions of SanityCheck: the flag combinations, and the recomputed usage. */
    method SanityCheck() returns (recomputed: nat)
      requires Valid()
      ensures recomputed == cachedCoinsUsage
      ensures forall o :: o in cacheCoins ==>
        var e := cacheCoins[o];
        if e.coin.out.value == -1 then e.isDirty != e.isFresh else e.isFresh ==> e.isDirty
    {
      recomputed := 0;
      var todo := cacheCoins;
      while todo != map[]
        invariant todo.Keys <= cacheCoins.Keys && forall o :: o in todo ==> todo[o] == cacheCoins[o]
        invariant recomputed + TotalUsage(todo) == TotalUsage(cacheCoins)
        decreases |todo|
      {
        var o :| o in todo;
        var entry := todo[o];
        var attr := (if entry.isDirty then 1 else 0) + (if entry.isFresh then 2 else 0)
          + if entry.coin.IsSpent() then 4 else 0;
        assert attr != 2 && attr != 4 && attr != 7;
        TotalUsageSplit(todo, o);
        recomputed := recomputed + entry.coin.DynamicMemoryUsage();
        todo := todo - {o};
      }
    }

    /** The virtual call base->GetBestBlock. */
    method BaseGetBestBlock() returns (best: nat)
      requires Linked() && BelowValid()
      modifies Repr - {this}
      ensures BelowValid() && SameViews(Below(), old(Below()))
      ensures best == Best(old(Below())) == Best(Below())
      decreases Repr, 0
    {
      match base {
        case OnDatabase(db) => best := db.bestBlock;
        case OnCache(c) => best := c.GetBestBlock();
      }
    }

    /** The best block of the highest level that has one; the levels above it take it over, and no view changes. */
    method GetBestBlock() returns (best: nat)
      requires Valid()
      modifies Repr
      ensures Valid() && SameViews([Top()] + Below(), old([Top()] + Below()))
      ensures best == Best(old([Top()] + Below())) == Best([Top()] + Below())
      decreases Repr, 1
    {
      hide Overlay;
      if hashBlock == 0 {
        var b := BaseGetBestBlock();
        hashBlock := b;
      }
      best := hashBlock;
    }

    method SetBestBlock(hashBlockIn: nat)
      requires Valid()
      modifies this
      ensures Valid() && Top() == Level(old(Top()).view, hashBlockIn) && Below() == old(Below())
      ensures cacheCoins == old(cacheCoins)
    {
      hashBlock := hashBlockIn;
    }

    /** Adds all outputs of a transaction.  Without `check`, only a coinbase may overwrite. */
    method AddCoins(txid: nat, outs: seq<TxOut>, height: nat, isCoinBase: bool, check: bool)
      requires Valid()
      requires forall i :: 0 <= i < |outs| ==> outs[i].value != -1
      requires !check && !isCoinBase ==>
                 forall i :: 0 <= i < |outs| && Spendable(outs[i]) ==> OutPoint(txid, i) !in Top().view
      modifies Repr
      ensures Valid() && Below() == old(Below()) && Top().best == old(Top()).best
      ensures forall i :: 0 <= i < |outs| && Spendable(outs[i]) ==>
                At(Top().view, OutPoint(txid, i)) == Some(Coin(outs[i], isCoinBase, height))
      ensures forall o: OutPoint :: !(o.hash == txid && o.n < |outs| && Spendable(outs[o.n])) ==>
                At(Top().view, o) == At(old(Top()).view, o)
    {
      hide Overlay, LevelOk, Entered;
      EnteredNone(Top().view, txid, outs, height, isCoinBase);
      for i := 0 to |outs|
        invariant Valid() && Below() == old(Below()) && Top().best == old(Top()).best
        invariant Entered(Top().view, old(Top()).view, txid, outs, i, height, isCoinBase)
      {
        ghost var view := Top().view;
        EnteredNext(view, old(Top()).view, txid, outs, i, height, isCoinBase);
        var overwrite := isCoinBase;
        if check { overwrite := HaveCoin(OutPoint(txid, i)); }
        OverlayAt(cacheCoins, Below()[0].view, OutPoint(txid, i));
        var ok := AddCoin(OutPoint(txid, i), Coin(outs[i], isCoinBase, height), overwrite);
        assert ok;
      }
      EnteredAll(Top().view, old(Top()).view, txid, outs, height, isCoinBase);
    }

    // ----- Whole runs -----

    ghost function Levels(): seq<Level>
      requires Linked()
      reads Repr
    {
      [Top()] + Below()
    }

    /** One operation; those with a depth act on the cache that many levels below this one. */
    method Apply(op: Op)
      requires Valid()
      requires Legal(op, Levels())
      modifies Repr
      ensures Valid()
      ensures Levels() == Step(op, old(Levels()))
      decreases Repr, 1
    {
      match op {
        case Add(o, coin, overwrite) =>
          OverlayAt(cacheCoins, Below()[0].view, o);
          var ok := AddCoin(o, coin, overwrite);
          assert ok;
        case Spend(o) => var _, _ := SpendCoin(o);
        case SetBest(best) => SetBestBlock(best);
        case Fetch(depth, o) => if depth == 0 { var _ := FetchCoin(o); } else { ApplyBelow(op, Fetch(depth - 1, o)); }
        case Drop(depth, o) => if depth == 0 { Uncache(o); } else { ApplyBelow(op, Drop(depth - 1, o)); }
        case Push(depth, keep) => if depth == 0 { ApplyPush(keep); } else { ApplyBelow(op, Push(depth - 1, keep)); }
      }
    }

    method ApplyPush(keep: bool)
      requires Valid()
      requires Legal(Push(0, keep), Levels())
      modifies Repr
      ensures Valid()
      ensures Levels() == Step(Push(0, keep), old(Levels()))
    {
      if keep { var _ := Sync(); } else { var _ := Flush(); }
    }

    /** An operation below leaves this level's base showing the same, so this level stays valid. */
    method ApplyBelow(ghost op: Op, lower: Op)
      requires Valid()
      requires Legal(op, Levels())
      requires Lowered(op) == Some(lower)
      modifies Repr
      ensures Valid()
      ensures Levels() == Step(op, old(Levels()))
      decreases Repr, 0
    {
      var c := base.cache;
      assert Below() == c.Levels();
      c.Apply(lower);
      assert Below() == c.Levels();
    }

    /** Any legal sequence of operations on a stack of any height. */
    method Run(ops: seq<Op>)
      requires Valid()
      requires LegalRun(ops, Levels())
      modifies Repr
      ensures Valid()
      ensures Levels() == Steps(ops, old(Levels()))
      ensures Top().view == PlainSteps(ops, old(Top()).view)
    {
      TopIsPlainMap(ops, Levels());
      if ops != [] {
        Apply(ops[0]);
        Run(ops[1..]);
      }
    }
  }

  // ----- The specification of runs -----

  /** An output that can ever be spent: not data behind an OP_RETURN, and not too long to run. */
  ghost predicate Spendable(out: TxOut) {
    (out.scriptPubKey == [] || out.scriptPubKey[0] != 0x6a) && |out.scriptPubKey| <= 10000
  }

  /** The first `n` outputs have been entered, those that can be spent; all else shows what it showed. */
  ghost predicate Entered(v: View, v0: View, txid: nat, outs: seq<TxOut>, n: nat, height: nat, isCoinBase: bool) {
    && n <= |outs|
    && (forall i :: 0 <= i < n && Spendable(outs[i]) ==>
          At(v, OutPoint(txid, i)) == Some(Coin(outs[i], isCoinBase, height)))
    && (forall o: OutPoint :: !(o.hash == txid && o.n < n && Spendable(outs[o.n])) ==> At(v, o) == At(v0, o))
  }

  lemma {:induction false} EnteredNone(v: View, txid: nat, outs: seq<TxOut>, height: nat, isCoinBase: bool)
    ensures Entered(v, v, txid, outs, 0, height, isCoinBase)
  {
  }

  lemma {:induction false} EnteredNext(v: View, v0: View, txid: nat, outs: seq<TxOut>, n: nat, height: nat,
                                       isCoinBase: bool)
    requires Entered(v, v0, txid, outs, n, height, isCoinBase) && n < |outs|
    ensures At(v, OutPoint(txid, n)) == At(v0, OutPoint(txid, n))
    ensures Spendable(outs[n]) <==> !Coin(outs[n], isCoinBase, height).IsUnspendable()
    ensures Entered(if Spendable(outs[n]) then v[OutPoint(txid, n) := Coin(outs[n], isCoinBase, height)] else v,
                    v0, txid, outs, n + 1, height, isCoinBase)
  {
  }

  lemma {:induction false} EnteredAll(v: View, v0: View, txid: nat, outs: seq<TxOut>, height: nat, isCoinBase: bool)
    requires Entered(v, v0, txid, outs, |outs|, height, isCoinBase)
    ensures forall i :: 0 <= i < |outs| && Spendable(outs[i]) ==>
              At(v, OutPoint(txid, i)) == Some(Coin(outs[i], isCoinBase, height))
    ensures forall o: OutPoint :: !(o.hash == txid && o.n < |outs| && Spendable(outs[o.n])) ==> At(v, o) == At(v0, o)
  {
  }

  datatype Op =
    | Add(o: OutPoint, coin: Coin, possibleOverwrite: bool)
    | Spend(o: OutPoint)
    | SetBest(best: nat)
    | Fetch(depth: nat, o: OutPoint)
    | Drop(depth: nat, o: OutPoint)
    | Push(depth: nat, keep: bool)  // Sync when the cache keeps its coins, Flush otherwise

  /** An operation on a deeper cache, as the cache below sees it. */
  function Lowered(op: Op): Option<Op> {
    match op
    case Fetch(depth, o) => if depth == 0 then None else Some(Fetch(depth - 1, o))
    case Drop(depth, o) => if depth == 0 then None else Some(Drop(depth - 1, o))
    case Push(depth, keep) => if depth == 0 then None else Some(Push(depth - 1, keep))
    case _ => None
  }

  /** What callers owe: AddCoin's freshness, caches that exist, and a best block for the database. */
  ghost predicate Legal(op: Op, levels: seq<Level>)
    requires |levels| >= 2
  {
    match op
    case Add(o, coin, overwrite) =>
      !coin.IsSpent() && (!coin.IsUnspendable() && !overwrite ==> o !in levels[0].view)
    case Fetch(depth, _) => depth < |levels| - 1
    case Drop(depth, _) => depth < |levels| - 1
    case Push(depth, _) => depth < |levels| - 1 && (depth == |levels| - 2 ==> levels[depth].best != 0)
    case _ => true
  }

  ghost function Step(op: Op, levels: seq<Level>): (after: seq<Level>)
    requires |levels| >= 2 && Legal(op, levels)
    ensures |after| == |levels|
  {
    match op
    case SetBest(best) => levels[0 := Level(levels[0].view, best)]
    case Push(depth, _) => levels[depth + 1 := levels[depth]]
    case _ => levels[0 := Level(PlainStep(op, levels[0].view), levels[0].best)]
  }

  /** The operation on a plain map: only adding and spending do anything. */
  ghost function PlainStep(op: Op, v: View): View {
    match op
    case Add(o, coin, _) => if coin.IsUnspendable() then v else v[o := coin]
    case Spend(o) => v - {o}
    case _ => v
  }

  ghost predicate LegalRun(ops: seq<Op>, levels: seq<Level>)
    requires |levels| >= 2
  {
    ops == [] || (Legal(ops[0], levels) && LegalRun(ops[1..], Step(ops[0], levels)))
  }

  ghost function Steps(ops: seq<Op>, levels: seq<Level>): seq<Level>
    requires |levels| >= 2 && LegalRun(ops, levels)
  {
    if ops == [] then levels else Steps(ops[1..], Step(ops[0], levels))
  }

  ghost function PlainSteps(ops: seq<Op>, v: View): View {
    if ops == [] then v else PlainSteps(ops[1..], PlainStep(ops[0], v))
  }

  /** Flushes, fetches and uncaching never show in the top view. */
  lemma {:induction false} TopIsPlainMap(ops: seq<Op>, levels: seq<Level>)
    requires |levels| >= 2 && LegalRun(ops, levels)
    ensures |Steps(ops, levels)| == |levels|
    ensures Steps(ops, levels)[0].view == PlainSteps(ops, levels[0].view)
  {
    if ops != [] { TopIsPlainMap(ops[1..], Step(ops[0], levels)); }
  }

  /** Adding a coin with a script of forty bytes twice: the second call fails, and the cache's running usage is wrong
      from then on. */
  method AddTwice() returns (cache: CoinsViewCache, first: bool, second: bool)
    ensures first && !second && !cache.Valid()
  {
    var db := new CoinsViewDB(map[], 1);
    cache := new CoinsViewCache(OnDatabase(db));
    var coin := Coin(TxOut(1, seq(40, _ => 0)), false, 0);
    assert cache.Below()[0].view == map[];
    OverlayAt(cache.cacheCoins, cache.Below()[0].view, OutPoint(0, 0));
    first := cache.AddCoin(OutPoint(0, 0), coin, false);
    assert OutPoint(0, 0) in cache.Top().view && cache.cacheCoins[OutPoint(0, 0)].coin == coin;
    second := cache.AddCoin(OutPoint(0, 0), coin, false);
  }
}
