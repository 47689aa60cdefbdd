/** The block tree with its skip links, and the active chain over it (src/chain.h, src/chain.cpp,
    BlockManager::AddToBlockIndex in src/node/blockstorage.cpp).
 */
module Chain {
  import opened CompactTarget
  import opened Limbs
  import opened Powers
  import opened SkipHeights

  type Hash(==, !new)

  // ----- Block index entries -----

  /** `b` extends the path `below` of its ancestors, genesis first. */
  ghost predicate Extends(b: BlockIndex, below: seq<BlockIndex>) {
    && b.below == below
    && b.nHeight == |below|
    && (if below == [] then b.pprev == null
        else b.pprev == below[|below| - 1] && b.nTimeMax >= below[|below| - 1].nTimeMax
             && b.nChainWork >= below[|below| - 1].nChainWork)
  }

  /** The skip link, where there is one, names the ancestor at the skip height. */
  ghost predicate SkipOk(b: BlockIndex)
    reads b
  {
    b.pskip == null || (0 < b.nHeight == |b.below| && b.pskip == b.below[GetSkipHeight(b.nHeight)])
  }

  /** The entry after its ancestors, genesis first. */
  ghost function Path(b: BlockIndex): seq<BlockIndex> { b.below + [b] }

  ghost predicate PathOk(p: seq<BlockIndex>) {
    forall i :: 0 <= i < |p| ==> Extends(p[i], p[..i])
  }

  ghost predicate SkipsOk(p: seq<BlockIndex>)
    reads p
  {
    forall i :: 0 <= i < |p| ==> SkipOk(p[i])
  }

  /** Every entry but the first has its skip link. */
  ghost predicate Skipped(p: seq<BlockIndex>)
    reads p
  {
    forall i :: 0 < i < |p| ==> p[i].pskip != null
  }

  /** The block `n` steps back along `pprev`. */
  ghost function Back(b: BlockIndex?, n: nat): BlockIndex? {
    if n == 0 then b else if b == null then null else Back(b.pprev, n - 1)
  }

  lemma {:induction false} PathPrefix(p: seq<BlockIndex>, k: nat)
    requires PathOk(p) && k <= |p|
    ensures PathOk(p[..k])
  {
    forall i | 0 <= i < k ensures Extends(p[..k][i], p[..k][..i]) {
      assert p[..k][..i] == p[..i];
    }
  }

  /** The path of a block on a path is the part up to it. */
  lemma {:induction false} PathAt(p: seq<BlockIndex>, h: nat)
    requires PathOk(p) && h < |p|
    ensures p[h].nHeight == h && p[h].below == p[..h] && Path(p[h]) == p[..h + 1] && PathOk(Path(p[h]))
    ensures h > 0 ==> p[h].pprev == p[h - 1]
    ensures h == 0 ==> p[h].pprev == null
  {
    assert Extends(p[h], p[..h]);
    assert p[..h + 1] == p[..h] + [p[h]];
    PathPrefix(p, h + 1);
  }

  lemma {:induction false} PathTip(b: BlockIndex)
    requires PathOk(Path(b))
    ensures |Path(b)| == b.nHeight + 1 && Path(b)[b.nHeight] == b
  {
    assert Extends(Path(b)[|b.below|], Path(b)[..|b.below|]);
    assert Path(b)[..|b.below|] == b.below;
  }

  lemma {:induction false} SkipAt(p: seq<BlockIndex>, h: nat)
    requires PathOk(p) && SkipsOk(p) && h < |p| && p[h].pskip != null
    ensures h > 0 && p[h].pskip == p[GetSkipHeight(h)]
  {
    PathAt(p, h);
    assert SkipOk(p[h]);
  }

  lemma {:induction false} BackIsPath(p: seq<BlockIndex>, h: nat, n: nat)
    requires PathOk(p) && n <= h < |p|
    ensures Back(p[h], n) == p[h - n]
  {
    hide PathOk, Path;
    PathAt(p, h);
    if n > 0 { BackIsPath(p, h - 1, n - 1); }
  }

  lemma {:induction false} PathExtend(p: seq<BlockIndex>, b: BlockIndex)
    requires PathOk(p) && Extends(b, p)
    ensures PathOk(p + [b])
  {
    var q := p + [b];
    forall i | 0 <= i < |q| ensures Extends(q[i], q[..i]) {
      assert q[..i] == p[..i];
    }
  }

  class BlockIndex {
    const hash: Hash
    const pprev: BlockIndex?
    const nHeight: nat
    const nTimeMax: nat
    const nChainWork: nat
    var pskip: BlockIndex?
    ghost const below: seq<BlockIndex>  // the ancestors, genesis first

    constructor (hash: Hash, prev: BlockIndex?, nTime: nat, nBits: Limb)
      requires prev != null ==> PathOk(Path(prev))
      ensures PathOk(Path(this)) && pskip == null && this.hash == hash && pprev == prev
      ensures below == if prev == null then [] else Path(prev)
      ensures nTimeMax == if prev != null && prev.nTimeMax > nTime then prev.nTimeMax else nTime
      ensures nChainWork == (if prev == null then 0 else prev.nChainWork) + Work(nBits)
    {
      this.hash, pprev, pskip := hash, prev, null;
      nHeight := if prev == null then 0 else prev.nHeight + 1;
      nTimeMax := if prev != null && prev.nTimeMax > nTime then prev.nTimeMax else nTime;
      nChainWork := (if prev == null then 0 else prev.nChainWork) + Work(nBits);
      below := if prev == null then [] else Path(prev);
      new;
      hide PathOk;
      if prev != null { PathTip(prev); }
      NoPath();
      PathExtend(below, this);
    }

    /** The ancestor at a height.  `steps` counts the links followed: with all skip links in place, about a quarter
        of the square of the number of bits of the height at most, and no more than 110 up to height 2^18. */
    method GetAncestor(height: int) returns (r: BlockIndex?, ghost steps: nat)
      requires PathOk(Path(this)) && SkipsOk(Path(this))
      ensures r == if 0 <= height <= nHeight then Back(this, nHeight - height) else null
      ensures |Path(this)| == nHeight + 1 && (0 <= height <= nHeight ==> r == Path(this)[height])
      ensures Skipped(Path(this)) ==> 4 * steps <= BitLen(nHeight) * (BitLen(nHeight) + 8)
      ensures Skipped(Path(this)) && nHeight <= 0x4_0000 ==> steps <= 110
    {
      hide PathOk, SkipsOk, StepsTo, BitLen;
      StepLimit(nHeight, height);
      steps := 0;
      ghost var p := Path(this);
      PathTip(this);
      hide Path, GetSkipHeight;
      if height > nHeight || height < 0 {
        return null, 0;
      }
      ghost var target: nat := height;
      var pindexWalk, heightWalk := this, nHeight;
      while heightWalk > height
        invariant height <= heightWalk <= nHeight
        invariant pindexWalk == p[heightWalk]
        invariant Skipped(p) ==> steps + StepsTo(heightWalk, target) == StepsTo(nHeight, target)
      {
        StepsNext(heightWalk, target);
        steps := steps + 1;
        PathAt(p, heightWalk);
        var heightSkip := GetSkipHeight(heightWalk);
        var heightSkipPrev := GetSkipHeight(heightWalk - 1);
        if pindexWalk.pskip != null &&
           (heightSkip == height ||
            (heightSkip > height && !(heightSkipPrev < heightSkip - 2 && heightSkipPrev >= height))) {
          SkipAt(p, heightWalk);
          pindexWalk := pindexWalk.pskip;
          heightWalk := heightSkip;
        } else {
          assert pindexWalk.pprev != null;
          pindexWalk := pindexWalk.pprev;
          heightWalk := heightWalk - 1;
        }
      }
      BackIsPath(p, nHeight, nHeight - height);
      NoSteps(target);
      r := pindexWalk;
    }

    method BuildSkip()
      requires PathOk(Path(this)) && SkipsOk(below)
      modifies this`pskip
      ensures SkipsOk(below) && (pprev != null ==> SkipsOk(Path(this)))
      ensures pprev == null ==> pskip == old(pskip)
      ensures pprev != null ==> |below| == nHeight > 0 && pskip == below[GetSkipHeight(nHeight)]
    {
      hide PathOk, GetSkipHeight;
      PathTip(this);
      PathAt(Path(this), nHeight);
      if pprev != null {
        assert Path(pprev) == below by { PathAt(Path(this), nHeight - 1); }
        PathPrefix(Path(this), nHeight);
        assert below == Path(this)[..nHeight];
        NotBelow(this);
        ghost var steps;
        pskip, steps := pprev.GetAncestor(GetSkipHeight(nHeight));
      }
    }
  }

  lemma {:induction false} StepLimit(h: nat, t: int)
    ensures 0 <= t <= h ==> 4 * StepsTo(h, t) <= BitLen(h) * (BitLen(h) + 8)
    ensures 0 <= t <= h <= 0x4_0000 ==> StepsTo(h, t) <= 110
    ensures 0 <= BitLen(h) * (BitLen(h) + 8)
  {
    hide StepsTo;
    BitLenIs(h);
    if 0 <= t <= h && h > 0 { FewSteps(h, t, BitLen(h)); }
    if 0 <= t <= h <= 0x4_0000 {
      assert Pow2(6) == 64;
      Pow2Add(6, 6);
      Pow2Add(12, 6);
      AtMost110(h, t);
    }
    if h == 0 == t { NoSteps(0); }
  }

  lemma {:induction false} NoPath()
    ensures PathOk([])
  {
  }

  lemma {:induction false} NotBelow(b: BlockIndex)
    requires PathOk(Path(b))
    ensures b !in b.below
  {
    PathTip(b);
    forall i | 0 <= i < |b.below| ensures b.below[i] != b {
      PathAt(Path(b), i);
    }
  }

  // ----- The tree of known blocks -----

  /** One entry of the block map: its path lies in the map, and its skip link is right. */
  ghost predicate EntryOk(m: map<Hash, BlockIndex>, b: BlockIndex)
    reads b
  {
    && PathOk(Path(b))
    && (forall i :: 0 <= i < |Path(b)| ==> Path(b)[i].hash in m && m[Path(b)[i].hash] == Path(b)[i])
    && SkipOk(b) && (b.below != [] ==> b.pskip != null)
  }

  ghost predicate MapOk(m: map<Hash, BlockIndex>)
    reads m.Values
  {
    forall h :: h in m ==> m[h].hash == h && EntryOk(m, m[h])
  }

  ghost predicate BestOk(m: map<Hash, BlockIndex>, best: BlockIndex?) {
    if best == null then m == map[]
    else best.hash in m && m[best.hash] == best && forall h :: h in m ==> m[h].nChainWork <= best.nChainWork
  }

  lemma {:induction false} EntrySkips(m: map<Hash, BlockIndex>, h: Hash)
    requires MapOk(m) && h in m
    ensures PathOk(Path(m[h])) && SkipsOk(Path(m[h])) && Skipped(Path(m[h]))
  {
    var p := Path(m[h]);
    forall i | 0 <= i < |p| ensures SkipOk(p[i]) && (i > 0 ==> p[i].pskip != null) {
      assert EntryOk(m, m[p[i].hash]);
      PathAt(p, i);
    }
  }

  lemma {:induction false} MapGrows(m: map<Hash, BlockIndex>, b: BlockIndex)
    requires MapOk(m) && b.hash !in m && PathOk(Path(b)) && SkipOk(b) && (b.below != [] ==> b.pskip != null)
    requires b.below == [] || exists h :: h in m && b.below == Path(m[h])
    ensures MapOk(m[b.hash := b])
  {
    var m' := m[b.hash := b];
    forall h | h in m' ensures m'[h].hash == h && EntryOk(m', m'[h]) {
      if h != b.hash {
        assert EntryOk(m, m[h]);
      } else if b.below != [] {
        var g :| g in m && b.below == Path(m[g]);
        assert EntryOk(m, m[g]);
      }
    }
  }

  class BlockManager {
    var blockIndex: map<Hash, BlockIndex>
    var bestHeader: BlockIndex?

    ghost predicate Valid()
      reads this, blockIndex.Values
    {
      MapOk(blockIndex) && BestOk(blockIndex, bestHeader)
    }

    constructor ()
      ensures Valid() && blockIndex == map[]
    {
      blockIndex, bestHeader := map[], null;
    }

    method AddToBlockIndex(hash: Hash, hashPrev: Hash, nTime: nat, nBits: Limb) returns (b: BlockIndex)
      requires Valid() && hash != hashPrev
      modifies this
      ensures Valid() && hash in blockIndex && b == blockIndex[hash]
      ensures hash in old(blockIndex) ==> blockIndex == old(blockIndex) && bestHeader == old(bestHeader)
      ensures hash !in old(blockIndex) ==> fresh(b) && blockIndex == old(blockIndex)[hash := b]
      ensures hash !in old(blockIndex) ==>
              b.pprev == if hashPrev in old(blockIndex) then old(blockIndex)[hashPrev] else null
      ensures hash !in old(blockIndex) ==>
              b.nChainWork == (if b.pprev != null then b.pprev.nChainWork else 0) + Work(nBits)
      ensures hash !in old(blockIndex) ==>
        b.nTimeMax == if b.pprev != null && b.pprev.nTimeMax > nTime then b.pprev.nTimeMax else nTime
      ensures hash !in old(blockIndex) ==>
        bestHeader == if old(bestHeader) == null || old(bestHeader).nChainWork < b.nChainWork then b
          else old(bestHeader)
      ensures PathOk(Path(b)) && SkipsOk(Path(b)) && Skipped(Path(b))
    {
      hide MapOk, BestOk, PathOk, SkipsOk, Skipped;
      if hash in blockIndex {
        EntrySkips(blockIndex, hash);
        return blockIndex[hash];
      }
      var prev: BlockIndex? := null;
      if hashPrev in blockIndex {
        prev := blockIndex[hashPrev];
        EntrySkips(blockIndex, hashPrev);
      }
      b := new BlockIndex(hash, prev, nTime, nBits);
      if prev != null {
        b.BuildSkip();
      }
      MapGrows(blockIndex, b);
      BestGrows(blockIndex, bestHeader, b);
      blockIndex := blockIndex[hash := b];
      if bestHeader == null || bestHeader.nChainWork < b.nChainWork {
        bestHeader := b;
      }
      EntrySkips(blockIndex, hash);
    }
  }

  lemma {:induction false} BestGrows(m: map<Hash, BlockIndex>, best: BlockIndex?, b: BlockIndex)
    requires BestOk(m, best) && b.hash !in m
    ensures BestOk(m[b.hash := b], if best == null || best.nChainWork < b.nChainWork then b else best)
  {
  }

  // ----- The active chain -----

  /** The vector is empty or the path of its last entry. */
  ghost predicate ChainOk(v: seq<BlockIndex?>) {
    v == [] || (var tip := v[|v| - 1]; tip != null && PathOk(Path(tip)) && v == Path(tip))
  }

  lemma {:induction false} ChainIsPath(v: seq<BlockIndex?>) returns (p: seq<BlockIndex>)
    requires ChainOk(v)
    ensures PathOk(p) && p == v
  {
    if v == [] { p := []; } else { p := Path(v[|v| - 1]); }
  }

  /** Paths through the same block agree below it. */
  lemma {:induction false} SharedPrefix(p: seq<BlockIndex>, q: seq<BlockIndex>, h: nat)
    requires PathOk(p) && PathOk(q) && h < |p| && h < |q| && p[h] == q[h]
    ensures p[..h + 1] == q[..h + 1]
  {
    PathAt(p, h);
    PathAt(q, h);
  }

  /** `r` is the last block that `p` and `q` share, null when they share none. */
  ghost predicate LastShared(r: BlockIndex?, p: seq<BlockIndex>, q: seq<BlockIndex>) {
    if r == null then forall h :: 0 <= h < |p| && h < |q| ==> p[h] != q[h]
    else
      && r.nHeight < |p| && r.nHeight < |q| && p[r.nHeight] == r == q[r.nHeight]
      && forall h :: r.nHeight < h < |p| && h < |q| ==> p[h] != q[h]
  }

  /** The last shared block is the highest of all common blocks, and the two paths agree exactly up to it. */
  lemma {:induction false} LastSharedIsHighest(r: BlockIndex?, p: seq<BlockIndex>, q: seq<BlockIndex>, c: BlockIndex)
    requires PathOk(p) && PathOk(q) && LastShared(r, p, q) && c in p && c in q
    ensures r != null && c.nHeight <= r.nHeight < |p| && p[c.nHeight] == c == q[c.nHeight]
    ensures p[..r.nHeight + 1] == q[..r.nHeight + 1]
  {
    hide PathOk, Path;
    var i :| 0 <= i < |p| && p[i] == c;
    var j :| 0 <= j < |q| && q[j] == c;
    PathAt(p, i);
    PathAt(q, j);
    assert p[c.nHeight] == q[c.nHeight];
    SharedPrefix(p, q, r.nHeight);
  }

  /** What `SetTip` has done when it stands at height `h` (-1 past the genesis): the entries above are
      the new path's, those up to `h` still the old vector's. */
  ghost predicate Rewritten(v: seq<BlockIndex?>, was: seq<BlockIndex?>, p: seq<BlockIndex>, h: int) {
    && |v| == |p| && -1 <= h < |p|
    && (forall i :: h < i < |p| ==> v[i] == p[i])
    && (forall i :: 0 <= i <= h ==> v[i] == if i < |was| then was[i] else null)
  }

  /** `vector::resize`: cut, or filled up with nulls. */
  function Resized(v: seq<BlockIndex?>, n: nat): (r: seq<BlockIndex?>)
    ensures |r| == n
  {
    if |v| >= n then v[..n] else v + seq(n - |v|, _ => null)
  }

  lemma {:induction false} RewrittenNone(was: seq<BlockIndex?>, p: seq<BlockIndex>)
    requires |p| > 0
    ensures Rewritten(Resized(was, |p|), was, p, |p| - 1)
  {
  }

  lemma {:induction false} RewrittenNext(v: seq<BlockIndex?>, was: seq<BlockIndex?>, p: seq<BlockIndex>, h: nat)
    requires Rewritten(v, was, p, h)
    ensures |v| == |p| > h && Rewritten(v[h := p[h]], was, p, h - 1)
  {
  }

  /** Meeting the new path in the old vector, all below already agrees. */
  lemma {:induction false} EarlyStop(v: seq<BlockIndex?>, was: seq<BlockIndex?>, p: seq<BlockIndex>, h: int)
    requires ChainOk(was) && PathOk(p) && Rewritten(v, was, p, h) && (h >= 0 ==> v[h] == p[h])
    ensures v == p
  {
    if h >= 0 {
      var q := ChainIsPath(was);
      SharedPrefix(p, q, h);
      forall i | 0 <= i <= h ensures v[i] == p[i] {
        assert p[..h + 1][i] == q[..h + 1][i];
      }
    }
  }

  class ActiveChain {
    var vChain: seq<BlockIndex?>

    ghost predicate Valid()
      reads this
    {
      ChainOk(vChain)
    }

    constructor ()
      ensures Valid() && vChain == []
    {
      vChain := [];
    }

    function Height(): int
      reads this
    {
      |vChain| - 1
    }

    function Tip(): BlockIndex?
      reads this
    {
      if |vChain| > 0 then vChain[|vChain| - 1] else null
    }

    function At(nHeight: int): BlockIndex?
      reads this
    {
      if nHeight < 0 || nHeight >= |vChain| then null else vChain[nHeight]
    }

    predicate Contains(pindex: BlockIndex)
      reads this
    {
      At(pindex.nHeight) == pindex
    }

    /** Containing a block is having it on the tip's path. */
    lemma {:induction false} ContainsIsMember(pindex: BlockIndex)
      requires Valid()
      ensures Contains(pindex) <==> pindex in vChain
    {
      var p := ChainIsPath(vChain);
      if pindex in vChain {
        var i :| 0 <= i < |p| && p[i] == pindex;
        PathAt(p, i);
      }
    }

    function Next(pindex: BlockIndex): BlockIndex?
      reads this
    {
      if Contains(pindex) then At(pindex.nHeight + 1) else null
    }

    /** The successor of a block is the chain's block whose predecessor it is. */
    lemma {:induction false} NextIsSuccessor(pindex: BlockIndex)
      requires Valid()
      ensures Next(pindex) == null <==> (!Contains(pindex) || pindex == Tip())
      ensures Next(pindex) != null ==> Next(pindex).pprev == pindex && Contains(Next(pindex))
    {
      var p := ChainIsPath(vChain);
      if Contains(pindex) {
        PathAt(p, pindex.nHeight);
        PathAt(p, |p| - 1);
        if pindex.nHeight + 1 < |p| { PathAt(p, pindex.nHeight + 1); }
      }
    }

    method SetTip(block: BlockIndex)
      requires Valid() && PathOk(Path(block))
      modifies this
      ensures Valid() && vChain == Path(block)
    {
      hide PathOk;
      ghost var was, p := vChain, Path(block);
      PathTip(block);
      hide Path, ChainOk, Resized, Rewritten;
      var pindex: BlockIndex? := block;
      RewrittenNone(was, p);
      vChain := Resized(vChain, block.nHeight + 1);
      ghost var h := block.nHeight;
      while pindex != null && vChain[pindex.nHeight] != pindex
        invariant |vChain| == |p| && -1 <= h < |p| && Rewritten(vChain, was, p, h)
        invariant pindex == if h >= 0 then p[h] else null
        invariant pindex != null ==> pindex.nHeight == h
        decreases h
      {
        PathAt(p, h);
        RewrittenNext(vChain, was, p, h);
        vChain := vChain[pindex.nHeight := pindex];
        pindex := pindex.pprev;
        h := h - 1;
        if h >= 0 { PathAt(p, h); }
      }
      EarlyStop(vChain, was, p, h);
      PathChain(block);
    }

    method FindFork(pindex: BlockIndex?) returns (r: BlockIndex?)
      requires Valid() && (pindex != null ==> PathOk(Path(pindex)) && SkipsOk(Path(pindex)))
      ensures pindex == null ==> r == null
      ensures pindex != null ==> LastShared(r, Path(pindex), vChain)
    {
      hide PathOk, SkipsOk, ChainOk;
      if pindex == null {
        return null;
      }
      ghost var p := Path(pindex);
      ghost var q := ChainIsPath(vChain);
      PathTip(pindex);
      r := pindex;
      if r.nHeight > Height() {
        ghost var steps;
        r, steps := r.GetAncestor(Height());
      }
      hide Path;
      ghost var h := if pindex.nHeight > Height() then Height() else pindex.nHeight;
      if h >= 0 { PathAt(p, h); }
      while r != null && !Contains(r)
        invariant -1 <= h < |p|
        invariant r == if h >= 0 then p[h] else null
        invariant r != null ==> r.nHeight == h < |q|
        invariant forall k :: h < k < |p| && k < |q| ==> p[k] != q[k]
        decreases h
      {
        PathAt(p, h);
        r := r.pprev;
        h := h - 1;
        if h >= 0 { PathAt(p, h); }
      }
    }

    method FindEarliestAtLeast(nTime: int, height: int) returns (r: BlockIndex?)
      requires Valid()
      ensures r == null ==> forall b :: b in vChain && b != null ==> b.nTimeMax < nTime || b.nHeight < height
      ensures r != null ==> r in vChain && r.nTimeMax >= nTime && r.nHeight >= height
      ensures r != null ==> forall b :: b in vChain && b != null && b.nHeight < r.nHeight ==>
              b.nTimeMax < nTime || b.nHeight < height
    {
      hide ChainOk;
      ghost var p := ChainIsPath(vChain);
      PathHeights(p);
      hide PathOk;
      var first, count := 0, |vChain|;
      while count > 0
        invariant 0 <= first <= first + count <= |vChain|
        invariant forall i :: 0 <= i < first ==> Earlier(p[i], nTime, height)
        invariant forall i :: first + count <= i < |p| ==> !Earlier(p[i], nTime, height)
      {
        var half := count / 2;
        var pBlock: BlockIndex := vChain[first + half];
        if pBlock.nTimeMax < nTime || pBlock.nHeight < height {
          first, count := first + half + 1, count - half - 1;
        } else {
          count := half;
        }
      }
      r := if first == |vChain| then null else vChain[first];
    }

    /** Any sequence of reorganisations leaves the path of the last tip. */
    method SetTips(blocks: seq<BlockIndex>)
      requires Valid() && forall i :: 0 <= i < |blocks| ==> PathOk(Path(blocks[i]))
      modifies this
      ensures Valid() && vChain == if blocks == [] then old(vChain) else Path(blocks[|blocks| - 1])
    {
      for i := 0 to |blocks|
        invariant Valid() && vChain == if i == 0 then old(vChain) else Path(blocks[i - 1])
      {
        SetTip(blocks[i]);
      }
    }
  }

  lemma {:induction false} PathChain(b: BlockIndex)
    requires PathOk(Path(b))
    ensures ChainOk(Path(b))
  {
  }

  ghost predicate Earlier(b: BlockIndex, nTime: int, height: int) { b.nTimeMax < nTime || b.nHeight < height }

  /** Heights count up along a path, and the running maximum of the times never falls. */
  lemma {:induction false} PathHeights(p: seq<BlockIndex>)
    requires PathOk(p)
    ensures forall i :: 0 <= i < |p| ==> p[i].nHeight == i
    ensures forall i, j :: 0 <= i <= j < |p| ==> p[i].nTimeMax <= p[j].nTimeMax
  {
    if p != [] {
      var n := |p| - 1;
      PathPrefix(p, n);
      PathHeights(p[..n]);
      assert Extends(p[n], p[..n]);
      forall i, j | 0 <= i <= j < |p| ensures p[i].nTimeMax <= p[j].nTimeMax {
        if j == n && i < n {
          assert p[..n][i].nTimeMax <= p[..n][n - 1].nTimeMax;
        } else if j < n {
          assert p[..n][i].nTimeMax <= p[..n][j].nTimeMax;
        }
      }
      forall i | 0 <= i < |p| ensures p[i].nHeight == i {
        if i < n { assert p[..n][i].nHeight == i; }
      }
    }
  }

  method LastCommonAncestor(a: BlockIndex, b: BlockIndex) returns (r: BlockIndex?)
    requires PathOk(Path(a)) && PathOk(Path(b)) && SkipsOk(Path(a)) && SkipsOk(Path(b))
    ensures LastShared(r, Path(a), Path(b))
  {
    hide PathOk, SkipsOk;
    ghost var p, q := Path(a), Path(b);
    PathTip(a);
    PathTip(b);
    var pa: BlockIndex?, pb: BlockIndex? := a, b;
    ghost var steps;
    if a.nHeight > b.nHeight {
      pa, steps := a.GetAncestor(b.nHeight);
    } else if b.nHeight > a.nHeight {
      pb, steps := b.GetAncestor(a.nHeight);
    }
    hide Path;
    ghost var h := if a.nHeight < b.nHeight then a.nHeight else b.nHeight;
    while pa != pb && pa != null && pb != null
      invariant -1 <= h < |p| && h < |q|
      invariant if h >= 0 then pa == p[h] && pb == q[h] else pa == pb == null
      invariant forall k :: h < k < |p| && k < |q| ==> p[k] != q[k]
      decreases h
    {
      PathAt(p, h);
      PathAt(q, h);
      pa, pb := pa.pprev, pb.pprev;
      h := h - 1;
    }
    assert pa == pb;
    if h >= 0 { PathAt(p, h); }
    r := pa;
  }

  // ----- Block locators -----

  function LocatorHeights(height: nat, step: nat, size: nat): (r: seq<nat>)
    requires step > 0
    ensures r != [] && r[0] == height && r[|r| - 1] == 0
    decreases height
  {
    if height == 0 then [0]
    else
      var next := if height > step then height - step else 0;
      [height] + LocatorHeights(next, if size + 1 > 10 then 2 * step else step, size + 1)
  }

  ghost predicate Descending(r: seq<nat>) { forall i, j :: 0 <= i < j < |r| ==> r[j] < r[i] }

  lemma {:induction false} DescendingCons(h: nat, t: seq<nat>)
    requires Descending(t) && (t != [] ==> t[0] < h)
    ensures Descending([h] + t)
  {
    var r := [h] + t;
    forall i, j | 0 <= i < j < |r| ensures r[j] < r[i] {
      assert r[j] == t[j - 1] <= t[0];
    }
  }

  lemma {:induction false} LocatorDescends(height: nat, step: nat, size: nat)
    requires step > 0
    ensures Descending(LocatorHeights(height, step, size))
    decreases height
  {
    if height > 0 {
      var next := if height > step then height - step else 0;
      var step' := if size + 1 > 10 then 2 * step else step;
      LocatorDescends(next, step', size + 1);
      DescendingCons(height, LocatorHeights(next, step', size + 1));
    }
  }

  lemma {:induction false} HalvedSteps(h: nat, step: nat)
    requires 0 < step < h
    ensures (h - step) / (2 * step) <= (h / step) / 2 && h / step > 0
  {
    HalfSteps(h, step);
    DivAtLeast(h, step, 1);
    DivMonotone(h - step, h, 2 * step);
  }

  lemma {:induction false} HalfSteps(h: nat, step: nat)
    requires 0 < step
    ensures (h / step) / 2 == h / (2 * step)
  {
    DivDiv(h, step, 2);
  }

  lemma {:induction false} BitLenMonotone(x: nat, y: nat)
    requires x <= y
    ensures BitLen(x) <= BitLen(y)
  {
    if x > 0 { BitLenMonotone(x / 2, y / 2); }
  }

  lemma {:induction false} BitLenHalf(x: nat)
    requires x > 0
    ensures BitLen(x) == 1 + BitLen(x / 2)
  {
  }

  lemma {:induction false} LocatorTail(height: nat, step: nat, size: nat)
    requires step > 0 && size >= 10
    ensures |LocatorHeights(height, step, size)| <= 2 + BitLen(height / step)
    decreases height
  {
    hide BitLen;
    if height > step {
      LocatorTail(height - step, 2 * step, size + 1);
      HalvedSteps(height, step);
      BitLenHalf(height / step);
      BitLenMonotone((height - step) / (2 * step), (height / step) / 2);
    } else if height > 0 {
      assert LocatorHeights(0, 2 * step, size + 1) == [0];
    }
  }

  /** From the tenth entry on each step is twice the one before. */
  lemma {:induction false} DoublingSteps(height: nat, step: nat, size: nat, i: nat)
    requires step > 0 && size >= 10 && i < |LocatorHeights(height, step, size)| - 1
    ensures LocatorHeights(height, step, size)[i] == height - step * (Pow2(i) - 1)
    decreases i
  {
    var next := if height > step then height - step else 0;
    if i > 0 {
      if height <= step { assert LocatorHeights(0, 2 * step, size + 1) == [0]; }
      DoublingSteps(next, 2 * step, size + 1, i - 1);
      hide LocatorHeights;
      PowNext(2, i - 1);
      assert step + 2 * step * (Pow2(i - 1) - 1) == step * (2 * Pow2(i - 1) - 1);
    } else {
      assert Pow2(0) == 1;
    }
  }

  /** A locator lists the tip and its first ten predecessors, then blocks 2, 4, 8, ... heights apart, and ends with the
      first block of the chain. */
  lemma {:induction false} LocatorAt(height: nat, i: nat)
    requires i < |LocatorHeights(height, 1, 0)| - 1
    ensures LocatorHeights(height, 1, 0)[i] == if i <= 10 then height - i else height - 9 - Pow2(i - 10)
  {
    SingleSteps(height, 0, i);
  }

  lemma {:induction false} SingleSteps(height: nat, size: nat, i: nat)
    requires size <= 10 && i < |LocatorHeights(height, 1, size)| - 1
    ensures var n := 10 - size;
            LocatorHeights(height, 1, size)[i] == if i <= n then height - i else height - n + 1 - Pow2(i - n)
    decreases i
  {
    if size == 10 {
      DoublingSteps(height, 1, size, i);
      assert Pow2(0) == 1;
    } else if i > 0 {
      SingleSteps(height - 1, size + 1, i - 1);
    }
  }

  /** A locator has ten single steps, then doubling ones: at most 12 entries more than the height has bits. */
  lemma {:induction false} LocatorIsShort(height: nat, size: nat)
    requires size <= 10
    ensures |LocatorHeights(height, 1, size)| <= (10 - size) + 2 + BitLen(height)
    decreases height
  {
    if size == 10 {
      LocatorTail(height, 1, size);
    } else if height > 0 {
      LocatorIsShort(height - 1, size + 1);
      BitLenMonotone(height - 1, height);
    }
  }

  method LocatorEntries(index: BlockIndex?) returns (have: seq<Hash>)
    requires index != null ==> PathOk(Path(index)) && SkipsOk(Path(index))
    ensures index == null ==> have == []
    ensures index != null ==> var heights := LocatorHeights(index.nHeight, 1, 0);
              Collected(have, heights, Path(index))
  {
    have := [];
    if index == null {
      return;
    }
    hide PathOk, SkipsOk;
    PathTip(index);
    have := WalkLocator(index, Path(index));
  }

  method WalkLocator(index: BlockIndex, ghost p: seq<BlockIndex>) returns (have: seq<Hash>)
    requires PathOk(p) && SkipsOk(p) && index.nHeight < |p| && p[index.nHeight] == index
    ensures Collected(have, LocatorHeights(index.nHeight, 1, 0), p)
  {
    hide PathOk, SkipsOk, Path, LocatorHeights, Collected;
    CollectedNone(p);
    have := [];
    var step := 1;
    var walk: BlockIndex? := index;
    ghost var heights: seq<nat> := [];
    while walk != null
      invariant step > 0 && SkipsOk(p)
      invariant walk != null ==> walk.nHeight < |p| && walk == p[walk.nHeight]
      invariant walk != null ==>
                heights + LocatorHeights(walk.nHeight, step, |have|) == LocatorHeights(index.nHeight, 1, 0)
      invariant walk == null ==> heights == LocatorHeights(index.nHeight, 1, 0)
      invariant Collected(have, heights, p)
      decreases if walk != null then walk.nHeight + 1 else 0
    {
      LocatorStep(heights, walk.nHeight, step, |have|);
      PathAt(p, walk.nHeight);
      SkipsPrefix(p, walk.nHeight + 1);
      CollectedNext(have, heights, p, walk.nHeight);
      have, heights := have + [walk.hash], heights + [walk.nHeight];
      if walk.nHeight == 0 { break; }
      var height := if walk.nHeight > step then walk.nHeight - step else 0;
      PathAt(p, height);
      ghost var steps;
      walk, steps := walk.GetAncestor(height);
      if |have| > 10 { step := step * 2; }
    }
  }

  /** The hashes gathered so far are those of the blocks at the listed heights. */
  ghost predicate Collected(have: seq<Hash>, heights: seq<nat>, p: seq<BlockIndex>) {
    |heights| == |have| && forall i :: 0 <= i < |have| ==> heights[i] < |p| && have[i] == p[heights[i]].hash
  }

  lemma {:induction false} CollectedNone(p: seq<BlockIndex>)
    ensures Collected([], [], p)
  {
  }

  lemma {:induction false} CollectedNext(have: seq<Hash>, heights: seq<nat>, p: seq<BlockIndex>, h: nat)
    requires Collected(have, heights, p) && h < |p|
    ensures |heights| == |have| && Collected(have + [p[h].hash], heights + [h], p)
  {
  }

  lemma {:induction false} SkipsPrefix(p: seq<BlockIndex>, k: nat)
    requires SkipsOk(p) && k <= |p|
    ensures SkipsOk(p[..k])
  {
  }

  lemma {:induction false} LocatorStep(done: seq<nat>, height: nat, step: nat, size: nat)
    requires step > 0
    ensures height == 0 ==> done + LocatorHeights(height, step, size) == done + [height]
    ensures height > 0 ==>
      done + LocatorHeights(height, step, size)
      == var next := if height > step then height - step else 0;
         (done + [height]) + LocatorHeights(next, if size + 1 > 10 then 2 * step else step, size + 1)
  {
  }
}
