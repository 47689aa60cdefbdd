/** The two-phase headers download of src/headerssync.h and src/headerssync.cpp.

    PRESYNC follows a peer's headers, keeping one commitment bit per period; REDOWNLOAD fetches
    them again, checks the bits, and releases headers once enough successors or work lie on top.
 */
module HeadersSync {
  import Powers
  import opened Sequences

  const HEADER_COMMITMENT_PERIOD := 606
  const REDOWNLOAD_BUFFER_SIZE := 14441
  const UINT256_LIMIT := 0x1_0000000000000000000000000000000000000000000000000000000000000000

  datatype Header = Header(
    version: int, prev: nat, merkleRoot: nat, time: nat, bits: nat, nonce: nat,
    xmssRoot: nat, leafIndex: nat, commitmentsRoot: nat)

  /** A header without its predecessor's hash, and without the three proof-of-useful-work fields. */
  datatype CompressedHeader = CompressedHeader(version: int, merkleRoot: nat, time: nat, bits: nat, nonce: nat) {
    function GetFullHeader(hashPrev: nat): Header {
      Header(version, hashPrev, merkleRoot, time, bits, nonce, 0, 0, 0)
    }
  }

  function Compress(h: Header): CompressedHeader {
    CompressedHeader(h.version, h.merkleRoot, h.time, h.bits, h.nonce)
  }

  predicate DroppedFieldsNull(h: Header) {
    h.xmssRoot == 0 && h.leafIndex == 0 && h.commitmentsRoot == 0
  }

  datatype State = PRESYNC | REDOWNLOAD | FINAL

  datatype ProcessingResult = ProcessingResult(powValidatedHeaders: seq<Header>, success: bool, requestMore: bool)

  /** What is fixed for one sync: the hash functions, the difficulty rule, where the peer's chain
      starts, the secret commitment offset and the work to reach. */
  datatype Session = Session(
    hash: Header -> nat,
    saltedBit: nat -> bool,
    permitted: (nat, nat, nat) -> bool,
    blockProof: nat -> nat,
    start: Header, startHeight: nat, startWork: nat,
    commitOffset: nat, minimumWork: nat, maxCommitments: nat)
  {
    /** The header that the next one after `hs` has to build on. */
    function Last(hs: seq<Header>): Header {
      if hs == [] then start else hs[|hs| - 1]
    }

    predicate Permitted(hs: seq<Header>, h: Header) {
      permitted(startHeight + |hs| + 1, Last(hs).bits, h.bits)
    }

    predicate Connects(hs: seq<Header>, h: Header) {
      h.prev == hash(Last(hs))
    }

    predicate CommitsAt(height: nat) {
      height % HEADER_COMMITMENT_PERIOD == commitOffset
    }

    /** A continuous chain on top of the start, with permitted difficulty changes. */
    predicate ChainOk(hs: seq<Header>) {
      hs == [] ||
      (var before, h := hs[..|hs| - 1], hs[|hs| - 1];
       ChainOk(before) && Connects(before, h) && Permitted(before, h))
    }

    /** Adding a block's proof to a work total: 256-bit values, so the sum wraps at most once. */
    function AddWork(work: nat, bits: nat): nat {
      var sum := work + blockProof(bits);
      if sum < UINT256_LIMIT then sum else sum - UINT256_LIMIT
    }

    function Work(hs: seq<Header>): nat {
      if hs == [] then startWork else AddWork(Work(hs[..|hs| - 1]), hs[|hs| - 1].bits)
    }

    /** Some nonempty prefix has the required work. */
    predicate Reached(hs: seq<Header>) {
      hs != [] && (Reached(hs[..|hs| - 1]) || Work(hs) >= minimumWork)
    }

    /** The commitment bits of a chain, in height order. */
    function Commits(hs: seq<Header>): seq<bool> {
      if hs == [] then []
      else
        var before := Commits(hs[..|hs| - 1]);
        if CommitsAt(startHeight + |hs|) then before + [saltedBit(hash(hs[|hs| - 1]))] else before
    }

    /** What releasing the headers `hs` produces. */
    function Rebuild(hs: seq<Header>): (rs: seq<Header>)
      ensures |rs| == |hs|
    {
      if hs == [] then []
      else
        var before := Rebuild(hs[..|hs| - 1]);
        before + [Compress(hs[|hs| - 1]).GetFullHeader(hash(Last(before)))]
    }

    /** Until a prefix has the required work, its commitment bits are those of `target`. */
    predicate Matches(hs: seq<Header>, target: seq<bool>) {
      hs == [] || (Matches(hs[..|hs| - 1], target) && (Reached(hs) || Commits(hs) <= target))
    }

    /** What holds of a whole run: the headers accepted in PRESYNC, stored in REDOWNLOAD, and released. */
    ghost predicate RunOk(presync: seq<Header>, redownloaded: seq<Header>, released: seq<Header>) {
      && commitOffset < HEADER_COMMITMENT_PERIOD
      && ChainOk(redownloaded)
      && Matches(redownloaded, Commits(presync))
      && |released| <= |redownloaded|
      && released == Rebuild(redownloaded[..|released|])
      && (released == [] || Reached(redownloaded) || |released| + REDOWNLOAD_BUFFER_SIZE <= |redownloaded|)
    }

    /** What PRESYNC keeps about the headers seen so far. */
    ghost predicate PresyncOk(presync: seq<Header>, height: nat, last: Header, work: nat, commitments: seq<bool>) {
      && ChainOk(presync)
      && height == startHeight + |presync|
      && last == Last(presync)
      && work == Work(presync)
      && commitments == Commits(presync) && |commitments| <= maxCommitments
    }

    lemma {:induction false} PresyncSnoc(presync: seq<Header>, height: nat, last: Header, work: nat,
                                         commitments: seq<bool>, h: Header)
      requires PresyncOk(presync, height, last, work, commitments)
      requires Connects(presync, h)
      ensures var grown := if CommitsAt(height + 1) then commitments + [saltedBit(hash(h))] else commitments;
              var ok := permitted(height + 1, last.bits, h.bits) && |grown| <= maxCommitments;
              && (PresyncAccepts(this, presync, [h]) <==> ok)
              && (ok ==> PresyncOk(presync + [h], height + 1, h, AddWork(work, h.bits), grown))
    {
      Snoc(presync, h);
    }

    /** What REDOWNLOAD keeps about the last header stored. */
    ghost predicate TailOk(lastHeight: nat, lastHash: nat, work: nat, all: bool, redownloaded: seq<Header>) {
      && lastHeight == startHeight + |redownloaded|
      && lastHash == hash(Last(redownloaded))
      && work == Work(redownloaded)
      && all == Reached(redownloaded)
    }

    lemma {:induction false} TailSnoc(lastHeight: nat, lastHash: nat, work: nat, all: bool,
                                      redownloaded: seq<Header>, h: Header)
      requires TailOk(lastHeight, lastHash, work, all, redownloaded)
      ensures var total := AddWork(work, h.bits);
              TailOk(lastHeight + 1, hash(h), total, all || total >= minimumWork, redownloaded + [h])
    {
      SnocWork(redownloaded, h);
    }

    /** The buffer holds what is stored and not yet released. */
    ghost predicate BufferOk(buffer: seq<CompressedHeader>, firstPrevHash: nat,
                             redownloaded: seq<Header>, released: seq<Header>)
    {
      && |released| + |buffer| == |redownloaded|
      && (forall i :: 0 <= i < |buffer| ==> buffer[i] == Compress(redownloaded[|released| + i]))
      && firstPrevHash == hash(Last(released))
    }

    /** The commitments still to be checked. */
    ghost predicate RemainingOk(remaining: seq<bool>, presync: seq<Header>, redownloaded: seq<Header>) {
      !Reached(redownloaded) ==>
        && Commits(redownloaded) <= Commits(presync)
        && remaining == Commits(presync)[|Commits(redownloaded)|..]
    }

    lemma {:induction false} BufferSnoc(buffer: seq<CompressedHeader>, firstPrevHash: nat,
                                        redownloaded: seq<Header>, released: seq<Header>, h: Header)
      requires BufferOk(buffer, firstPrevHash, redownloaded, released)
      ensures BufferOk(buffer + [Compress(h)], firstPrevHash, redownloaded + [h], released)
    {
      var longer, all := buffer + [Compress(h)], redownloaded + [h];
      forall i | 0 <= i < |longer| ensures longer[i] == Compress(all[|released| + i]) {
        if i < |buffer| { assert all[|released| + i] == redownloaded[|released| + i]; }
      }
    }

    lemma {:induction false} BufferBack(buffer: seq<CompressedHeader>, firstPrevHash: nat,
                                        redownloaded: seq<Header>, released: seq<Header>)
      requires BufferOk(buffer, firstPrevHash, redownloaded, released)
      ensures buffer != [] ==> buffer[|buffer| - 1].bits == Last(redownloaded).bits
    {
    }

    lemma {:induction false} BufferPop(buffer: seq<CompressedHeader>, firstPrevHash: nat,
                                       redownloaded: seq<Header>, released: seq<Header>, next: Header)
      requires BufferOk(buffer, firstPrevHash, redownloaded, released)
      requires buffer != []
      ensures BufferOk(buffer[1..], hash(next), redownloaded, released + [next])
    {
      forall i | 0 <= i < |buffer| - 1 ensures buffer[1..][i] == Compress(redownloaded[|released| + 1 + i]) {
        assert buffer[i + 1] == Compress(redownloaded[|released| + (i + 1)]);
      }
    }

    lemma {:induction false} RebuildNext(hs: seq<Header>, k: nat)
      requires k < |hs|
      ensures Rebuild(hs[..k + 1]) ==
              Rebuild(hs[..k]) + [Compress(hs[k]).GetFullHeader(hash(Last(Rebuild(hs[..k]))))]
    {
      assert hs[..k + 1] == hs[..k] + [hs[k]];
      SnocRebuild(hs[..k], hs[k]);
    }

    lemma {:induction false} RunSnoc(presync: seq<Header>, redownloaded: seq<Header>, released: seq<Header>, h: Header)
      requires RunOk(presync, redownloaded, released)
      requires ChainOk(redownloaded + [h]) && Matches(redownloaded + [h], Commits(presync))
      ensures RunOk(presync, redownloaded + [h], released)
    {
      SnocWork(redownloaded, h);
      assert (redownloaded + [h])[..|released|] == redownloaded[..|released|];
    }

    /** The commitment check on the next header, given the bits still to be checked. */
    lemma {:induction false} CheckNext(remaining: seq<bool>, presync: seq<Header>, redownloaded: seq<Header>, h: Header,
                                       due: bool)
      requires RemainingOk(remaining, presync, redownloaded)
      requires Matches(redownloaded, Commits(presync))
      requires !Reached(redownloaded + [h])
      requires due == CommitsAt(startHeight + |redownloaded| + 1)
      ensures var good := !due || (remaining != [] && remaining[0] == saltedBit(hash(h)));
              && (Matches(redownloaded + [h], Commits(presync)) <==> good)
              && (good ==> RemainingOk(if due then remaining[1..] else remaining, presync, redownloaded + [h]))
    {
      SnocWork(redownloaded, h);
      SnocCommits(redownloaded, h);
      SnocMatches(redownloaded, h, Commits(presync));
      var n := |Commits(redownloaded)|;
      if remaining != [] {
        assert remaining[0] == Commits(presync)[n];
        assert remaining[1..] == Commits(presync)[n + 1..];
      }
    }

    lemma {:induction false} SnocChain(hs: seq<Header>, h: Header)
      ensures ChainOk(hs + [h]) <==> ChainOk(hs) && Connects(hs, h) && Permitted(hs, h)
    {
      assert (hs + [h])[..|hs|] == hs;
    }

    lemma {:induction false} SnocWork(hs: seq<Header>, h: Header)
      ensures Work(hs + [h]) == AddWork(Work(hs), h.bits)
      ensures Reached(hs + [h]) <==> Reached(hs) || Work(hs + [h]) >= minimumWork
    {
      assert (hs + [h])[..|hs|] == hs;
    }

    /** The proofs of a chain, added up without a limit. */
    ghost function TotalProof(hs: seq<Header>): nat {
      if hs == [] then 0 else blockProof(hs[0].bits) + TotalProof(hs[1..])
    }

    /** The start and every proof are 256-bit numbers. */
    ghost predicate ProofsFit() {
      startWork < UINT256_LIMIT && forall bits :: blockProof(bits) < UINT256_LIMIT
    }

    lemma {:induction false} TotalSnoc(hs: seq<Header>, h: Header)
      ensures TotalProof(hs + [h]) == TotalProof(hs) + blockProof(h.bits)
    {
      if hs == [] {
        assert hs + [h] == [h] && [h][1..] == [];
        assert TotalProof([]) == 0;
      } else {
        TotalSnoc(hs[1..], h);
        assert (hs + [h])[1..] == hs[1..] + [h];
      }
    }

    /** The work tracked is the start's and all proofs together, on 256 bits. */
    lemma {:induction false} WorkIsSum(hs: seq<Header>)
      requires ProofsFit()
      ensures UINT256_LIMIT == Powers.Pow2(256) && Work(hs) == (startWork + TotalProof(hs)) % UINT256_LIMIT
    {
      LimitIs();
      hide Powers.Pow2;
      if hs != [] {
        var n := |hs| - 1;
        assert hs == hs[..n] + [hs[n]];
        WorkIsSum(hs[..n]);
        TotalSnoc(hs[..n], hs[n]);
        WrapOnce(startWork + TotalProof(hs[..n]), blockProof(hs[n].bits));
      }
    }

    lemma {:induction false} TotalGrows(hs: seq<Header>, k: nat)
      requires k <= |hs|
      ensures TotalProof(hs[..k]) <= TotalProof(hs)
    {
      if k > 0 {
        TotalGrows(hs[1..], k - 1);
        assert hs[..k][1..] == hs[1..][..k - 1];
      }
    }

    /** As long as the sum fits 256 bits, the work never falls, and it is reached exactly when the sum is enough. */
    lemma {:induction false} ReachedIsEnough(hs: seq<Header>)
      requires ProofsFit() && startWork + TotalProof(hs) < UINT256_LIMIT
      ensures Work(hs) == startWork + TotalProof(hs)
      ensures forall k :: 0 <= k <= |hs| ==> Work(hs[..k]) <= Work(hs)
      ensures Reached(hs) <==> hs != [] && startWork + TotalProof(hs) >= minimumWork
    {
      WorkIsSum(hs);
      forall k | 0 <= k <= |hs| ensures Work(hs[..k]) <= Work(hs) {
        TotalGrows(hs, k);
        WorkIsSum(hs[..k]);
      }
      if hs != [] {
        var n := |hs| - 1;
        TotalGrows(hs, n);
        ReachedIsEnough(hs[..n]);
        assert Work(hs[..n]) <= Work(hs);
      }
    }

    lemma {:induction false} SnocCommits(hs: seq<Header>, h: Header)
      ensures Commits(hs + [h]) ==
              if CommitsAt(startHeight + |hs| + 1) then Commits(hs) + [saltedBit(hash(h))] else Commits(hs)
    {
      assert (hs + [h])[..|hs|] == hs;
    }

    /** How every measure of a chain grows with one more header. */
    lemma {:induction false} Snoc(hs: seq<Header>, h: Header)
      ensures ChainOk(hs + [h]) <==> ChainOk(hs) && Connects(hs, h) && Permitted(hs, h)
      ensures Work(hs + [h]) == AddWork(Work(hs), h.bits)
      ensures Reached(hs + [h]) <==> Reached(hs) || Work(hs + [h]) >= minimumWork
      ensures Commits(hs + [h]) ==
              if CommitsAt(startHeight + |hs| + 1) then Commits(hs) + [saltedBit(hash(h))] else Commits(hs)
    {
      SnocChain(hs, h);
      SnocWork(hs, h);
      SnocCommits(hs, h);
    }

    lemma {:induction false} SnocMatches(hs: seq<Header>, h: Header, target: seq<bool>)
      ensures Matches(hs + [h], target) <==>
              Matches(hs, target) && (Reached(hs + [h]) || Commits(hs + [h]) <= target)
    {
      assert (hs + [h])[..|hs|] == hs;
    }

    lemma {:induction false} SnocRebuild(hs: seq<Header>, h: Header)
      ensures Rebuild(hs + [h]) ==
              Rebuild(hs) + [Compress(h).GetFullHeader(hash(Last(Rebuild(hs))))]
    {
      assert (hs + [h])[..|hs|] == hs;
    }

    /** Everything checked on a chain is checked on its prefixes. */
    lemma {:induction false} Prefixes(hs: seq<Header>, k: nat, target: seq<bool>)
      requires k <= |hs|
      ensures ChainOk(hs) ==> ChainOk(hs[..k])
      ensures Commits(hs[..k]) <= Commits(hs)
      ensures Reached(hs[..k]) ==> Reached(hs)
      ensures Matches(hs, target) ==> Matches(hs[..k], target)
    {
      if k == |hs| {
        assert hs[..k] == hs;
      } else {
        var hs' := hs[..|hs| - 1];
        assert hs == hs' + [hs[|hs| - 1]];
        Snoc(hs', hs[|hs| - 1]);
        SnocMatches(hs', hs[|hs| - 1], target);
        Prefixes(hs', k, target);
        assert hs[..k] == hs'[..k];
      }
    }

    /** A chain that starts with the PRESYNC headers passes every commitment check. */
    lemma {:induction false} SameHeadersMatch(presync: seq<Header>, hs: seq<Header>, chain: seq<Header>)
      requires presync != [] && Work(presync) >= minimumWork
      requires presync <= chain && hs <= chain
      ensures Matches(hs, Commits(presync))
      ensures |hs| >= |presync| ==> Reached(hs)
    {
      if hs != [] {
        var n := |hs| - 1;
        SameHeadersMatch(presync, hs[..n], chain);
        if |hs| >= |presync| {
          assert hs[..|presync|] == presync;
          Prefixes(hs, |presync|, []);
        } else {
          assert presync[..|hs|] == hs;
          Prefixes(presync, |hs|, []);
        }
      }
    }

    /** The released headers are the received ones exactly when no received one used a dropped field. */
    lemma {:induction false} RebuildIsIdentity(hs: seq<Header>)
      requires ChainOk(hs)
      ensures Rebuild(hs) == hs <==> forall i :: 0 <= i < |hs| ==> DroppedFieldsNull(hs[i])
    {
      if hs != [] {
        var n := |hs| - 1;
        var before, h := hs[..n], hs[n];
        assert hs == before + [h];
        Snoc(before, h);
        SnocRebuild(before, h);
        RebuildIsIdentity(before);
        if Rebuild(hs) == hs {
          assert Rebuild(before) == Rebuild(hs)[..n] == before;
          assert Rebuild(hs)[n] == h;
        }
      }
    }

    /** A header with a proof-of-useful-work root does not survive the buffer. */
    lemma UsefulWorkHeaderIsChanged()
      ensures var h := Header(1, hash(start), 0, 0, 0, 0, 1, 0, 0);
              Connects([], h) && Rebuild([h]) == [h.(xmssRoot := 0)]
    {
      var h := Header(1, hash(start), 0, 0, 0, 0, 1, 0, 0);
      assert [h] == [] + [h];
      SnocRebuild([], h);
    }

    /** Over a run, what was handed out is what was received exactly when no dropped field was used. */
    lemma ReleasedIsReceived(presync: seq<Header>, redownloaded: seq<Header>, released: seq<Header>)
      requires RunOk(presync, redownloaded, released)
      ensures released == redownloaded[..|released|] <==>
              forall i :: 0 <= i < |released| ==> DroppedFieldsNull(redownloaded[i])
    {
      var part := redownloaded[..|released|];
      Prefixes(redownloaded, |released|, []);
      RebuildIsIdentity(part);
      assert forall i :: 0 <= i < |released| ==> part[i] == redownloaded[i];
    }

    /** Each header handed out lies on a chain with the required work, or under at least 23
        commitments that agreed with PRESYNC. */
    lemma ReleasedIsProven(presync: seq<Header>, redownloaded: seq<Header>, released: seq<Header>, i: nat)
      requires RunOk(presync, redownloaded, released)
      requires i < |released|
      ensures
        || Reached(redownloaded)
        || (&& Commits(redownloaded) <= Commits(presync)
            && |Commits(redownloaded[..i + 1])| + 23 <= |Commits(redownloaded)|)
    {
      if !Reached(redownloaded) { BuriedUnderCommitments(redownloaded, i, Commits(presync)); }
    }

    /** Released headers keep the five stored fields and form a chain of their own. */
    lemma {:induction false} RebuildKeepsFields(hs: seq<Header>, i: nat)
      requires i < |hs|
      ensures Compress(Rebuild(hs)[i]) == Compress(hs[i])
      ensures DroppedFieldsNull(Rebuild(hs)[i])
      ensures Rebuild(hs)[i].prev == hash(Last(Rebuild(hs)[..i]))
    {
      var n := |hs| - 1;
      assert hs == hs[..n] + [hs[n]];
      SnocRebuild(hs[..n], hs[n]);
      if i < n {
        RebuildKeepsFields(hs[..n], i);
        assert Rebuild(hs)[..i] == Rebuild(hs[..n])[..i];
      } else {
        assert Rebuild(hs)[..i] == Rebuild(hs[..n]);
      }
    }

    lemma {:induction false} RebuildPrefix(hs: seq<Header>, k: nat)
      requires k <= |hs|
      ensures Rebuild(hs)[..k] == Rebuild(hs[..k])
    {
      if k == |hs| {
        assert hs[..k] == hs;
      } else {
        var n := |hs| - 1;
        assert hs == hs[..n] + [hs[n]];
        SnocRebuild(hs[..n], hs[n]);
        RebuildPrefix(hs[..n], k);
        assert hs[..k] == hs[..n][..k];
      }
    }

    /** The number of commitment heights up to a height, counted from below the start. */
    ghost function CommitIndex(height: nat): int { (height + 606 - commitOffset) / 606 }

    lemma {:induction false} CommitsCount(hs: seq<Header>)
      requires commitOffset < HEADER_COMMITMENT_PERIOD
      ensures |Commits(hs)| == CommitIndex(startHeight + |hs|) - CommitIndex(startHeight)
    {
      if hs != [] {
        var n := |hs| - 1;
        assert hs == hs[..n] + [hs[n]];
        SnocCommits(hs[..n], hs[n]);
        CommitsCount(hs[..n]);
        hide Commits;
      }
    }

    /** A header with a full buffer of checked successors lies under at least 23 matching commitments. */
    lemma {:induction false} BuriedUnderCommitments(hs: seq<Header>, i: nat, target: seq<bool>)
      requires commitOffset < HEADER_COMMITMENT_PERIOD
      requires i + REDOWNLOAD_BUFFER_SIZE < |hs|
      requires Matches(hs, target) && !Reached(hs)
      ensures Commits(hs) <= target
      ensures |Commits(hs[..i + 1])| + 23 <= |Commits(hs)|
    {
      CommitsCount(hs);
      CommitsCount(hs[..i + 1]);
    }
  }

  lemma {:induction false} LimitIs()
    ensures UINT256_LIMIT == Powers.Pow2(256)
  {
    SmallerLimit();
    Powers.Pow2Add(64, 64);
    Powers.Pow2Add(128, 128);
    hide Powers.Pow2;
  }

  lemma {:induction false} SmallerLimit()
    ensures Powers.Pow2(64) == 0x1_0000_0000_0000_0000
  {
    Powers.Pow2Add(4, 4);
    Powers.Pow2Add(8, 8);
    Powers.Pow2Add(16, 16);
    Powers.Pow2Add(32, 32);
  }

  lemma {:induction false} WrapOnce(sum: nat, proof: nat)
    requires proof < UINT256_LIMIT
    ensures var total := sum % UINT256_LIMIT + proof;
            (if total < UINT256_LIMIT then total else total - UINT256_LIMIT) == (sum + proof) % UINT256_LIMIT
  {
  }

  // ----- The protocol object -----

  class HeadersSyncState {
    const cfg: Session
    var currentChainWork: nat
    var headerCommitments: seq<bool>
    var lastHeaderReceived: Header
    var currentHeight: nat
    var redownloadedHeaders: seq<CompressedHeader>
    var redownloadBufferLastHeight: nat
    var redownloadBufferLastHash: nat
    var redownloadBufferFirstPrevHash: nat
    var redownloadChainWork: nat
    var processAllRemainingHeaders: bool
    var downloadState: State

    // Headers accepted in PRESYNC, stored in REDOWNLOAD, and handed to the caller, over the whole run.
    ghost var presync: seq<Header>
    ghost var redownloaded: seq<Header>
    ghost var released: seq<Header>

    ghost predicate PresyncInv()
      reads this
    {
      && cfg.commitOffset < HEADER_COMMITMENT_PERIOD
      && cfg.PresyncOk(presync, currentHeight, lastHeaderReceived, currentChainWork, headerCommitments)
      && redownloaded == [] && released == []
      && redownloadedHeaders == [] && !processAllRemainingHeaders
    }

    ghost predicate PresyncDone()
      reads this
    {
      presync != [] && cfg.ChainOk(presync) && cfg.Work(presync) >= cfg.minimumWork
    }

    ghost predicate RedownloadInv()
      reads this
    {
      && History()
      && PresyncDone()
      && |headerCommitments| <= cfg.maxCommitments
      && cfg.TailOk(redownloadBufferLastHeight, redownloadBufferLastHash, redownloadChainWork,
                    processAllRemainingHeaders, redownloaded)
      && cfg.BufferOk(redownloadedHeaders, redownloadBufferFirstPrevHash, redownloaded, released)
      && cfg.RemainingOk(headerCommitments, presync, redownloaded)
    }

    ghost predicate History()
      reads this
    {
      cfg.RunOk(presync, redownloaded, released)
    }

    /** Between calls. */
    ghost predicate Valid()
      reads this
    {
      && History()
      && match downloadState
         case PRESYNC => PresyncInv()
         case REDOWNLOAD =>
           RedownloadInv() && !processAllRemainingHeaders && |redownloadedHeaders| <= REDOWNLOAD_BUFFER_SIZE
         case FINAL => headerCommitments == [] && redownloadedHeaders == [] && !processAllRemainingHeaders
    }

    constructor (cfg: Session)
      requires cfg.commitOffset < HEADER_COMMITMENT_PERIOD
      ensures this.cfg == cfg
      ensures Valid() && downloadState == PRESYNC && presync == []
      ensures headerCommitments == [] && redownloadedHeaders == [] && !processAllRemainingHeaders
      ensures redownloadBufferLastHeight == redownloadBufferLastHash == redownloadBufferFirstPrevHash == 0
      ensures redownloadChainWork == 0
    {
      this.cfg := cfg;
      currentChainWork, headerCommitments := cfg.startWork, [];
      lastHeaderReceived, currentHeight := cfg.start, cfg.startHeight;
      redownloadedHeaders, redownloadBufferLastHeight := [], 0;
      redownloadBufferLastHash, redownloadBufferFirstPrevHash, redownloadChainWork := 0, 0, 0;
      processAllRemainingHeaders, downloadState := false, PRESYNC;
      presync, redownloaded, released := [], [], [];
    }

    method Finalize()
      requires History()
      modifies this
      ensures Valid() && downloadState == FINAL
      ensures presync == old(presync) && redownloaded == old(redownloaded) && released == old(released)
      ensures headerCommitments == [] && redownloadedHeaders == [] && !processAllRemainingHeaders
      ensures currentHeight == redownloadBufferLastHash == redownloadBufferFirstPrevHash == 0
      ensures lastHeaderReceived == Header(0, 0, 0, 0, 0, 0, 0, 0, 0)
    {
      headerCommitments, redownloadedHeaders := [], [];
      lastHeaderReceived := Header(0, 0, 0, 0, 0, 0, 0, 0, 0);
      redownloadBufferLastHash, redownloadBufferFirstPrevHash := 0, 0;
      processAllRemainingHeaders, currentHeight := false, 0;
      downloadState := FINAL;
    }

    method ValidateAndProcessSingleHeader(current: Header) returns (ok: bool)
      requires downloadState == PRESYNC && PresyncInv()
      requires cfg.Connects(presync, current)
      modifies this
      ensures downloadState == PRESYNC
      ensures ok <==> PresyncAccepts(cfg, old(presync), [current])
      ensures ok ==> PresyncInv() && presync == old(presync) + [current]
      ensures !ok ==> presync == old(presync) && redownloaded == [] && released == []
    {
      cfg.PresyncSnoc(presync, currentHeight, lastHeaderReceived, currentChainWork, headerCommitments, current);
      var nextHeight := currentHeight + 1;
      if !cfg.permitted(nextHeight, lastHeaderReceived.bits, current.bits) { return false; }
      if cfg.CommitsAt(nextHeight) {
        headerCommitments := headerCommitments + [cfg.saltedBit(cfg.hash(current))];
        if |headerCommitments| > cfg.maxCommitments { return false; }
      }
      currentChainWork := cfg.AddWork(currentChainWork, current.bits);
      lastHeaderReceived, currentHeight, presync := current, nextHeight, presync + [current];
      ok := true;
    }

    method ValidateAndStoreHeadersCommitments(headers: seq<Header>) returns (ok: bool)
      requires downloadState == PRESYNC && PresyncInv()
      requires Continuous(cfg, headers)
      modifies this
      ensures ok <==> headers == [] || PresyncAccepts(cfg, old(presync), headers)
      ensures ok ==> presync == old(presync) + headers
      ensures ok && headers == [] ==> downloadState == PRESYNC && PresyncInv()
      ensures ok && headers != [] ==>
                if cfg.Work(presync) >= cfg.minimumWork
                then downloadState == REDOWNLOAD && RedownloadInv() && redownloaded == [] && released == []
                else downloadState == PRESYNC && PresyncInv()
      ensures !ok ==> redownloaded == [] && released == []
    {
      if |headers| == 0 { return true; }
      if headers[0].prev != cfg.hash(lastHeaderReceived) {
        NotConnected(cfg, presync, headers);
        return false;
      }
      for i := 0 to |headers|
        invariant downloadState == PRESYNC && PresyncInv()
        invariant presync == old(presync) + headers[..i]
      {
        AppendNext(old(presync), headers, i);
        PresyncOneMore(cfg, old(presync), headers, i);
        var accepted := ValidateAndProcessSingleHeader(headers[i]);
        if !accepted {
          PresyncRejects(cfg, old(presync), headers, i + 1);
          return false;
        }
      }
      TakeAll(headers);
      if currentChainWork >= cfg.minimumWork { StartRedownload(); }
      ok := true;
    }

    method StartRedownload()
      requires downloadState == PRESYNC && PresyncInv() && presync != []
      requires currentChainWork >= cfg.minimumWork
      modifies this
      ensures downloadState == REDOWNLOAD && RedownloadInv()
      ensures presync == old(presync) && redownloaded == [] && released == []
    {
      redownloadedHeaders, redownloadBufferLastHeight := [], cfg.startHeight;
      redownloadBufferFirstPrevHash, redownloadBufferLastHash := cfg.hash(cfg.start), cfg.hash(cfg.start);
      redownloadChainWork, downloadState := cfg.startWork, REDOWNLOAD;
    }

    /** In REDOWNLOAD, checks one header and appends it to the buffer. */
    method ValidateAndStoreRedownloadedHeader(header: Header) returns (ok: bool)
      requires downloadState == REDOWNLOAD && RedownloadInv()
      requires redownloadedHeaders == [] ==> redownloaded == []
      modifies this
      ensures presync == old(presync) && released == old(released) && downloadState == REDOWNLOAD
      ensures ok <==> RedownloadAccepts(cfg, presync, old(redownloaded) + [header])
      ensures ok ==> redownloaded == old(redownloaded) + [header] && RedownloadInv() && redownloadedHeaders != []
      ensures !ok ==> redownloaded == old(redownloaded)
    {
      ok := ConnectsWithPermittedBits(header);
      if !ok { return; }
      ok := TrackWorkAndCommitment(header);
      if !ok { return; }
      StoreHeader(header);
    }

    /** The first checks on a redownloaded header: its predecessor and its difficulty. */
    method ConnectsWithPermittedBits(header: Header) returns (ok: bool)
      requires cfg.ChainOk(redownloaded)
      requires cfg.TailOk(redownloadBufferLastHeight, redownloadBufferLastHash, redownloadChainWork,
                          processAllRemainingHeaders, redownloaded)
      requires cfg.BufferOk(redownloadedHeaders, redownloadBufferFirstPrevHash, redownloaded, released)
      requires redownloadedHeaders == [] ==> redownloaded == []
      ensures ok <==> cfg.ChainOk(redownloaded + [header])
    {
      cfg.SnocChain(redownloaded, header);
      if header.prev != redownloadBufferLastHash { return false; }
      cfg.BufferBack(redownloadedHeaders, redownloadBufferFirstPrevHash, redownloaded, released);
      var previousBits := cfg.start.bits;
      if redownloadedHeaders != [] { previousBits := redownloadedHeaders[|redownloadedHeaders| - 1].bits; }
      ok := cfg.permitted(redownloadBufferLastHeight + 1, previousBits, header.bits);
    }

    /** The last step: the header goes to the buffer. */
    method StoreHeader(header: Header)
      requires downloadState == REDOWNLOAD && PresyncDone()
      requires History() && |headerCommitments| <= cfg.maxCommitments
      requires cfg.ChainOk(redownloaded + [header]) && cfg.Matches(redownloaded + [header], cfg.Commits(presync))
      requires cfg.TailOk(redownloadBufferLastHeight + 1, cfg.hash(header), redownloadChainWork,
                          processAllRemainingHeaders, redownloaded + [header])
      requires cfg.BufferOk(redownloadedHeaders, redownloadBufferFirstPrevHash, redownloaded, released)
      requires cfg.RemainingOk(headerCommitments, presync, redownloaded + [header])
      modifies this
      ensures presync == old(presync) && released == old(released) && downloadState == REDOWNLOAD
      ensures redownloaded == old(redownloaded) + [header] && RedownloadInv() && redownloadedHeaders != []
    {
      cfg.RunSnoc(presync, redownloaded, released, header);
      cfg.BufferSnoc(redownloadedHeaders, redownloadBufferFirstPrevHash, redownloaded, released, header);
      redownloadedHeaders, redownloaded := redownloadedHeaders + [Compress(header)], redownloaded + [header];
      redownloadBufferLastHeight, redownloadBufferLastHash := redownloadBufferLastHeight + 1, cfg.hash(header);
    }

    /** The next checks: the work total, the release flag and the commitment check. */
    method TrackWorkAndCommitment(header: Header) returns (ok: bool)
      requires cfg.Matches(redownloaded, cfg.Commits(presync))
      requires cfg.TailOk(redownloadBufferLastHeight, redownloadBufferLastHash, redownloadChainWork,
                          processAllRemainingHeaders, redownloaded)
      requires cfg.RemainingOk(headerCommitments, presync, redownloaded)
      requires |headerCommitments| <= cfg.maxCommitments
      modifies this`redownloadChainWork, this`processAllRemainingHeaders, this`headerCommitments
      ensures cfg.TailOk(redownloadBufferLastHeight + 1, cfg.hash(header), redownloadChainWork,
                         processAllRemainingHeaders, redownloaded + [header])
      ensures ok <==> cfg.Matches(redownloaded + [header], cfg.Commits(presync))
      ensures ok ==> cfg.RemainingOk(headerCommitments, presync, redownloaded + [header])
      ensures |headerCommitments| <= cfg.maxCommitments
    {
      hide Session.Matches, Session.Commits, Session.Reached, Session.Work;
      ghost var all := redownloaded + [header];
      cfg.TailSnoc(redownloadBufferLastHeight, redownloadBufferLastHash, redownloadChainWork,
                   processAllRemainingHeaders, redownloaded, header);
      var total := cfg.AddWork(redownloadChainWork, header.bits);
      redownloadChainWork, processAllRemainingHeaders :=
        total, processAllRemainingHeaders || total >= cfg.minimumWork;
      if processAllRemainingHeaders {
        assert cfg.Reached(all);
        cfg.SnocMatches(redownloaded, header, cfg.Commits(presync));
        return true;
      }
      ok := CheckCommitment(header);
    }

    method CheckCommitment(header: Header) returns (ok: bool)
      requires cfg.Matches(redownloaded, cfg.Commits(presync)) && !cfg.Reached(redownloaded + [header])
      requires redownloadBufferLastHeight == cfg.startHeight + |redownloaded|
      requires cfg.RemainingOk(headerCommitments, presync, redownloaded)
      modifies this`headerCommitments
      ensures ok <==> cfg.Matches(redownloaded + [header], cfg.Commits(presync))
      ensures ok ==> cfg.RemainingOk(headerCommitments, presync, redownloaded + [header])
      ensures |headerCommitments| <= |old(headerCommitments)|
    {
      hide Session.Matches, Session.Commits, Session.Reached, Session.RemainingOk, Session.CommitsAt;
      var due := cfg.CommitsAt(redownloadBufferLastHeight + 1);
      cfg.CheckNext(headerCommitments, presync, redownloaded, header, due);
      if due {
        if |headerCommitments| == 0 { return false; }
        var commitment := cfg.saltedBit(cfg.hash(header));
        var expected := headerCommitments[0];
        headerCommitments := headerCommitments[1..];
        if commitment != expected { return false; }
      }
      ok := true;
    }

    /** Releases headers from the front of the buffer. */
    method PopHeadersReadyForAcceptance() returns (ret: seq<Header>)
      requires downloadState == REDOWNLOAD && RedownloadInv()
      modifies this`redownloadedHeaders, this`redownloadBufferFirstPrevHash, this`released
      ensures RedownloadInv()
      ensures released == old(released) + ret
      ensures |released| == ReleasePoint(cfg, redownloaded, |old(released)|)
    {
      ret := [];
      while |redownloadedHeaders| > REDOWNLOAD_BUFFER_SIZE || (|redownloadedHeaders| > 0 && processAllRemainingHeaders)
        invariant cfg.BufferOk(redownloadedHeaders, redownloadBufferFirstPrevHash, redownloaded, released)
        invariant released == cfg.Rebuild(redownloaded[..|released|])
        invariant released == old(released) + ret
        invariant processAllRemainingHeaders || ret == [] || |redownloadedHeaders| >= REDOWNLOAD_BUFFER_SIZE
        decreases |redownloadedHeaders|
      {
        var full := PopFront();
        ret := ret + [full];
      }
    }

    method PopFront() returns (full: Header)
      requires redownloadedHeaders != []
      requires cfg.BufferOk(redownloadedHeaders, redownloadBufferFirstPrevHash, redownloaded, released)
      requires released == cfg.Rebuild(redownloaded[..|released|])
      modifies this`redownloadedHeaders, this`redownloadBufferFirstPrevHash, this`released
      ensures |redownloadedHeaders| == |old(redownloadedHeaders)| - 1
      ensures cfg.BufferOk(redownloadedHeaders, redownloadBufferFirstPrevHash, redownloaded, released)
      ensures released == old(released) + [full] && released == cfg.Rebuild(redownloaded[..|released|])
    {
      full := redownloadedHeaders[0].GetFullHeader(redownloadBufferFirstPrevHash);
      cfg.RebuildNext(redownloaded, |released|);
      cfg.BufferPop(redownloadedHeaders, redownloadBufferFirstPrevHash, redownloaded, released, full);
      redownloadedHeaders, released := redownloadedHeaders[1..], released + [full];
      redownloadBufferFirstPrevHash := cfg.hash(full);
    }

    /** Stores a message of redownloaded headers, up to the first that fails a check. */
    method StoreRedownloadedHeaders(headers: seq<Header>) returns (ok: bool)
      requires downloadState == REDOWNLOAD && RedownloadInv()
      requires redownloadedHeaders == [] ==> redownloaded == []
      modifies this
      ensures presync == old(presync) && released == old(released) && downloadState == REDOWNLOAD
      ensures ok <==> RedownloadAccepts(cfg, presync, old(redownloaded) + headers)
      ensures ok ==> redownloaded == old(redownloaded) + headers && RedownloadInv()
      ensures History()
    {
      ghost var before := redownloaded;
      for i := 0 to |headers|
        invariant presync == old(presync) && released == old(released) && downloadState == REDOWNLOAD
        invariant redownloaded == before + headers[..i]
        invariant RedownloadInv()
        invariant redownloadedHeaders == [] ==> redownloaded == []
      {
        AppendNext(before, headers, i);
        ok := ValidateAndStoreRedownloadedHeader(headers[i]);
        if !ok {
          RedownloadRejects(cfg, presync, before, headers, i + 1);
          return;
        }
      }
      TakeAll(headers);
      ok := true;
    }

    /** The outcome of a PRESYNC message `headers` after the headers `before`. */
    ghost predicate PresyncStep(r: ProcessingResult, full: bool, before: seq<Header>, headers: seq<Header>)
      reads this
    {
      var all := before + headers;
      var enough := cfg.Work(all) >= cfg.minimumWork;
      && r.powValidatedHeaders == [] && redownloaded == []
      && if PresyncAccepts(cfg, before, headers) then
           && r.success && r.requestMore == (full || enough)
           && presync == all
           && downloadState == if enough then REDOWNLOAD else if full then PRESYNC else FINAL
         else !r.success && !r.requestMore && downloadState == FINAL
    }

    /** The outcome of a REDOWNLOAD message `headers` after the headers `before`, `n` of them released. */
    ghost predicate RedownloadStep(r: ProcessingResult, full: bool, before: seq<Header>, headers: seq<Header>, n: nat)
      reads this
    {
      var all := before + headers;
      if RedownloadAccepts(cfg, presync, all) then
        && r.success && r.requestMore == (full && !cfg.Reached(all))
        && redownloaded == all && |released| == ReleasePoint(cfg, all, n)
        && downloadState == if r.requestMore then REDOWNLOAD else FINAL
      else
        && !r.success && !r.requestMore && r.powValidatedHeaders == []
        && downloadState == FINAL
    }

    method ProcessPresync(headers: seq<Header>, full: bool) returns (r: ProcessingResult)
      requires Valid() && downloadState == PRESYNC
      requires headers != [] && Continuous(cfg, headers)
      modifies this
      ensures Valid() && released == []
      ensures PresyncStep(r, full, old(presync), headers)
    {
      var ok := ValidateAndStoreHeadersCommitments(headers);
      r := ProcessingResult([], ok, ok && (full || downloadState == REDOWNLOAD));
      if !(r.success && r.requestMore) { Finalize(); }
    }

    method ProcessRedownload(headers: seq<Header>, full: bool) returns (r: ProcessingResult)
      requires Valid() && downloadState == REDOWNLOAD
      requires headers != []
      modifies this
      ensures Valid()
      ensures presync == old(presync) && released == old(released) + r.powValidatedHeaders
      ensures RedownloadStep(r, full, old(redownloaded), headers, |old(released)|)
    {
      var ok := StoreRedownloadedHeaders(headers);
      r := ProcessingResult([], ok, false);
      if ok {
        var ready := PopHeadersReadyForAcceptance();
        var complete := redownloadedHeaders == [] && processAllRemainingHeaders;
        r := ProcessingResult(ready, true, !complete && full);
      }
      if !(r.success && r.requestMore) { Finalize(); }
    }

    /** Processes one message.  The three cases below give the result and the next state outright. */
    method ProcessNextHeaders(headers: seq<Header>, fullHeadersMessage: bool) returns (r: ProcessingResult)
      requires Valid()
      requires Continuous(cfg, headers)
      modifies this
      ensures Valid()
      ensures released == old(released) + r.powValidatedHeaders
      ensures headers == [] || old(downloadState) == FINAL ==>
                && r == ProcessingResult([], false, false)
                && downloadState == old(downloadState) && presync == old(presync) && redownloaded == old(redownloaded)
      ensures headers != [] && old(downloadState) == PRESYNC ==>
              PresyncStep(r, fullHeadersMessage, old(presync), headers)
      ensures headers != [] && old(downloadState) == REDOWNLOAD ==>
                presync == old(presync)
                && RedownloadStep(r, fullHeadersMessage, old(redownloaded), headers, |old(released)|)
      ensures headers != [] && old(downloadState) == PRESYNC && r.success && cfg.ProofsFit()
              && cfg.startWork + cfg.TotalProof(presync) < UINT256_LIMIT ==>
                (downloadState == REDOWNLOAD <==> cfg.startWork + cfg.TotalProof(presync) >= cfg.minimumWork)
      ensures headers != [] && old(downloadState) == REDOWNLOAD && r.success && cfg.ProofsFit()
              && cfg.minimumWork <= cfg.startWork + cfg.TotalProof(redownloaded) < UINT256_LIMIT ==>
                |released| == |redownloaded|
    {
      hide Session.TotalProof, Session.ProofsFit, Session.Work, Session.Reached;
      r := ProcessingResult([], false, false);
      if headers == [] || downloadState == FINAL { return; }
      if downloadState == PRESYNC {
        r := ProcessPresync(headers, fullHeadersMessage);
        if cfg.ProofsFit() && cfg.startWork + cfg.TotalProof(presync) < UINT256_LIMIT { cfg.ReachedIsEnough(presync); }
      } else {
        r := ProcessRedownload(headers, fullHeadersMessage);
        if cfg.ProofsFit() && cfg.startWork + cfg.TotalProof(redownloaded) < UINT256_LIMIT {
          cfg.ReachedIsEnough(redownloaded);
        }
      }
    }
  }

  /** What the caller has checked of a message: each header builds on the one before it. */
  predicate Continuous(cfg: Session, headers: seq<Header>) {
    forall i :: 0 < i < |headers| ==> headers[i].prev == cfg.hash(headers[i - 1])
  }

  /** When PRESYNC takes a whole message. */
  predicate PresyncAccepts(cfg: Session, presync: seq<Header>, headers: seq<Header>) {
    cfg.ChainOk(presync + headers) && |cfg.Commits(presync + headers)| <= cfg.maxCommitments
  }

  /** When REDOWNLOAD can store a chain, after a given PRESYNC phase. */
  predicate RedownloadAccepts(cfg: Session, presync: seq<Header>, chain: seq<Header>) {
    cfg.ChainOk(chain) && cfg.Matches(chain, cfg.Commits(presync))
  }

  /** How many headers are released once `chain` is stored, `n` having been released before. */
  ghost function ReleasePoint(cfg: Session, chain: seq<Header>, n: nat): nat {
    if cfg.Reached(chain) then |chain| else if n + 14441 < |chain| then |chain| - 14441 else n
  }

  lemma {:induction false} RedownloadRejects(cfg: Session, presync: seq<Header>, before: seq<Header>,
                                             headers: seq<Header>, k: nat)
    requires k <= |headers|
    requires !RedownloadAccepts(cfg, presync, before + headers[..k])
    ensures !RedownloadAccepts(cfg, presync, before + headers)
  {
    cfg.Prefixes(before + headers, |before| + k, cfg.Commits(presync));
    assert (before + headers)[..|before| + k] == before + headers[..k];
  }

  lemma {:induction false} PresyncRejects(cfg: Session, presync: seq<Header>, headers: seq<Header>, k: nat)
    requires k <= |headers|
    requires !PresyncAccepts(cfg, presync, headers[..k])
    ensures !PresyncAccepts(cfg, presync, headers)
  {
    cfg.Prefixes(presync + headers, |presync| + k, []);
    assert (presync + headers)[..|presync| + k] == presync + headers[..k];
  }

  lemma {:induction false} PresyncOneMore(cfg: Session, presync: seq<Header>, headers: seq<Header>, i: nat)
    requires i < |headers|
    ensures PresyncAccepts(cfg, presync + headers[..i], [headers[i]]) <==>
            PresyncAccepts(cfg, presync, headers[..i + 1])
  {
    AppendNext(presync, headers, i);
  }

  lemma {:induction false} NotConnected(cfg: Session, presync: seq<Header>, headers: seq<Header>)
    requires headers != [] && !cfg.Connects(presync, headers[0])
    ensures !cfg.ChainOk(presync + headers)
  {
    cfg.Prefixes(presync + headers, |presync| + 1, []);
    assert (presync + headers)[..|presync| + 1] == presync + [headers[0]];
    cfg.SnocChain(presync, headers[0]);
  }

  // ----- Whole runs against a peer that serves one chain -----

  function Flatten(messages: seq<seq<Header>>): seq<Header> {
    if messages == [] then [] else Flatten(messages[..|messages| - 1]) + messages[|messages| - 1]
  }

  lemma {:induction false} FlattenPrefix(messages: seq<seq<Header>>, k: nat)
    requires k <= |messages|
    ensures Flatten(messages[..k]) <= Flatten(messages)
    ensures k < |messages| ==> Flatten(messages[..k + 1]) == Flatten(messages[..k]) + messages[k]
  {
    if k == |messages| {
      assert messages[..k] == messages;
    } else {
      var n := |messages| - 1;
      assert messages[..k + 1][..k] == messages[..k];
      FlattenPrefix(messages[..n], k);
      assert messages[..n][..k] == messages[..k];
    }
  }

  /** Whether a message counts as full: all but the last do, and the last one may, as the peer has it. */
  predicate IsFull(messages: seq<seq<Header>>, lastFull: bool, k: nat) { k + 1 < |messages| || lastFull }

  /** Messages cut from one valid chain. */
  ghost predicate Serves(cfg: Session, chain: seq<Header>, messages: seq<seq<Header>>) {
    && cfg.ChainOk(chain)
    && Flatten(messages) <= chain
    && forall i :: 0 <= i < |messages| ==> messages[i] != [] && Continuous(cfg, messages[i])
  }

  lemma {:induction false} ServedPrefix(cfg: Session, chain: seq<Header>, messages: seq<seq<Header>>, k: nat)
    requires Serves(cfg, chain, messages) && k <= |messages|
    ensures Flatten(messages[..k]) <= chain
    ensures cfg.ChainOk(Flatten(messages[..k]))
    ensures cfg.Commits(Flatten(messages[..k])) <= cfg.Commits(Flatten(messages))
  {
    var all, part := Flatten(messages), Flatten(messages[..k]);
    FlattenPrefix(messages, k);
    assert part == chain[..|part|] == all[..|part|];
    cfg.Prefixes(chain, |part|, []);
    cfg.Prefixes(all, |part|, []);
  }

  /** PRESYNC goes through on such a peer, and switches once a message ends with enough work. */
  method ServePresync(sync: HeadersSyncState, ghost chain: seq<Header>, messages: seq<seq<Header>>, lastFull: bool)
    returns (used: nat)
    requires sync.Valid() && sync.downloadState == PRESYNC && sync.presync == []
    requires Serves(sync.cfg, chain, messages)
    requires messages != [] && sync.cfg.Work(Flatten(messages)) >= sync.cfg.minimumWork
    requires |sync.cfg.Commits(Flatten(messages))| <= sync.cfg.maxCommitments
    modifies sync
    ensures 0 < used <= |messages|
    ensures sync.Valid() && sync.downloadState == REDOWNLOAD
    ensures sync.presync == Flatten(messages[..used]) && sync.redownloaded == []
  {
    assert sync.redownloaded == [];
    hide Session.Work, Session.Reached, Session.Commits, Session.TotalProof, Session.ProofsFit, HeadersSyncState.Valid;
    used := 0;
    while sync.downloadState == PRESYNC && used < |messages|
      invariant used <= |messages|
      invariant sync.Valid() && sync.downloadState != FINAL
      invariant sync.presync == Flatten(messages[..used]) && sync.redownloaded == []
      invariant sync.downloadState == PRESYNC && used == |messages| ==>
                  sync.cfg.Work(sync.presync) < sync.cfg.minimumWork
      invariant used == 0 ==> sync.downloadState == PRESYNC
      decreases |messages| - used
    {
      FlattenPrefix(messages, used);
      ServedPrefix(sync.cfg, chain, messages, used + 1);
      if used + 1 == |messages| { TakeAll(messages); }
      var r := sync.ProcessNextHeaders(messages[used], IsFull(messages, lastFull, used));
      used := used + 1;
    }
    TakeAll(messages);
  }

  /** One message of a redownload that repeats the PRESYNC headers. */
  method ServeNext(sync: HeadersSyncState, ghost chain: seq<Header>, messages: seq<seq<Header>>, lastFull: bool, k: nat)
    returns (success: bool)
    requires sync.Valid() && sync.downloadState == REDOWNLOAD
    requires k < |messages| && Serves(sync.cfg, chain, messages)
    requires sync.presync <= Flatten(messages) && sync.redownloaded == Flatten(messages[..k])
    modifies sync
    ensures success && sync.Valid() && sync.presync == old(sync.presync)
    ensures sync.redownloaded == Flatten(messages[..k + 1])
    ensures sync.downloadState == if sync.cfg.Reached(sync.redownloaded) then FINAL else REDOWNLOAD
    ensures |sync.redownloaded| >= |sync.presync| ==> sync.cfg.Reached(sync.redownloaded)
    ensures sync.downloadState == FINAL ==> |sync.released| == |sync.redownloaded|
  {
    FlattenPrefix(messages, k);
    ServedPrefix(sync.cfg, chain, messages, k + 1);
    sync.cfg.SameHeadersMatch(sync.presync, Flatten(messages[..k + 1]), chain);
    if k + 1 == |messages| { TakeAll(messages); }
    var r := sync.ProcessNextHeaders(messages[k], IsFull(messages, lastFull, k));
    success := r.success;
  }

  /** REDOWNLOAD of the headers seen in PRESYNC, cut in any other way, passes every check: all
      messages succeed, the sync ends with the message that holds the last PRESYNC header at the
      latest, and everything stored has been released. */
  method ServeRedownload(sync: HeadersSyncState, ghost chain: seq<Header>, messages: seq<seq<Header>>, lastFull: bool)
    returns (used: nat, allSucceeded: bool)
    requires sync.Valid() && sync.downloadState == REDOWNLOAD && sync.redownloaded == []
    requires Serves(sync.cfg, chain, messages)
    requires sync.presync <= Flatten(messages)
    modifies sync
    ensures allSucceeded && 0 < used <= |messages|
    ensures |Flatten(messages[..used - 1])| < |sync.presync|
    ensures sync.Valid() && sync.downloadState == FINAL && sync.presync == old(sync.presync)
    ensures sync.redownloaded == Flatten(messages[..used]) && sync.cfg.Reached(sync.redownloaded)
    ensures sync.released == sync.cfg.Rebuild(sync.redownloaded)
  {
    used, allSucceeded := 0, true;
    TakeAll(messages);
    while sync.downloadState == REDOWNLOAD
      invariant used <= |messages| && allSucceeded
      invariant sync.Valid() && sync.downloadState != PRESYNC && sync.presync == old(sync.presync)
      invariant sync.redownloaded == Flatten(messages[..used])
      invariant sync.downloadState == REDOWNLOAD ==> |sync.redownloaded| < |sync.presync|
      invariant sync.downloadState == FINAL ==>
                  && 0 < used && |Flatten(messages[..used - 1])| < |sync.presync|
                  && sync.cfg.Reached(sync.redownloaded) && |sync.released| == |sync.redownloaded|
      decreases |messages| - used
    {
      var success := ServeNext(sync, chain, messages, lastFull, used);
      used, allSucceeded := used + 1, allSucceeded && success;
    }
    TakeAll(sync.redownloaded);
  }

  /** Both phases from the start, with independent cuts of the same chain; the last message of either may be short. */
  method ServeBoth(cfg: Session, ghost chain: seq<Header>, first: seq<seq<Header>>, second: seq<seq<Header>>,
                   firstFull: bool, secondFull: bool)
    returns (sync: HeadersSyncState, allSucceeded: bool)
    requires cfg.commitOffset < HEADER_COMMITMENT_PERIOD
    requires Serves(cfg, chain, first) && Serves(cfg, chain, second)
    requires first != [] && cfg.Work(Flatten(first)) >= cfg.minimumWork
    requires |cfg.Commits(Flatten(first))| <= cfg.maxCommitments
    requires |Flatten(first)| <= |Flatten(second)|
    ensures allSucceeded && sync.cfg == cfg
    ensures sync.Valid() && sync.downloadState == FINAL
    ensures sync.redownloaded <= chain && cfg.Reached(sync.redownloaded)
    ensures sync.released == cfg.Rebuild(sync.redownloaded)
    ensures sync.released == sync.redownloaded <==>
            forall i :: 0 <= i < |sync.redownloaded| ==> DroppedFieldsNull(sync.redownloaded[i])
  {
    sync := new HeadersSyncState(cfg);
    var used := ServePresync(sync, chain, first, firstFull);
    ServedPrefix(cfg, chain, first, used);
    FlattenPrefix(first, used);
    used, allSucceeded := ServeRedownload(sync, chain, second, secondFull);
    ServedPrefix(cfg, chain, second, used);
    cfg.RebuildIsIdentity(sync.redownloaded);
  }
}
