/** Following a transaction over a tree of blocks, and the streams of best and finalized blocks. */
module TxState {
  import opened Basics
  import opened PinnedChain

  datatype Validity = Unknown | Valid | Invalid(error: string)

  datatype Verdict = InBlock(index: nat) | NotInBlock(validity: Validity)

  class AnalyzedBlock {
    const hash: Hash
    const found: Verdict

    constructor (hash: Hash, found: Verdict)
      ensures this.hash == hash && this.found == found
    {
      this.hash, this.found := hash, found;
    }
  }

  datatype Emission = Found(hash: Hash, number: int, index: nat) | Lost(validity: Validity)

  datatype End = Running | Completed | Failed(error: string)

  /** The best block descends from the finalized one, over pinned blocks. */
  ghost predicate BestDescends(pinned: PinnedBlocks) {
    IsAncestor(pinned, pinned.finalized, pinned.best)
  }

  /** `a` is `h` or one of the blocks above it. */
  ghost predicate IsAncestor(pinned: PinnedBlocks, a: Hash, h: Hash) {
    exists n: nat :: Climb(pinned, h, n) == Some(a)
  }

  /** On the way up from the best block, a block is at or above the finalized one just if its number is not higher. */
  lemma FinalizedIff(info: Hash -> BlockInfo, pinned: PinnedBlocks, n: nat)
    requires PinnedOk(info, pinned) && BestDescends(pinned) && Climb(pinned, pinned.best, n).Some?
    ensures var h := Climb(pinned, pinned.best, n).value;
            info(h).number <= info(pinned.finalized).number <==> IsAncestor(pinned, h, pinned.finalized)
  {
    var h := Climb(pinned, pinned.best, n).value;
    var m: nat :| Climb(pinned, pinned.best, m) == Some(pinned.finalized);
    ClimbDown(info, pinned, pinned.best, n);
    ClimbDown(info, pinned, pinned.best, m);
    if m <= n {
      ClimbOn(pinned, pinned.best, m, n - m);
    } else if IsAncestor(pinned, h, pinned.finalized) {
      var k: nat :| Climb(pinned, pinned.finalized, k) == Some(h);
      ClimbDown(info, pinned, pinned.finalized, k);
    }
  }

  /** The first analyzed block on the way up from the best one. */
  ghost predicate NearestAnalyzed(pinned: PinnedBlocks, analyzed: map<Hash, AnalyzedBlock>, h: Hash, n: nat) {
    && Climb(pinned, pinned.best, n) == Some(h) && h in analyzed
    && forall m: nat :: m < n ==> !AnalyzedAt(pinned, analyzed, m)
  }

  ghost predicate AnalyzedAt(pinned: PinnedBlocks, analyzed: map<Hash, AnalyzedBlock>, m: nat) {
    Climb(pinned, pinned.best, m).Some? && Climb(pinned, pinned.best, m).value in analyzed
  }

  ghost predicate NoneAnalyzed(pinned: PinnedBlocks, analyzed: map<Hash, AnalyzedBlock>) {
    forall m: nat :: !AnalyzedAt(pinned, analyzed, m)
  }

  /** Answers come after a find: `Lost` only directly after `Found`. */
  ghost predicate Alternates(log: seq<Emission>) {
    forall k :: 0 <= k < |log| && log[k].Lost? ==> k > 0 && log[k - 1].Found?
  }

  class TxTracker {
    var analyzedBlocks: map<Hash, AnalyzedBlock>
    var pinnedBlocks: PinnedBlocks
    var latestAnalyzed: AnalyzedBlock?
    var log: seq<Emission>
    var end: End
    ghost const info: Hash -> BlockInfo

    ghost predicate Ok()
      reads this
    {
      && PinnedOk(info, pinnedBlocks) && BestDescends(pinnedBlocks)
      && (forall h :: h in analyzedBlocks ==> analyzedBlocks[h].hash == h)
      && Alternates(log)
      && (latestAnalyzed != null && latestAnalyzed.found.InBlock? ==>
            var last := Found(latestAnalyzed.hash, info(latestAnalyzed.hash).number, latestAnalyzed.found.index);
            log != [] && log[|log| - 1] == last)
      && (end.Completed? ==> CompletedWell())
    }

    /** The last emission is a find, in the finalized block or one above it. */
    ghost predicate CompletedWell()
      reads this
    {
      && log != [] && log[|log| - 1].Found?
      && IsAncestor(pinnedBlocks, log[|log| - 1].hash, pinnedBlocks.finalized)
    }

    constructor (ghost info: Hash -> BlockInfo, pinned: PinnedBlocks)
      requires PinnedOk(info, pinned) && BestDescends(pinned)
      ensures Ok() && this.info == info && pinnedBlocks == pinned && log == [] && end == Running
    {
      this.info := info;
      analyzedBlocks, pinnedBlocks, latestAnalyzed, log, end := map[], pinned, null, [], Running;
    }

    /** The pinned blocks have changed. */
    method OnPinned(pinned: PinnedBlocks)
      requires Ok() && PinnedOk(info, pinned) && BestDescends(pinned)
      modifies this
      ensures Ok() && old(log) <= log
      ensures !old(end).Running? ==> end == old(end) && log == old(log)
      ensures old(end).Running? ==> pinnedBlocks == pinned && Judged(old(latestAnalyzed), old(log))
    {
      if end.Running? {
        pinnedBlocks := pinned;
        ComputeNextState();
      }
    }

    /** A block was analyzed. */
    method OnAnalyzed(block: AnalyzedBlock)
      requires Ok()
      modifies this
      ensures Ok() && old(log) <= log
      ensures !old(end).Running? ==> end == old(end) && log == old(log)
      ensures old(end).Running? ==>
              analyzedBlocks == old(analyzedBlocks)[block.hash := block] && Judged(old(latestAnalyzed), old(log))
    {
      if end.Running? {
        analyzedBlocks := analyzedBlocks[block.hash := block];
        ComputeNextState();
      }
    }

    /** What the nearest analyzed block means for the stream. */
    ghost predicate JudgedBy(h: Hash, n: nat, latest: AnalyzedBlock?, before: seq<Emission>)
      reads this
    {
      NearestAnalyzed(pinnedBlocks, analyzedBlocks, h, n) &&
      var block := analyzedBlocks[h];
      var isFinalized := IsAncestor(pinnedBlocks, h, pinnedBlocks.finalized);
      && latestAnalyzed == block
      && log == (if block == latest then before
                 else if block.found.InBlock? then before + [Found(h, info(h).number, block.found.index)]
                 else if latest != null && latest.found.InBlock? then before + [Lost(block.found.validity)]
                 else before)
      && end == (if !isFinalized then Running
                 else if block.found.InBlock? then Completed
                 else if block.found.validity.Invalid? then Failed(block.found.validity.error)
                 else Running)
    }

    ghost predicate Judged(latest: AnalyzedBlock?, before: seq<Emission>)
      reads this
    {
      || (exists h, n: nat :: JudgedBy(h, n, latest, before))
      || (NoneAnalyzed(pinnedBlocks, analyzedBlocks) && log == before && latestAnalyzed == latest && end.Running?)
    }

    method ComputeNextState()
      requires Ok() && end.Running?
      modifies this`latestAnalyzed, this`log, this`end
      ensures Ok() && old(log) <= log && Judged(old(latestAnalyzed), old(log))
    {
      var analyzed, analyzedNumber, n := FindAnalyzed();
      if analyzed != null {
        Judge(analyzed, analyzedNumber, n);
      }
    }

    /** Goes up from the best block to an analyzed one, counting down its number. */
    method FindAnalyzed() returns (analyzed: AnalyzedBlock?, analyzedNumber: int, ghost n: nat)
      requires Ok()
      ensures analyzed == null ==> NoneAnalyzed(pinnedBlocks, analyzedBlocks)
      ensures analyzed != null ==>
                && NearestAnalyzed(pinnedBlocks, analyzedBlocks, analyzed.hash, n)
                   && analyzedBlocks[analyzed.hash] == analyzed
                && analyzedNumber == info(analyzed.hash).number
                && (analyzedNumber <= info(pinnedBlocks.finalized).number
                    <==> IsAncestor(pinnedBlocks, analyzed.hash, pinnedBlocks.finalized))
    {
      var current := pinnedBlocks.best;
      analyzedNumber := pinnedBlocks.blocks[current].number;
      n := 0;
      while current !in analyzedBlocks
        invariant Climb(pinnedBlocks, pinnedBlocks.best, n) == Some(current)
        invariant forall m: nat :: m < n ==> !AnalyzedAt(pinnedBlocks, analyzedBlocks, m)
        invariant analyzedNumber == info(current).number
        decreases if current in pinnedBlocks.blocks then info(current).number + 1 else 0
      {
        ClimbNext(pinnedBlocks, pinnedBlocks.best, n);
        if current !in pinnedBlocks.blocks {
          NoneBeyond(pinnedBlocks, analyzedBlocks, n);
          return null, 0, 0;
        }
        current := pinnedBlocks.blocks[current].parent;
        analyzedNumber := analyzedNumber - 1;
        n := n + 1;
      }
      FinalizedIff(info, pinnedBlocks, n);
      analyzed := analyzedBlocks[current];
    }

    method Judge(analyzed: AnalyzedBlock, analyzedNumber: int, ghost n: nat)
      requires Ok() && end.Running? && NearestAnalyzed(pinnedBlocks, analyzedBlocks, analyzed.hash, n)
      requires analyzedBlocks[analyzed.hash] == analyzed && analyzedNumber == info(analyzed.hash).number
      requires analyzedNumber <= info(pinnedBlocks.finalized).number
               <==> IsAncestor(pinnedBlocks, analyzed.hash, pinnedBlocks.finalized)
      modifies this`latestAnalyzed, this`log, this`end
      ensures Ok() && old(log) <= log && JudgedBy(analyzed.hash, n, old(latestAnalyzed), old(log))
    {
      hide PinnedOk, BestDescends, NearestAnalyzed, IsAncestor;
      FinalizedPinned(info, pinnedBlocks);
      var isFinalized := analyzedNumber <= pinnedBlocks.blocks[pinnedBlocks.finalized].number;
      var found := analyzed.found;
      if analyzed != latestAnalyzed {
        if found.InBlock? {
          log := log + [Found(analyzed.hash, analyzedNumber, found.index)];
        } else if latestAnalyzed != null && latestAnalyzed.found.InBlock? {
          log := log + [Lost(found.validity)];
        }
        latestAnalyzed := analyzed;
      }
      if isFinalized {
        if found.InBlock? {
          end := Completed;
        } else if found.validity.Invalid? {
          end := Failed(found.validity.error);
        }
      }
    }
  }

  lemma FinalizedPinned(info: Hash -> BlockInfo, pinned: PinnedBlocks)
    requires PinnedOk(info, pinned)
    ensures pinned.finalized in pinned.blocks && pinned.blocks[pinned.finalized] == info(pinned.finalized)
  {
  }

  lemma NoneBeyond(pinned: PinnedBlocks, analyzed: map<Hash, AnalyzedBlock>, n: nat)
    requires Climb(pinned, pinned.best, n + 1).None?
    requires forall m: nat :: m <= n ==> !AnalyzedAt(pinned, analyzed, m)
    ensures NoneAnalyzed(pinned, analyzed)
  {
    forall m: nat ensures !AnalyzedAt(pinned, analyzed, m) {
      if m > n {
        ClimbEnds(pinned, pinned.best, n + 1, m);
      }
    }
  }

  datatype Event = NewPinned(pinned: PinnedBlocks) | NewAnalyzed(hash: Hash, found: Verdict)

  ghost predicate EventOk(info: Hash -> BlockInfo, e: Event) {
    e.NewPinned? ==> PinnedOk(info, e.pinned) && BestDescends(e.pinned)
  }

  /** Any run: the stream completes only with a find in a finalized block as its last emission. */
  method Run(ghost info: Hash -> BlockInfo, pinned: PinnedBlocks, events: seq<Event>) returns (t: TxTracker)
    requires PinnedOk(info, pinned) && BestDescends(pinned)
    requires forall k :: 0 <= k < |events| ==> EventOk(info, events[k])
    ensures t.Ok() && t.info == info && (t.end.Completed? ==> t.CompletedWell())
  {
    hide PinnedOk, BestDescends;
    t := new TxTracker(info, pinned);
    t.OnPinned(pinned);
    for k := 0 to |events|
      invariant t.Ok() && t.info == info && fresh(t)
    {
      assert EventOk(info, events[k]);
      match events[k] {
        case NewPinned(next) =>
          t.OnPinned(next);
        case NewAnalyzed(hash, found) =>
          var block := new AnalyzedBlock(hash, found);
          t.OnAnalyzed(block);
      }
    }
  }

  // ----------------------------------------------------- best and finalized blocks

  /** Blocks remembered from before are still what they were. */
  ghost predicate Remembers(info: Hash -> BlockInfo, acc: map<Hash, BlockInfo>) {
    forall h :: h in acc ==> acc[h] == info(h) && info(h).hash == h
  }

  /** Each block is followed by its parent. */
  ghost predicate Linked(blocks: seq<BlockInfo>) {
    forall k :: 0 <= k < |blocks| - 1 ==> blocks[k + 1].hash == blocks[k].parent
  }

  method GetBlockInfo(ghost info: Hash -> BlockInfo, acc: map<Hash, BlockInfo>, pinned: PinnedBlocks, hash: Hash)
    returns (b: BlockInfo)
    requires PinnedOk(info, pinned) && Remembers(info, acc) && (hash in acc || hash in pinned.blocks)
    ensures b == info(hash) && b.hash == hash
  {
    b := if hash in acc then acc[hash] else pinned.blocks[hash];
  }

  /** The first blocks on the way down from the best one. */
  ghost predicate WayDown(info: Hash -> BlockInfo, pinned: PinnedBlocks, result: seq<BlockInfo>) {
    forall k :: 0 <= k < |result| ==>
        Climb(pinned, pinned.best, k) == Some(result[k].hash) && result[k] == info(result[k].hash)
  }

  lemma WayDownLinked(info: Hash -> BlockInfo, pinned: PinnedBlocks, result: seq<BlockInfo>)
    requires PinnedOk(info, pinned) && WayDown(info, pinned, result)
    ensures Linked(result)
  {
    forall k | 0 <= k < |result| - 1 ensures result[k + 1].hash == result[k].parent {
      ClimbNext(pinned, pinned.best, k);
    }
  }

  /** The blocks from the best one down to the finalized one, each followed by its parent. */
  method BestBlocks(ghost info: Hash -> BlockInfo, acc: map<Hash, BlockInfo>, pinned: PinnedBlocks)
    returns (result: seq<BlockInfo>, next: map<Hash, BlockInfo>)
    requires PinnedOk(info, pinned) && BestDescends(pinned) && Remembers(info, acc)
    ensures Linked(result) && result != []
    ensures result[0] == info(pinned.best) && result[|result| - 1] == info(pinned.finalized)
    ensures Remembers(info, next) && forall k :: 0 <= k < |result| ==> result[k].hash in next
  {
    hide Linked, Climb;
    var best := GetBlockInfo(info, acc, pinned, pinned.best);
    var finalized := GetBlockInfo(info, acc, pinned, pinned.finalized);
    ghost var m: nat :| Climb(pinned, pinned.best, m) == Some(pinned.finalized);
    ClimbDown(info, pinned, pinned.best, m);
    hide PinnedOk;
    var len := best.number - finalized.number + 1;
    result, next := [], map[];
    var hash := best.hash;
    ClimbNone(pinned, pinned.best);
    for i := 0 to len
      invariant |result| == i && WayDown(info, pinned, result)
      invariant Climb(pinned, pinned.best, i) == Some(hash)
      invariant Remembers(info, next) && forall k :: 0 <= k < i ==> result[k].hash in next
    {
      OnTheWay(pinned, pinned.best, i, m);
      var b := GetBlockInfo(info, acc, pinned, hash);
      ClimbNext(pinned, pinned.best, i);
      InPinned(info, pinned, hash);
      result := result + [b];
      next := next[b.hash := b];
      hash := b.parent;
    }
    WayDownLinked(info, pinned, result);
    ClimbNone(pinned, pinned.best);
  }

  lemma ClimbNone(pinned: PinnedBlocks, h: Hash)
    ensures Climb(pinned, h, 0) == Some(h)
  {
  }

  lemma InPinned(info: Hash -> BlockInfo, pinned: PinnedBlocks, h: Hash)
    requires PinnedOk(info, pinned) && h in pinned.blocks
    ensures pinned.blocks[h] == info(h)
  {
  }

  /** Every block before the finalized one is pinned. */
  lemma OnTheWay(pinned: PinnedBlocks, h: Hash, i: nat, m: nat)
    requires Climb(pinned, h, m).Some? && i <= m && Climb(pinned, h, m).value in pinned.blocks
    ensures Climb(pinned, h, i).Some? && Climb(pinned, h, i).value in pinned.blocks
  {
    if Climb(pinned, h, i).None? {
      ClimbEnds(pinned, h, i, m);
    } else if i < m {
      ClimbNext(pinned, h, i);
      if Climb(pinned, h, i).value !in pinned.blocks {
        ClimbEnds(pinned, h, i + 1, m);
      }
    }
  }

  /**
   * The newly finalized blocks, parent before child. They go on from the block that was last
   * finalized, without a gap, if it is above the new one over pinned blocks.
   */
  method NewlyFinalized(ghost info: Hash -> BlockInfo, pinned: PinnedBlocks, latest: Option<BlockInfo>)
    returns (result: seq<BlockInfo>)
    requires PinnedOk(info, pinned)
    ensures result != [] && result[|result| - 1] == info(pinned.finalized)
    ensures forall k :: 0 <= k < |result| - 1 ==> result[k].hash == result[k + 1].parent
    ensures latest.None? ==> |result| == 1
    ensures latest.Some? && ProperAncestor(info, pinned, latest.value) ==> result[0].parent == latest.value.hash
  {
    var current := pinned.blocks[pinned.finalized];
    result := [current];
    if latest.None? {
      return;
    }
    ghost var n := 0;
    while current.number > latest.value.number + 1
      invariant result != [] && current == result[0] && current.hash in pinned.blocks && current == info(current.hash)
      invariant Climb(pinned, pinned.finalized, n) == Some(current.hash) && |result| == n + 1
      invariant result[n] == info(pinned.finalized) && (n > 0 ==> current.number > latest.value.number)
      invariant forall k :: 0 <= k < |result| - 1 ==> result[k].hash == result[k + 1].parent
      decreases current.number - latest.value.number
    {
      ClimbNext(pinned, pinned.finalized, n);
      if current.parent !in pinned.blocks {
        NotAbove(info, pinned, current, latest.value, n);
        return;
      }
      current := pinned.blocks[current.parent];
      result := [current] + result;
      n := n + 1;
    }
    GoesOn(info, pinned, current, latest.value, n);
  }

  ghost predicate ProperAncestor(info: Hash -> BlockInfo, pinned: PinnedBlocks, b: BlockInfo) {
    b == info(b.hash) && b.hash != pinned.finalized && IsAncestor(pinned, b.hash, pinned.finalized)
  }

  lemma NotAbove(info: Hash -> BlockInfo, pinned: PinnedBlocks, current: BlockInfo, latest: BlockInfo, n: nat)
    requires PinnedOk(info, pinned) && Climb(pinned, pinned.finalized, n) == Some(current.hash)
    requires current.hash in pinned.blocks && current == info(current.hash)
    requires current.parent !in pinned.blocks && current.number > latest.number + 1
    ensures !ProperAncestor(info, pinned, latest)
  {
    if ProperAncestor(info, pinned, latest) {
      StepsTo(info, pinned, latest, n, current.hash);
      ClimbNext(pinned, pinned.finalized, n);
      ClimbNext(pinned, pinned.finalized, n + 1);
      var k: nat :| Climb(pinned, pinned.finalized, k) == Some(latest.hash);
      ClimbDown(info, pinned, pinned.finalized, k);
      ClimbDown(info, pinned, pinned.finalized, n);
      ClimbEnds(pinned, pinned.finalized, n + 2, k);
    }
  }

  lemma StepsTo(info: Hash -> BlockInfo, pinned: PinnedBlocks, latest: BlockInfo, n: nat, h: Hash)
    requires PinnedOk(info, pinned) && Climb(pinned, pinned.finalized, n) == Some(h)
    ensures info(h).number == info(pinned.finalized).number - n
  {
    ClimbDown(info, pinned, pinned.finalized, n);
  }

  lemma GoesOn(info: Hash -> BlockInfo, pinned: PinnedBlocks, current: BlockInfo, latest: BlockInfo, n: nat)
    requires PinnedOk(info, pinned) && Climb(pinned, pinned.finalized, n) == Some(current.hash)
    requires current.hash in pinned.blocks && current == info(current.hash) && current.number <= latest.number + 1
    requires n > 0 ==> current.number > latest.number
    ensures ProperAncestor(info, pinned, latest) ==> current.parent == latest.hash
  {
    if ProperAncestor(info, pinned, latest) {
      var k: nat :| Climb(pinned, pinned.finalized, k) == Some(latest.hash);
      ClimbDown(info, pinned, pinned.finalized, k);
      ClimbDown(info, pinned, pinned.finalized, n);
      ClimbNext(pinned, pinned.finalized, n);
    }
  }
}
