/** The blocks that are pinned, and going up from block to parent. */
module PinnedChain {
  import opened Basics

  type Hash = string

  datatype BlockInfo = BlockInfo(hash: Hash, parent: Hash, number: int)

  datatype PinnedBlocks = PinnedBlocks(blocks: map<Hash, BlockInfo>, best: Hash, finalized: Hash)

  /** The pinned blocks are what `info` says of them, and a parent is one number before its child. */
  ghost predicate PinnedOk(info: Hash -> BlockInfo, pinned: PinnedBlocks) {
    && (forall h :: h in pinned.blocks ==> pinned.blocks[h] == info(h) && info(h).hash == h && 0 <= info(h).number)
    && (forall h :: h in pinned.blocks ==> info(pinned.blocks[h].parent).number == pinned.blocks[h].number - 1)
    && pinned.best in pinned.blocks && pinned.finalized in pinned.blocks && "" !in pinned.blocks
  }

  /** The block `n` steps up from `h`, while the blocks on the way are pinned. */
  ghost function Climb(pinned: PinnedBlocks, h: Hash, n: nat): Option<Hash>
    decreases n
  {
    if n == 0 then Some(h)
    else if h in pinned.blocks then Climb(pinned, pinned.blocks[h].parent, n - 1)
    else None
  }

  lemma {:induction false} ClimbNext(pinned: PinnedBlocks, h: Hash, n: nat)
    ensures var at := Climb(pinned, h, n);
            Climb(pinned, h, n + 1)
            == if at.Some? && at.value in pinned.blocks then Some(pinned.blocks[at.value].parent) else None
    decreases n
  {
    if n > 0 && h in pinned.blocks {
      ClimbNext(pinned, pinned.blocks[h].parent, n - 1);
    }
  }

  lemma {:induction false} ClimbEnds(pinned: PinnedBlocks, h: Hash, n: nat, m: nat)
    requires Climb(pinned, h, n).None? && n <= m
    ensures Climb(pinned, h, m).None?
    decreases m
  {
    if m > n {
      ClimbEnds(pinned, h, n, m - 1);
      ClimbNext(pinned, h, m - 1);
    }
  }

  /** Every step up is one number down. */
  lemma {:induction false} ClimbDown(info: Hash -> BlockInfo, pinned: PinnedBlocks, h: Hash, n: nat)
    requires PinnedOk(info, pinned) && Climb(pinned, h, n).Some?
    ensures info(Climb(pinned, h, n).value).number == info(h).number - n
    decreases n
  {
    if n > 0 {
      ClimbDown(info, pinned, pinned.blocks[h].parent, n - 1);
    }
  }

  lemma {:induction false} ClimbOn(pinned: PinnedBlocks, h: Hash, m: nat, n: nat)
    requires Climb(pinned, h, m).Some?
    ensures Climb(pinned, h, m + n) == Climb(pinned, Climb(pinned, h, m).value, n)
    decreases m
  {
    if m > 0 {
      ClimbOn(pinned, pinned.blocks[h].parent, m - 1, n);
    }
  }
}
