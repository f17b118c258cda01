/** Watching the entries of a storage map along the best and the finalized chain. */
module WatchEntries {
  import opened Basics
  import opened PinnedChain
  import opened StorageDiff

  /** What a block hash stands for: its place in the chain, and the storage at it. */
  datatype Chain = Chain(info: Hash -> BlockInfo, root: Hash -> string, storage: Hash -> map<Key, Value>)
  {
    /** The parent comes one before, and the trie root of the watched entries determines them. */
    ghost predicate Sound() {
      && (forall h :: info(h).hash == h)
      && (forall h, g :: root(h) == root(g) ==> storage(h) == storage(g))
    }
  }

  datatype Snapshot = Snapshot(
    prev: Option<Hash>,
    block: BlockInfo,
    rootHash: string,
    runtime: nat,                // whose codecs decode the entries
    entries: seq<Entry>,
    deltas: Option<Deltas>)

  ghost predicate DeltasDecoded(deltas: Option<Deltas>) {
    deltas.Some? ==> AllDecoded(deltas.value.upserted) && AllDecoded(deltas.value.deleted)
  }

  /** The snapshot shows the storage of its block, fully decoded. */
  ghost predicate Shows(c: Chain, s: Snapshot) {
    && s.block == c.info(s.block.hash)
    && Lists(s.entries, c.storage(s.block.hash))
    && AllDecoded(s.entries) && DeltasDecoded(s.deltas)
  }

  /** Its deltas lead here from the storage of block `from`. */
  ghost predicate LeadsFrom(c: Chain, s: Snapshot, from: Hash) {
    Apply(c.storage(from), s.deltas) == c.storage(s.block.hash)
  }

  ghost predicate Good(c: Chain, s: Snapshot) {
    && Shows(c, s)
    && s.rootHash == c.root(s.block.hash)
    && (s.prev.Some? ==> LeadsFrom(c, s, s.prev.value) && c.info(s.prev.value).number < s.block.number)
  }

  // ------------------------------------------------------------------ emissions

  /** Every emission shows its block, and leads there from the one before it. */
  ghost predicate Folds(c: Chain, log: seq<Snapshot>) {
    && (forall k :: 0 <= k < |log| ==> Shows(c, log[k]))
    && (forall k :: 0 < k < |log| ==> LeadsFrom(c, log[k], log[k - 1].block.hash))
  }

  /** What a subscriber knows after `log`, taking all entries of the first emission as upserted. */
  function Folded(log: seq<Snapshot>): map<Key, Value>
    requires log != []
  {
    var last := log[|log| - 1];
    if |log| == 1 then Apply(map[], Some(Deltas(last.entries, [])))
    else Apply(Folded(log[..|log| - 1]), last.deltas)
  }

  /** From whichever emission a subscriber starts, it always knows the storage of the last one. */
  lemma {:induction false} FoldIsStorage(c: Chain, log: seq<Snapshot>, start: nat)
    requires Folds(c, log) && start < |log|
    ensures Folded(log[start..]) == c.storage(log[|log| - 1].block.hash)
  {
    var n := |log| - 1;
    if start == n {
      assert log[start..] == [log[n]];
      PutAll(log[n].entries, c.storage(log[n].block.hash));
    } else {
      FoldIsStorage(c, log[..n], start);
      assert log[start..][..n - start] == log[..n][start..];
      assert LeadsFrom(c, log[n], log[n - 1].block.hash);
    }
  }

  lemma FoldsMore(c: Chain, log: seq<Snapshot>, more: seq<Snapshot>)
    requires Folds(c, log) && Folds(c, more)
    requires log != [] && more != [] ==> LeadsFrom(c, more[0], log[|log| - 1].block.hash)
    ensures Folds(c, log + more)
  {
    var all := log + more;
    forall k | 0 < k < |all| ensures LeadsFrom(c, all[k], all[k - 1].block.hash) {
      if k > |log| {
        assert all[k] == more[k - |log|] && all[k - 1] == more[k - |log| - 1];
      }
    }
  }

  // ----------------------------------------------------------------- snapshots

  /** Compares a listing with an earlier one that was decoded. */
  method Diff(ghost c: Chain, ghost from: Option<Hash>, prev: seq<Entry>, hash: Hash, listing: seq<Entry>, runtime: nat)
    returns (entries: seq<Entry>, deltas: Deltas)
    requires Lists(prev, if from.Some? then c.storage(from.value) else map[]) && AllDecoded(prev)
    requires Lists(listing, c.storage(hash))
    ensures Lists(entries, c.storage(hash)) && AllDecoded(entries) && DeltasDecoded(Some(deltas))
    ensures from.Some? ==> Apply(c.storage(from.value), Some(deltas)) == c.storage(hash)
    ensures deltas == Deltas(Changed(prev, listing, runtime), Missing(prev, listing))
  {
    entries, deltas := GetDiff(prev, listing, runtime);
    SameLists(listing, entries, c.storage(hash));
    DiffApplies(prev, listing, if from.Some? then c.storage(from.value) else map[], c.storage(hash), runtime);
    forall i | 0 <= i < |deltas.upserted| ensures IsDecoded(deltas.upserted[i]) {
      ChangedHas(prev, listing, runtime, deltas.upserted[i]);
    }
    forall i | 0 <= i < |deltas.deleted| ensures IsDecoded(deltas.deleted[i]) {
      MissingHas(prev, listing, deltas.deleted[i]);
    }
  }

  /**
   * The snapshot of a block, from an earlier snapshot if there is one. The listing is what the
   * server gives for the block, and is used only when the trie root differs.
   */
  method GetNextMemoryBlock(ghost c: Chain, prev: Option<Snapshot>, block: BlockInfo, rootHash: string,
                            listing: seq<Entry>, runtime: nat)
    returns (x: Snapshot)
    requires c.Sound() && block == c.info(block.hash) && rootHash == c.root(block.hash)
    requires Lists(listing, c.storage(block.hash))
    requires prev.Some? ==> Good(c, prev.value)
    ensures Shows(c, x) && x.block == block && x.rootHash == rootHash
    ensures prev.Some? ==> x.prev == Some(prev.value.block.hash) && LeadsFrom(c, x, prev.value.block.hash)
    ensures prev.None? ==> x.prev.None?
    ensures x.deltas.None? <==> prev.Some? && prev.value.rootHash == rootHash
  {
    if prev.Some? && rootHash == prev.value.rootHash {
      return prev.value.(block := block, deltas := None, prev := Some(prev.value.block.hash));
    }
    ghost var from := if prev.Some? then Some(prev.value.block.hash) else None;
    var entries, deltas := Diff(c, from, if prev.Some? then prev.value.entries else [], block.hash, listing, runtime);
    var base := if prev.Some? then Some(prev.value.block.hash) else None;
    x := Snapshot(base, block, rootHash, runtime, entries, Some(deltas));
  }

  /** A snapshot kept in memory; the watchers tell them apart by identity. */
  class MemoryBlock {
    const snap: Snapshot

    constructor (snap: Snapshot)
      ensures this.snap == snap
    {
      this.snap := snap;
    }
  }

  class MemoryBlocks {
    var blocks: map<Hash, MemoryBlock>
    var finalized: Hash

    constructor (ghost c: Chain, hash: Hash, x: MemoryBlock)
      requires hash == x.snap.block.hash && hash != "" && Good(c, x.snap)
      ensures blocks == map[hash := x] && finalized == hash && Ok(c)
    {
      blocks, finalized := map[hash := x], hash;
    }

    method Add(ghost c: Chain, hash: Hash, x: MemoryBlock)
      requires Ok(c) && hash == x.snap.block.hash && hash != "" && Good(c, x.snap)
      modifies this`blocks
      ensures Ok(c) && blocks == old(blocks)[hash := x] && finalized == old(finalized)
    {
      blocks := blocks[hash := x];
    }

    ghost predicate Ok(c: Chain)
      reads this
    {
      && (forall h :: h in blocks ==> blocks[h].snap.block.hash == h && Good(c, blocks[h].snap))
      && finalized in blocks && "" !in blocks
    }

    /** Forgets the snapshots before a height. */
    method Prune(number: int)
      requires finalized in blocks && blocks[finalized].snap.block.number >= number
      modifies this`blocks
      ensures finalized in blocks
      ensures forall h :: h in blocks <==> h in old(blocks) && old(blocks)[h].snap.block.number >= number
      ensures forall h :: h in blocks ==> blocks[h] == old(blocks)[h]
    {
      var left := blocks.Keys;
      while |left| != 0
        invariant left <= old(blocks).Keys && blocks.Keys <= old(blocks).Keys
        invariant forall h :: h in left ==> h in blocks
        invariant forall h :: h in old(blocks) && h !in left ==>
                  (h in blocks <==> old(blocks)[h].snap.block.number >= number)
        invariant forall h :: h in blocks ==> blocks[h] == old(blocks)[h]
      {
        ghost var some := SomeElement(left);
        var key :| key in left;
        if blocks[key].snap.block.number < number {
          blocks := blocks - {key};
        }
        left := left - {key};
      }
    }
  }

  // ------------------------------------------------------------- looking back

  ghost predicate KnownAt(pinned: PinnedBlocks, h: Hash, n: nat, known: set<Hash>) {
    Climb(pinned, h, n).Some? && Climb(pinned, h, n).value in known
  }

  /** `found` is the nearest block in memory going up from `start`, at least `least` steps. */
  ghost predicate Nearest(pinned: PinnedBlocks, start: Hash, least: nat, known: set<Hash>, found: Option<Hash>) {
    match found
    case None => forall n: nat :: least <= n ==> !KnownAt(pinned, start, n, known)
    case Some(h) => exists n: nat :: least <= n && NearestAt(pinned, start, least, known, h, n)
  }

  ghost predicate NearestAt(pinned: PinnedBlocks, start: Hash, least: nat, known: set<Hash>, h: Hash, n: nat) {
    && Climb(pinned, start, n) == Some(h) && h in known
    && forall m: nat :: least <= m < n ==> !KnownAt(pinned, start, m, known)
  }

  lemma NoneBeyond(pinned: PinnedBlocks, start: Hash, least: nat, known: set<Hash>, n: nat)
    requires least <= n && Climb(pinned, start, n + 1).None?
    requires forall m: nat :: least <= m <= n ==> !KnownAt(pinned, start, m, known)
    ensures Nearest(pinned, start, least, known, None)
  {
    forall m: nat | least <= m ensures !KnownAt(pinned, start, m, known) {
      if m > n {
        ClimbEnds(pinned, start, n + 1, m);
      }
    }
  }

  method FindPrevious(ghost c: Chain, start: Hash, blocks: map<Hash, MemoryBlock>, pinned: PinnedBlocks,
                      includeStart: bool)
    returns (found: MemoryBlock?)
    requires PinnedOk(c.info, pinned) && "" !in blocks
    requires forall h :: h in blocks ==> blocks[h].snap.block.hash == h
    ensures found != null ==> found.snap.block.hash in blocks && blocks[found.snap.block.hash] == found
    ensures Nearest(pinned, start, if includeStart then 0 else 1, blocks.Keys,
                    if found == null then None else Some(found.snap.block.hash))
    ensures found != null && !includeStart ==> c.info(found.snap.block.hash).number < c.info(start).number
  {
    hide Nearest, Climb, PinnedOk;
    var target := start;
    ghost var least := if includeStart then 0 else 1;
    ghost var n := least;
    ClimbStart(pinned, start);
    if !includeStart {
      if start !in pinned.blocks {
        NoneFromUnpinned(pinned, start, blocks.Keys);
        return null;
      }
      target := pinned.blocks[start].parent;
    }
    while target != "" && target !in blocks
      invariant least <= n && Climb(pinned, start, n) == Some(target)
      invariant forall m: nat :: least <= m < n ==> !KnownAt(pinned, start, m, blocks.Keys)
      decreases if target in pinned.blocks then pinned.blocks[target].number + 1 else 0
    {
      ClimbNext(pinned, start, n);
      Lower(c, pinned, target);
      if target !in pinned.blocks {
        NoneBeyond(pinned, start, least, blocks.Keys, n);
        return null;
      }
      target := pinned.blocks[target].parent;
      n := n + 1;
    }
    if target == "" {
      ClimbNext(pinned, start, n);
      assert "" !in pinned.blocks by { Lower(c, pinned, ""); }
      NoneBeyond(pinned, start, least, blocks.Keys, n);
      return null;
    }
    assert NearestAt(pinned, start, least, blocks.Keys, target, n);
    NearestFound(pinned, start, least, blocks.Keys, target, n);
    ClimbDown(c.info, pinned, start, n);
    return blocks[target];
  }

  lemma ClimbStart(pinned: PinnedBlocks, start: Hash)
    ensures Climb(pinned, start, 0) == Some(start)
    ensures Climb(pinned, start, 1) == if start in pinned.blocks then Some(pinned.blocks[start].parent) else None
  {
  }

  lemma NoneFromUnpinned(pinned: PinnedBlocks, start: Hash, known: set<Hash>)
    requires start !in pinned.blocks
    ensures Nearest(pinned, start, 1, known, None)
  {
    forall m: nat | 1 <= m ensures !KnownAt(pinned, start, m, known) {
      ClimbEnds(pinned, start, 1, m);
    }
  }

  lemma NearestFound(pinned: PinnedBlocks, start: Hash, least: nat, known: set<Hash>, h: Hash, n: nat)
    requires least <= n && NearestAt(pinned, start, least, known, h, n)
    ensures Nearest(pinned, start, least, known, Some(h))
  {
  }

  lemma Lower(c: Chain, pinned: PinnedBlocks, h: Hash)
    requires PinnedOk(c.info, pinned)
    ensures "" !in pinned.blocks
    ensures h in pinned.blocks ==> 0 <= pinned.blocks[h].number
    ensures h in pinned.blocks && pinned.blocks[h].parent in pinned.blocks ==>
              pinned.blocks[pinned.blocks[h].parent].number < pinned.blocks[h].number
  {
  }

  // ------------------------------------------------------------------ watching

  /** The snapshots follow each other, newest last, and lead to `latest`. */
  ghost predicate Chained(c: Chain, updates: seq<Snapshot>, latest: Snapshot) {
    && (forall k :: 0 <= k < |updates| ==> Good(c, updates[k]))
    && (forall k :: 0 < k < |updates| ==> updates[k].prev == Some(updates[k - 1].block.hash))
    && (updates != [] ==> updates[|updates| - 1] == latest && updates[0].block.number <= latest.block.number)
  }

  lemma ChainedMore(c: Chain, updates: seq<Snapshot>, latest: Snapshot, next: Snapshot)
    requires Chained(c, updates, latest) && Good(c, next)
    requires if updates == [] then next == latest else updates[0].prev == Some(next.block.hash)
    ensures Chained(c, [next] + updates, latest)
  {
    var all := [next] + updates;
    assert forall k :: 0 < k < |all| ==> all[k] == updates[k - 1];
    assert updates != [] ==> all[1] == updates[0] && Good(c, updates[0]);
    forall k | 0 < k < |all| ensures all[k].prev == Some(all[k - 1].block.hash) {
      assert k > 1 ==> all[k - 1] == updates[k - 2];
    }
  }

  lemma ChainedFolds(c: Chain, updates: seq<Snapshot>, latest: Snapshot)
    requires Chained(c, updates, latest)
    ensures Folds(c, updates)
  {
    hide Shows, LeadsFrom;
    forall k | 0 < k < |updates| ensures LeadsFrom(c, updates[k], updates[k - 1].block.hash) {
      assert Good(c, updates[k]);
    }
  }

  function Above(height: int, number: int): nat {
    if height > number then height - number else 0
  }

  /** The snapshot of `child` was derived from that of `parent`, and both are in memory. */
  ghost predicate Linked(blocks: map<Hash, MemoryBlock>, child: Hash, parent: Hash) {
    child in blocks && parent in blocks && blocks[child].snap.prev == Some(parent)
  }

  /** The way is linked, oldest first, and ends at `latest`. */
  ghost predicate IsWay(blocks: map<Hash, MemoryBlock>, way: seq<Hash>, latest: Hash) {
    && (way != [] ==> way[|way| - 1] == latest)
    && (forall k :: 0 <= k < |way| ==> way[k] in blocks)
    && forall k :: 0 < k < |way| ==> Linked(blocks, way[k], way[k - 1])
  }

  /** Links within the memory lead from `latest` back to `from`, over all of `way`. */
  ghost predicate LeadsBack(blocks: map<Hash, MemoryBlock>, from: Hash, way: seq<Hash>, latest: Hash) {
    way != [] && IsWay(blocks, way, latest) && Linked(blocks, way[0], from)
  }

  /** What comes next on the way back, after all of `way`. */
  ghost predicate NextBack(blocks: map<Hash, MemoryBlock>, way: seq<Hash>, latest: Hash, next: Option<Hash>) {
    if way == [] then next == Some(latest)
    else if next.Some? then Linked(blocks, way[0], next.value)
    else forall h :: !Linked(blocks, way[0], h)
  }

  /** `way` goes back from `latest` over everything in memory above the height, and no further. */
  ghost predicate WayAbove(blocks: map<Hash, MemoryBlock>, way: seq<Hash>, latest: Hash, number: int,
                           next: Option<Hash>) {
    && IsWay(blocks, way, latest) && NextBack(blocks, way, latest, next)
    && (forall k :: 0 <= k < |way| ==> way[k] in blocks && blocks[way[k]].snap.block.number > number)
    && (next.Some? ==> next.value in blocks && blocks[next.value].snap.block.number <= number)
  }

  /** The snapshots are those of the blocks on the way. */
  ghost predicate Along(blocks: map<Hash, MemoryBlock>, way: seq<Hash>, snaps: seq<Snapshot>) {
    |snaps| == |way| && forall k :: 0 <= k < |way| ==> way[k] in blocks && snaps[k] == blocks[way[k]].snap
  }

  ghost predicate AllGood(c: Chain, blocks: map<Hash, MemoryBlock>) {
    forall h :: h in blocks ==> blocks[h].snap.block.hash == h && Good(c, blocks[h].snap)
  }

  lemma LinkedLower(c: Chain, blocks: map<Hash, MemoryBlock>, child: Hash, parent: Hash)
    requires AllGood(c, blocks) && Linked(blocks, child, parent)
    ensures blocks[parent].snap.block.number < blocks[child].snap.block.number
  {
    Known(c, blocks[child].snap);
    Known(c, blocks[parent].snap);
  }

  /** Everything on the way is above where it leads to. */
  lemma {:induction false} WayIsAbove(c: Chain, blocks: map<Hash, MemoryBlock>, from: Hash, way: seq<Hash>,
                                      latest: Hash, k: nat)
    requires AllGood(c, blocks) && LeadsBack(blocks, from, way, latest) && k < |way|
    ensures blocks[from].snap.block.number < blocks[way[k]].snap.block.number
    decreases k
  {
    hide Good, AllGood;
    if k == 0 {
      LinkedLower(c, blocks, way[0], from);
    } else {
      WayIsAbove(c, blocks, from, way, latest, k - 1);
      LinkedLower(c, blocks, way[k], way[k - 1]);
    }
  }

  lemma WayBefore(blocks: map<Hash, MemoryBlock>, way: seq<Hash>, latest: Hash)
    requires IsWay(blocks, way, latest) && |way| > 1
    ensures var n := |way| - 1;
      Linked(blocks, latest, way[n - 1]) && IsWay(blocks, way[..n], way[n - 1]) && way == way[..n] + [latest]
  {
    var n := |way| - 1;
    assert forall k :: 0 <= k < n ==> way[..n][k] == way[k];
    assert Linked(blocks, way[n], way[n - 1]);
  }

  lemma WayAboveBefore(blocks: map<Hash, MemoryBlock>, way: seq<Hash>, latest: Hash, number: int, next: Option<Hash>)
    requires WayAbove(blocks, way, latest, number, next) && |way| > 1
    ensures var n := |way| - 1; WayAbove(blocks, way[..n], way[n - 1], number, next)
  {
    WayBefore(blocks, way, latest);
  }

  /** If links lead back to `from`, then that is where the way above its height ends. */
  lemma {:induction false} WayFound(c: Chain, blocks: map<Hash, MemoryBlock>, from: Hash, way: seq<Hash>, latest: Hash,
                                    walked: seq<Hash>, next: Option<Hash>)
    requires AllGood(c, blocks) && LeadsBack(blocks, from, way, latest)
    requires WayAbove(blocks, walked, latest, blocks[from].snap.block.number, next)
    ensures walked == way && next == Some(from)
    decreases |way|
  {
    hide Good, AllGood;
    var n := |way| - 1;
    WayIsAbove(c, blocks, from, way, latest, n);
    assert walked != [];
    var m := |walked| - 1;
    if n == 0 {
      if m > 0 { WayBefore(blocks, walked, latest); }
      assert walked == [latest] == way;
    } else {
      WayIsAbove(c, blocks, from, way, latest, n - 1);
      WayBefore(blocks, way, latest);
      assert m > 0;
      WayBefore(blocks, walked, latest);
      WayAboveBefore(blocks, walked, latest, blocks[from].snap.block.number, next);
      WayFound(c, blocks, from, way[..n], way[n - 1], walked[..m], next);
    }
  }

  /** Walks from `latest` back to a height, over the snapshots in memory. */
  method Ancestors(ghost c: Chain, latest: MemoryBlock, memory: MemoryBlocks, number: int)
    returns (updates: seq<Snapshot>, ancestor: MemoryBlock?, ghost way: seq<Hash>, ghost next: Option<Hash>)
    requires memory.Ok(c) && Holds(memory.blocks, latest)
    ensures Chained(c, updates, latest.snap)
    ensures updates == [] ==> ancestor == latest
    ensures ancestor != null && updates != [] ==> updates[0].prev == Some(ancestor.snap.block.hash)
    ensures WayAbove(memory.blocks, way, latest.snap.block.hash, number, next) && Along(memory.blocks, way, updates)
    ensures Found(memory.blocks, next, ancestor)
  {
    hide Shows, LeadsFrom, Chained;
    ghost var hash := latest.snap.block.hash;
    ancestor, updates, way, next := latest, [], [], Some(hash);
    ChainedNone(c, latest.snap);
    while ancestor != null && ancestor.snap.block.number > number
      invariant Chained(c, updates, latest.snap)
      invariant Along(memory.blocks, way, updates) && IsWay(memory.blocks, way, hash)
      invariant NextBack(memory.blocks, way, hash, next) && Found(memory.blocks, next, ancestor)
      invariant forall k :: 0 <= k < |way| ==>
                way[k] in memory.blocks && memory.blocks[way[k]].snap.block.number > number
      invariant updates == [] ==> ancestor == latest
      invariant ancestor != null ==> Good(c, ancestor.snap)
      invariant ancestor != null && updates != [] ==> updates[0].prev == Some(ancestor.snap.block.hash)
      decreases if ancestor == null then 0 else Above(ancestor.snap.block.number, number),
                ancestor != null
    {
      ChainedMore(c, updates, latest.snap, ancestor.snap);
      WayMore(memory.blocks, way, hash, next.value, updates);
      updates, way := [ancestor.snap] + updates, [next.value] + way;
      Known(c, ancestor.snap);
      if ancestor.snap.prev.Some? && ancestor.snap.prev.value in memory.blocks {
        next := ancestor.snap.prev;
        ancestor := memory.blocks[ancestor.snap.prev.value];
        Known(c, ancestor.snap);
      } else {
        ancestor, next := null, None;
      }
    }
  }

  ghost predicate Holds(blocks: map<Hash, MemoryBlock>, x: MemoryBlock) {
    x.snap.block.hash in blocks && blocks[x.snap.block.hash] == x
  }

  ghost predicate Found(blocks: map<Hash, MemoryBlock>, h: Option<Hash>, x: MemoryBlock?) {
    if h.None? then x == null else h.value in blocks && x == blocks[h.value]
  }

  lemma WayMore(blocks: map<Hash, MemoryBlock>, way: seq<Hash>, latest: Hash, next: Hash, snaps: seq<Snapshot>)
    requires IsWay(blocks, way, latest) && NextBack(blocks, way, latest, Some(next)) && next in blocks
    requires Along(blocks, way, snaps)
    ensures IsWay(blocks, [next] + way, latest) && Along(blocks, [next] + way, [blocks[next].snap] + snaps)
  {
    var all := [next] + way;
    assert forall k :: 0 < k < |all| ==> all[k] == way[k - 1];
    assert way != [] ==> all[1] == way[0];
  }

  lemma ChainedNone(c: Chain, latest: Snapshot)
    ensures Chained(c, [], latest)
  {
  }

  lemma Known(c: Chain, s: Snapshot)
    requires Good(c, s)
    ensures s.block == c.info(s.block.hash)
    ensures s.prev.Some? ==> c.info(s.prev.value).number < s.block.number
  {
  }

  /**
   * What is emitted when `latest` comes after `from`: if links lead back to `from`, the snapshots on
   * the way, oldest first; otherwise a single one, which leads from the one block to the other.
   */
  ghost predicate Advanced(c: Chain, blocks: map<Hash, MemoryBlock>, from: MemoryBlock, latest: MemoryBlock,
                           emitted: seq<Snapshot>) {
    var start, end := from.snap.block.hash, latest.snap.block.hash;
    if Holds(blocks, from) && exists way :: LeadsBack(blocks, start, way, end)
    then forall way :: LeadsBack(blocks, start, way, end) ==> Along(blocks, way, emitted)
    else
      && |emitted| == 1 && emitted[0] == latest.snap.(entries := emitted[0].entries, deltas := emitted[0].deltas)
      && (emitted[0].deltas.None? <==> from.snap.rootHash == latest.snap.rootHash)
      && LeadsFrom(c, emitted[0], start)
  }

  lemma AdvancedAlong(c: Chain, blocks: map<Hash, MemoryBlock>, from: MemoryBlock, latest: MemoryBlock, way: seq<Hash>,
                      next: Option<Hash>, emitted: seq<Snapshot>)
    requires AllGood(c, blocks) && Holds(blocks, latest) && latest != from
    requires WayAbove(blocks, way, latest.snap.block.hash, from.snap.block.number, next) && Found(blocks, next, from)
    requires Along(blocks, way, emitted)
    ensures Advanced(c, blocks, from, latest, emitted)
  {
    var start, end := from.snap.block.hash, latest.snap.block.hash;
    assert Holds(blocks, from) && next == Some(start);
    hide Good, AllGood;
    assert LeadsBack(blocks, start, way, end);
    forall other | LeadsBack(blocks, start, other, end) ensures Along(blocks, other, emitted) {
      WayFound(c, blocks, start, other, end, way, next);
    }
  }

  lemma AdvancedAcross(c: Chain, blocks: map<Hash, MemoryBlock>, from: MemoryBlock, latest: MemoryBlock, way: seq<Hash>,
                       next: Option<Hash>, ancestor: MemoryBlock?, reorg: Snapshot)
    requires AllGood(c, blocks) && ancestor != from
    requires WayAbove(blocks, way, latest.snap.block.hash, from.snap.block.number, next)
             && Found(blocks, next, ancestor)
    requires reorg == latest.snap.(entries := reorg.entries, deltas := reorg.deltas)
    requires reorg.deltas.None? <==> from.snap.rootHash == latest.snap.rootHash
    requires LeadsFrom(c, reorg, from.snap.block.hash)
    ensures Advanced(c, blocks, from, latest, [reorg])
  {
    hide Good, AllGood, LeadsFrom;
    var start, end := from.snap.block.hash, latest.snap.block.hash;
    if Holds(blocks, from) {
      forall other ensures !LeadsBack(blocks, start, other, end) {
        if LeadsBack(blocks, start, other, end) {
          WayFound(c, blocks, start, other, end, way, next);
        }
      }
    }
  }

  /**
   * What finalizing `latest` after `from` leaves in memory: nothing below the first snapshot on the
   * way back that is above `from`.
   */
  ghost predicate Forgotten(blocks: map<Hash, MemoryBlock>, from: MemoryBlock, latest: MemoryBlock,
                            left: map<Hash, MemoryBlock>) {
    exists way, next :: WayAbove(blocks, way, latest.snap.block.hash, from.snap.block.number, next)
      && LeftFrom(blocks, left, way)
  }

  ghost predicate LeftFrom(blocks: map<Hash, MemoryBlock>, left: map<Hash, MemoryBlock>, way: seq<Hash>) {
    && (way != [] ==> way[0] in blocks)
    && (forall h :: h in left <==>
          h in blocks && (way != [] ==> blocks[h].snap.block.number >= blocks[way[0]].snap.block.number))
    && (forall h :: h in left ==> left[h] == blocks[h])
  }

  /** Follows the best or the finalized block of one storage map. */
  class Watcher {
    const isFinalized: bool
    var last: MemoryBlock?
    var log: seq<Snapshot>   // everything emitted

    constructor (isFinalized: bool)
      ensures this.isFinalized == isFinalized && last == null && log == []
    {
      this.isFinalized, last, log := isFinalized, null, [];
    }

    ghost predicate Ok(c: Chain)
      reads this
    {
      && Folds(c, log)
      && (last == null <==> log == [])
      && (last != null ==> Good(c, last.snap) && log[|log| - 1].block == last.snap.block)
    }

    function Head(pinned: PinnedBlocks): Hash {
      if isFinalized then pinned.finalized else pinned.best
    }

    /** The last snapshot shown is the nearest in memory to the block `head`, if there is one. */
    ghost predicate CaughtUp(pinned: PinnedBlocks, head: Hash, known: set<Hash>)
      reads this
    {
      || Nearest(pinned, head, 0, known, None)
      || (last != null && Nearest(pinned, head, 0, known, Some(last.snap.block.hash)))
    }

    /** What the watcher emits when the snapshots or the pinned blocks have changed. */
    method Update(ghost c: Chain, pinned: PinnedBlocks, memory: MemoryBlocks) returns (emitted: seq<Snapshot>)
      requires c.Sound() && Ok(c) && memory.Ok(c) && PinnedOk(c.info, pinned)
      modifies this, memory
      ensures Ok(c) && memory.Ok(c) && log == old(log) + emitted
      ensures forall h :: h in memory.blocks ==> h in old(memory.blocks) && memory.blocks[h] == old(memory.blocks)[h]
      ensures !isFinalized ==> memory.blocks == old(memory.blocks) && memory.finalized == old(memory.finalized)
      ensures isFinalized ==> CaughtUp(pinned, pinned.finalized, old(memory.blocks).Keys)
      ensures !isFinalized ==> CaughtUp(pinned, pinned.best, old(memory.blocks).Keys)
      ensures emitted == [] <==> last == old(last)
      ensures emitted != [] ==>
                && last != null && emitted[|emitted| - 1].block == last.snap.block
                && Nearest(pinned, if isFinalized then pinned.finalized else pinned.best, 0, old(memory.blocks).Keys,
                           Some(last.snap.block.hash))
                && (isFinalized && old(last) != null ==> memory.finalized == last.snap.block.hash)
      ensures emitted != [] && old(last) == null ==> emitted == [last.snap] && memory.blocks == old(memory.blocks)
      ensures emitted != [] && old(last) != null ==> Advanced(c, old(memory.blocks), old(last), last, emitted)
      ensures emitted != [] && old(last) != null && isFinalized ==>
                Forgotten(old(memory.blocks), old(last), last, memory.blocks)
    {
      hide Nearest, Shows, LeadsFrom, Folds, Chained, PinnedOk;
      var latest := FindPrevious(c, Head(pinned), memory.blocks, pinned, true);
      if latest == null || latest == last {
        return [];
      }
      var prevUpdate := last;
      last := latest;
      if prevUpdate == null {
        emitted := [latest.snap];
        FoldsFirst(c, latest.snap);
        log := emitted;
        return;
      }
      emitted := Advance(c, prevUpdate, latest, memory);
      log := log + emitted;
    }

    /** Goes on from the last snapshot to the latest one: over its ancestors, or by a re-org. */
    method Advance(ghost c: Chain, prevUpdate: MemoryBlock, latest: MemoryBlock, memory: MemoryBlocks)
      returns (emitted: seq<Snapshot>)
      requires c.Sound() && memory.Ok(c) && latest != prevUpdate
      requires latest.snap.block.hash in memory.blocks && memory.blocks[latest.snap.block.hash] == latest
      requires Folds(c, log) && log != [] && Good(c, prevUpdate.snap) && log[|log| - 1].block == prevUpdate.snap.block
      modifies memory
      ensures memory.Ok(c) && Folds(c, log + emitted)
      ensures emitted != [] && emitted[|emitted| - 1].block == latest.snap.block
      ensures Advanced(c, old(memory.blocks), prevUpdate, latest, emitted)
      ensures isFinalized ==> Forgotten(old(memory.blocks), prevUpdate, latest, memory.blocks)
      ensures forall h :: h in memory.blocks ==> h in old(memory.blocks) && memory.blocks[h] == old(memory.blocks)[h]
      ensures if isFinalized then memory.finalized == latest.snap.block.hash
              else memory.blocks == old(memory.blocks) && memory.finalized == old(memory.finalized)
    {
      hide Shows, LeadsFrom, Folds, Chained, WayAbove, Advanced;
      var updates, ancestor, way, next := Ancestors(c, latest, memory, prevUpdate.snap.block.number);
      if isFinalized {
        memory.finalized := latest.snap.block.hash;
        if updates != [] {
          ChainedUp(c, updates, latest.snap);
          memory.Prune(updates[0].block.number);
        }
      }
      assert isFinalized ==> LeftFrom(old(memory.blocks), memory.blocks, way);
      if ancestor == prevUpdate {
        emitted := updates;
        ChainedJoins(c, log, updates, latest.snap, prevUpdate.snap);
        AdvancedAlong(c, old(memory.blocks), prevUpdate, latest, way, next, updates);
      } else {
        var reorg := Reorg(c, prevUpdate.snap, latest.snap);
        emitted := [reorg];
        AdvancedAcross(c, old(memory.blocks), prevUpdate, latest, way, next, ancestor, reorg);
        ReorgJoins(c, log, reorg);
      }
    }
  }

  lemma FoldsFirst(c: Chain, s: Snapshot)
    requires Good(c, s)
    ensures Folds(c, [s])
  {
  }

  lemma ChainedUp(c: Chain, updates: seq<Snapshot>, latest: Snapshot)
    requires Chained(c, updates, latest) && updates != []
    ensures updates[0].block.number <= latest.block.number
  {
  }

  /** Emitting the snapshots between two blocks of one chain. */
  lemma ChainedJoins(c: Chain, log: seq<Snapshot>, updates: seq<Snapshot>, latest: Snapshot, from: Snapshot)
    requires Folds(c, log) && log != [] && log[|log| - 1].block == from.block
    requires Chained(c, updates, latest)
    requires updates != [] ==> updates[0].prev == Some(from.block.hash)
    ensures Folds(c, log + updates)
    ensures updates != [] ==> updates[|updates| - 1].block == latest.block
  {
    ChainedFolds(c, updates, latest);
    if updates != [] {
      assert Good(c, updates[0]);
    }
    hide Folds;
    FoldsMore(c, log, updates);
  }

  lemma ReorgJoins(c: Chain, log: seq<Snapshot>, s: Snapshot)
    requires Folds(c, log) && log != [] && Shows(c, s) && LeadsFrom(c, s, log[|log| - 1].block.hash)
    ensures Folds(c, log + [s])
  {
    assert Folds(c, [s]);
    hide Folds;
    FoldsMore(c, log, [s]);
  }

  /** Leads from one block to another that is on a different branch. */
  method Reorg(ghost c: Chain, from: Snapshot, latest: Snapshot) returns (s: Snapshot)
    requires c.Sound() && Good(c, from) && Good(c, latest)
    ensures Shows(c, s) && LeadsFrom(c, s, from.block.hash)
    ensures s == latest.(entries := s.entries, deltas := s.deltas)
    ensures s.deltas.None? <==> from.rootHash == latest.rootHash
  {
    if from.rootHash == latest.rootHash {
      return latest.(entries := from.entries, deltas := None);
    }
    var entries, deltas :=
        Diff(c, Some(from.block.hash), from.entries, latest.block.hash, latest.entries, latest.runtime);
    return latest.(entries := entries, deltas := Some(deltas));
  }

  // ---------------------------------------------------------------- the whole watch

  /** A snapshot that is being fetched: the first one, the next one, or one to start over with. */
  datatype Job =
    | First(block: BlockInfo)
    | Next(previous: MemoryBlock, memory: MemoryBlocks, target: BlockInfo)
    | StartOver(previous: MemoryBlock, finalized: BlockInfo)
  {
    function Block(): BlockInfo {
      match this
      case First(block) => block
      case Next(_, _, target) => target
      case StartOver(_, finalized) => finalized
    }
  }

  ghost predicate JobOk(c: Chain, job: Job) {
    && job.Block() == c.info(job.Block().hash) && job.Block().hash != ""
    && (job.Next? ==> Good(c, job.previous.snap) && c.info(job.previous.snap.block.hash).number < job.target.number)
    && (job.StartOver? ==> Good(c, job.previous.snap))
  }

  class Watch {
    var memories: seq<MemoryBlocks>   // every value of the memory blocks so far, newest last
    var job: Option<Job>
    const best: Watcher
    const finalized: Watcher

    constructor ()
      ensures memories == [] && job == None && best.log == [] && finalized.log == []
      ensures forall c: Chain :: Ok(c)
      ensures fresh(best) && fresh(finalized)
    {
      memories, job := [], None;
      best := new Watcher(false);
      finalized := new Watcher(true);
    }

    ghost predicate Ok(c: Chain)
      reads this, memories, best, finalized
    {
      && best.Ok(c) && finalized.Ok(c) && best != finalized && !best.isFinalized && finalized.isFinalized
      && (forall m :: m in memories ==> m.Ok(c))
      && (job.Some? ==> JobOk(c, job.value))
      && (job.Some? && job.value.Next? ==> job.value.memory in memories)
    }

    /**
     * Starts fetching a snapshot, unless one is being fetched. `which` chooses the memory blocks
     * that were current when the pinned blocks came in.
     */
    method Begin(ghost c: Chain, pinned: PinnedBlocks, which: nat)
      requires c.Sound() && Ok(c) && PinnedOk(c.info, pinned)
      modifies this`job
      ensures Ok(c)
      ensures old(job).Some? ==> job == old(job)
      ensures old(job).None? && memories == [] ==> job == Some(First(pinned.blocks[pinned.finalized]))
      ensures old(job).None? && which < |memories| ==>
                var memory := memories[which];
                memory.finalized in memory.blocks &&
                if pinned.best in memory.blocks then job.None?
                else if job.Some? && job.value.Next?
                then job.value.memory == memory && job.value.target == pinned.blocks[pinned.best]
                     && Nearest(pinned, pinned.best, 1, memory.blocks.Keys, Some(job.value.previous.snap.block.hash))
                else job == Some(StartOver(memory.blocks[memory.finalized], pinned.blocks[pinned.finalized]))
                     && Nearest(pinned, pinned.best, 1, memory.blocks.Keys, None)
    {
      hide Nearest;
      assert which < |memories| ==> memories[which] in memories && memories[which].Ok(c);
      if job.Some? {
        return;
      }
      if memories == [] {
        job := Some(First(pinned.blocks[pinned.finalized]));
        return;
      }
      if which >= |memories| {
        return;
      }
      var memory := memories[which];
      if pinned.best in memory.blocks {
        return;
      }
      assert memory.Ok(c);
      var previous := FindPrevious(c, pinned.best, memory.blocks, pinned, false);
      if previous != null {
        job := Some(Next(previous, memory, pinned.blocks[pinned.best]));
      } else {
        job := Some(StartOver(memory.blocks[memory.finalized], pinned.blocks[pinned.finalized]));
      }
    }

    /** The server has answered for the block that is being fetched. */
    method Complete(ghost c: Chain, rootHash: string, listing: seq<Entry>, runtime: nat)
      requires c.Sound() && Ok(c) && job.Some?
      requires rootHash == c.root(job.value.Block().hash) && Lists(listing, c.storage(job.value.Block().hash))
      modifies this, memories
      ensures Ok(c) && job.None? && best.log == old(best.log) && finalized.log == old(finalized.log)
      ensures forall i :: 0 <= i < |memories| ==> memories[i] in old(memories) || fresh(memories[i])
      ensures memories != [] && var hash := old(job).value.Block().hash;
              var memory := memories[|memories| - 1];
              && memories[..|memories| - 1] == old(memories) && hash in memory.blocks
              && (old(job).value.Next? ==>
                    && memory == old(job).value.memory && memory.finalized == old(memory.finalized)
                    && memory.blocks == old(memory.blocks)[hash := memory.blocks[hash]]
                    && memory.blocks[hash].snap.prev == Some(old(job).value.previous.snap.block.hash))
              && (!old(job).value.Next? ==>
                    && fresh(memory) && memory.finalized == hash && memory.blocks.Keys == {hash}
                    && memory.blocks[hash].snap.prev == None)
    {
      hide Folds, Shows, LeadsFrom, MemoryBlocks.Ok, Watcher.Ok;
      match job.value {
        case First(block) =>
          var snap := GetNextMemoryBlock(c, None, block, rootHash, listing, runtime);
          var x := new MemoryBlock(snap);
          var memory := new MemoryBlocks(c, block.hash, x);
          memories := memories + [memory];
        case Next(previous, memory, target) =>
          var snap := GetNextMemoryBlock(c, Some(previous.snap), target, rootHash, listing, runtime);
          var x := new MemoryBlock(snap);
          memory.Add(c, target.hash, x);
          memories := memories + [memory];
        case StartOver(previous, block) =>
          var snap := GetNextMemoryBlock(c, Some(previous.snap), block, rootHash, listing, runtime);
          var x := new MemoryBlock(snap.(prev := None));
          var memory := new MemoryBlocks(c, block.hash, x);
          memories := memories + [memory];
      }
      job := None;
    }

    /** The block is no longer canonical, or was unpinned, before the answer came. */
    method Abort(ghost c: Chain)
      requires Ok(c)
      modifies this`job
      ensures Ok(c) && job.None?
    {
      job := None;
    }

    /** One of the watchers sees new memory blocks or new pinned blocks. */
    method Look(ghost c: Chain, atFinalized: bool, pinned: PinnedBlocks, which: nat)
      requires c.Sound() && Ok(c) && PinnedOk(c.info, pinned)
      modifies best, finalized, memories
      ensures Ok(c)
      ensures memories == old(memories) && job == old(job)
      ensures old(best.log) <= best.log && old(finalized.log) <= finalized.log
      ensures atFinalized ==> best.log == old(best.log) && best.last == old(best.last)
      ensures !atFinalized ==> finalized.log == old(finalized.log) && finalized.last == old(finalized.last)
      ensures which < |memories| ==>
                if atFinalized then finalized.CaughtUp(pinned, pinned.finalized, old(memories[which].blocks).Keys)
                else best.CaughtUp(pinned, pinned.best, old(memories[which].blocks).Keys)
    {
      hide Folds, Good, Nearest, PinnedOk;
      if which >= |memories| {
        return;
      }
      var memory := memories[which];
      if atFinalized {
        var emitted := finalized.Update(c, pinned, memory);
      } else {
        var emitted := best.Update(c, pinned, memory);
      }
    }
  }

  datatype Event =
    | Pinned(pinned: PinnedBlocks, which: nat)
    | Answered(hash: Hash, rootHash: string, listing: seq<Entry>, runtime: nat)
    | GivenUp
    | Seen(atFinalized: bool, blocks: PinnedBlocks, memory: nat)

  ghost predicate EventOk(c: Chain, e: Event) {
    match e
    case Pinned(pinned, _) => PinnedOk(c.info, pinned)
    case Answered(hash, rootHash, listing, _) => rootHash == c.root(hash) && Lists(listing, c.storage(hash))
    case GivenUp => true
    case Seen(_, blocks, _) => PinnedOk(c.info, blocks)
  }

  ghost predicate KnowsStorage(c: Chain, log: seq<Snapshot>) {
    forall start: nat :: start < |log| ==> Folded(log[start..]) == c.storage(log[|log| - 1].block.hash)
  }

  lemma AlwaysKnowsStorage(c: Chain, log: seq<Snapshot>)
    requires Folds(c, log)
    ensures KnowsStorage(c, log)
  {
    forall start: nat | start < |log| ensures Folded(log[start..]) == c.storage(log[|log| - 1].block.hash) {
      FoldIsStorage(c, log, start);
    }
  }

  /**
   * Any run: whenever a subscriber of either watcher starts, and whatever happens, folding what it
   * gets yields the storage of the block that was last emitted.
   */
  method Run(ghost c: Chain, events: seq<Event>) returns (w: Watch)
    requires c.Sound() && forall k :: 0 <= k < |events| ==> EventOk(c, events[k])
    ensures w.Ok(c) && KnowsStorage(c, w.best.log) && KnowsStorage(c, w.finalized.log)
  {
    hide Folds, Good, PinnedOk, KnowsStorage, Nearest, JobOk;
    w := new Watch();
    for k := 0 to |events|
      invariant w.Ok(c) && fresh(w) && fresh(w.best) && fresh(w.finalized)
                && (forall i :: 0 <= i < |w.memories| ==> fresh(w.memories[i]))
    {
      assert EventOk(c, events[k]);
      match events[k] {
        case Pinned(pinned, which) =>
          w.Begin(c, pinned, which);
        case Answered(hash, rootHash, listing, runtime) =>
          if w.job.Some? && w.job.value.Block().hash == hash {
            w.Complete(c, rootHash, listing, runtime);
          }
        case GivenUp =>
          w.Abort(c);
        case Seen(atFinalized, blocks, memory) =>
          w.Look(c, atFinalized, blocks, memory);
      }
    }
    AlwaysKnowsStorage(c, w.best.log);
    AlwaysKnowsStorage(c, w.finalized.log);
  }
}
