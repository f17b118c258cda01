/** The Merkle tree over the encoded lookup entries, and what its multi-proofs prove. */
module MerkleHash {
  import opened Basics
  import opened HeapTree
  import opened MerkleProof

  /** The hash of an encoded entry, the hash of two concatenated hashes, and the root of the empty tree. */
  datatype Hasher<!L, !H> = Hasher(leaf: L -> H, join: (H, H) -> H, zero: H)

  function NodeHash<L, H>(h: Hasher<L, H>, leaves: seq<L>, i: nat): H
    requires i < 2 * |leaves| - 1
    decreases 2 * |leaves| - 1 - i
  {
    if IsInner(|leaves|, i) then h.join(NodeHash(h, leaves, 2 * i + 1), NodeHash(h, leaves, 2 * i + 2))
    else h.leaf(leaves[i - (|leaves| - 1)])
  }

  function Root<L, H>(h: Hasher<L, H>, leaves: seq<L>): H {
    if |leaves| == 0 then h.zero else NodeHash(h, leaves, 0)
  }

  // --------------------------------------------------------- the root by a deque

  /** RFC-0078: pop two hashes from the back, push their parent to the front, until one is left. */
  function DequeRoot<L, H>(h: Hasher<L, H>, deque: seq<H>): H
    requires deque != []
    decreases |deque|
  {
    var k := |deque|;
    if k == 1 then deque[0] else DequeRoot(h, [h.join(deque[k - 2], deque[k - 1])] + deque[..k - 2])
  }

  /** The nodes that the deque holds when `k` hashes are left. */
  function Frontier<L, H>(h: Hasher<L, H>, leaves: seq<L>, k: nat): seq<H>
    requires 0 < k <= |leaves|
  {
    seq(k, j requires 0 <= j < k => NodeHash(h, leaves, k - 1 + j))
  }

  lemma {:induction false} DequeRootOfFrontier<L, H>(h: Hasher<L, H>, leaves: seq<L>, k: nat)
    requires 0 < k <= |leaves|
    ensures DequeRoot(h, Frontier(h, leaves, k)) == NodeHash(h, leaves, 0)
    decreases k
  {
    var deque := Frontier(h, leaves, k);
    if k > 1 {
      var next := [h.join(deque[k - 2], deque[k - 1])] + deque[..k - 2];
      forall j | 0 <= j < k - 1 ensures next[j] == NodeHash(h, leaves, k - 2 + j) {
        if j == 0 {
          assert deque[k - 2] == NodeHash(h, leaves, 2 * (k - 2) + 1)
                 && deque[k - 1] == NodeHash(h, leaves, 2 * (k - 2) + 2);
        } else {
          assert next[j] == deque[j - 1] == NodeHash(h, leaves, k - 1 + (j - 1));
        }
      }
      assert next == Frontier(h, leaves, k - 1);
      DequeRootOfFrontier(h, leaves, k - 1);
    }
  }

  /** The heap-shaped tree has the root that RFC-0078 prescribes. */
  lemma RootIsDequeRoot<L, H>(h: Hasher<L, H>, leaves: seq<L>)
    requires leaves != []
    ensures Root(h, leaves) == DequeRoot(h, seq(|leaves|, i requires 0 <= i < |leaves| => h.leaf(leaves[i])))
  {
    DequeRootOfFrontier(h, leaves, |leaves|);
    var hashed := seq(|leaves|, i requires 0 <= i < |leaves| => h.leaf(leaves[i]));
    forall i | 0 <= i < |leaves| ensures Frontier(h, leaves, |leaves|)[i] == hashed[i] {
      assert NodeHash(h, leaves, |leaves| - 1 + i) == h.leaf(leaves[i]);
    }
    assert Frontier(h, leaves, |leaves|) == hashed;
  }

  // --------------------------------------------------------------- replaying a proof

  datatype Replayed<H> = Stuck | Rebuilt(hash: H, nextLeaf: nat, nextProof: nat)

  /**
   * Walks the tree as the proof was made, taking the hash of the next known leaf or the next proof
   * hash where the walk stops.
   */
  function Replay<L, H>(h: Hasher<L, H>, idxs: seq<nat>, vals: seq<L>, proofs: seq<H>, node: nat, t: nat, p: nat,
                        ghost limit: nat): (r: Replayed<H>)
    requires |vals| == |idxs| && t <= |idxs| && p <= |proofs|
    requires forall k :: 0 <= k < |idxs| ==> idxs[k] < limit
    ensures r.Rebuilt? ==> t <= r.nextLeaf <= |idxs| && p <= r.nextProof <= |proofs|
    decreases limit - node
  {
    if t < |idxs| && idxs[t] == node then Rebuilt(h.leaf(vals[t]), t + 1, p)
    else if t < |idxs| && node < idxs[t] && IsAncestor(node, idxs[t]) then
      var left := Replay(h, idxs, vals, proofs, 2 * node + 1, t, p, limit);
      if left.Stuck? then Stuck
      else
        var right := Replay(h, idxs, vals, proofs, 2 * node + 2, left.nextLeaf, left.nextProof, limit);
        if right.Stuck? then Stuck else Rebuilt(h.join(left.hash, right.hash), right.nextLeaf, right.nextProof)
    else if p < |proofs| then Rebuilt(proofs[p], t, p + 1)
    else Stuck
  }

  /** Different leaves, and different pairs of hashes, never hash alike. */
  ghost predicate Injective<L(!new), H(!new)>(h: Hasher<L, H>) {
    && (forall a, b :: h.leaf(a) == h.leaf(b) ==> a == b)
    && (forall a, b, c, d :: h.join(a, b) == h.join(c, d) ==> a == c && b == d)
  }

  ghost predicate TrueLeaves<L>(leaves: seq<L>, idxs: seq<nat>, vals: seq<L>, from: nat, to: nat) {
    forall k :: from <= k < to && k < |idxs| && k < |vals| && IsLeaf(|leaves|, idxs[k]) && |leaves| > 0 ==>
        vals[k] == leaves[idxs[k] - (|leaves| - 1)]
  }

  /** From `p` on, `proofs` holds the hashes of the nodes `qs`. */
  ghost predicate TrueProofs<L, H>(h: Hasher<L, H>, leaves: seq<L>, qs: seq<nat>, proofs: seq<H>, p: nat) {
    && p + |qs| <= |proofs|
    && (forall k :: 0 <= k < |qs| ==> qs[k] < 2 * |leaves| - 1 && proofs[p + k] == NodeHash(h, leaves, qs[k]))
  }

  ghost predicate Replaying<L>(leaves: seq<L>, known: set<nat>, idxs: seq<nat>, i: nat, t: nat) {
    && 0 < |leaves|
    && Leaves(|leaves|, known) && FitShift(known)
    && (forall x :: x in idxs ==> x in known)
    && i < 2 * |leaves| - 1
    && t <= |idxs|
    && KnownBelow(|leaves|, known, i) <= idxs[t..]
  }

  lemma KnownInRange<L>(leaves: seq<L>, known: set<nat>, idxs: seq<nat>)
    requires Leaves(|leaves|, known) && forall x :: x in idxs ==> x in known
    ensures forall k :: 0 <= k < |idxs| ==> idxs[k] < 2 * |leaves| - 1 && IsLeaf(|leaves|, idxs[k])
  {
    forall k | 0 <= k < |idxs| ensures idxs[k] < 2 * |leaves| - 1 && IsLeaf(|leaves|, idxs[k]) {
      assert idxs[k] in known;
    }
  }

  /** What the replay of the subtree at `i` does: it consumes its part of the input, whatever the hashes are. */
  ghost predicate ReplayResult<L(!new), H(!new)>(h: Hasher<L, H>, leaves: seq<L>, known: set<nat>, idxs: seq<nat>,
                                     vals: seq<L>, proofs: seq<H>, i: nat, t: nat, p: nat)
    requires |vals| == |idxs| && t <= |idxs| && p <= |proofs|
    requires i < 2 * |leaves| - 1
    requires forall k :: 0 <= k < |idxs| ==> idxs[k] < 2 * |leaves| - 1
  {
    var ks, qs := KnownBelow(|leaves|, known, i), ProofBelow(|leaves|, known, i);
    var r := Replay(h, idxs, vals, proofs, i, t, p, 2 * |leaves|);
    && r.Rebuilt? && r.nextLeaf == t + |ks| && r.nextProof == p + |qs|
    && (TrueLeaves(leaves, idxs, vals, t, t + |ks|) && TrueProofs(h, leaves, qs, proofs, p) ==>
        r.hash == NodeHash(h, leaves, i))
    && (Injective(h) && r.hash == NodeHash(h, leaves, i) ==>
        TrueLeaves(leaves, idxs, vals, t, t + |ks|) && TrueProofs(h, leaves, qs, proofs, p))
  }

  lemma {:induction false} ReplayAt<L(!new), H(!new)>(h: Hasher<L, H>, leaves: seq<L>, known: set<nat>, idxs: seq<nat>,
                                                      vals: seq<L>, proofs: seq<H>, i: nat, t: nat, p: nat)
    requires Replaying(leaves, known, idxs, i, t)
    requires |vals| == |idxs| && p <= |proofs|
    requires forall k :: 0 <= k < |idxs| ==> idxs[k] < 2 * |leaves| - 1 && IsLeaf(|leaves|, idxs[k])
    requires p + |ProofBelow(|leaves|, known, i)| <= |proofs|
    ensures ReplayResult(h, leaves, known, idxs, vals, proofs, i, t, p)
    decreases 2 * |leaves| - 1 - i
  {
    var n := |leaves|;
    KnownBelowMembers(n, known, i);
    if t < |idxs| && idxs[t] == i {
      assert idxs[t] in known;
      ReplayLeaf(h, leaves, known, idxs, vals, proofs, i, t, p);
    } else {
      if t < |idxs| { assert idxs[t] in known; IsAncestorExact(i, idxs[t]); }
      if t < |idxs| && Under(idxs[t], i) {
        UnderLevel(idxs[t], i);
        ReplayInner(h, leaves, known, idxs, vals, proofs, i, t, p);
      } else {
        if t < |idxs| { NextIsElsewhere(n, known, i, idxs[t..]); } else { NothingKnown(n, known, i); }
        ReplayProof(h, leaves, known, idxs, vals, proofs, i, t, p);
      }
    }
  }

  lemma ReplayLeaf<L(!new), H(!new)>(h: Hasher<L, H>, leaves: seq<L>, known: set<nat>, idxs: seq<nat>, vals: seq<L>,
                                     proofs: seq<H>, i: nat, t: nat, p: nat)
    requires |leaves| > 0 && i < 2 * |leaves| - 1 && Leaves(|leaves|, known) && i in known
    requires |vals| == |idxs| && t < |idxs| && p <= |proofs| && idxs[t] == i
    requires forall k :: 0 <= k < |idxs| ==> idxs[k] < 2 * |leaves| - 1 && IsLeaf(|leaves|, idxs[k])
    ensures ReplayResult(h, leaves, known, idxs, vals, proofs, i, t, p)
  {
  }

  lemma ReplayProof<L(!new), H(!new)>(h: Hasher<L, H>, leaves: seq<L>, known: set<nat>, idxs: seq<nat>, vals: seq<L>,
                                      proofs: seq<H>, i: nat, t: nat, p: nat)
    requires |leaves| > 0 && i < 2 * |leaves| - 1
    requires |vals| == |idxs| && t <= |idxs| && p < |proofs|
    requires forall k :: 0 <= k < |idxs| ==> idxs[k] < 2 * |leaves| - 1
    requires t < |idxs| ==> idxs[t] != i && !IsAncestor(i, idxs[t])
    requires KnownBelow(|leaves|, known, i) == [] && ProofBelow(|leaves|, known, i) == [i]
    ensures ReplayResult(h, leaves, known, idxs, vals, proofs, i, t, p)
  {
    hide KnownBelow, ProofBelow;
    var r := Replay(h, idxs, vals, proofs, i, t, p, 2 * |leaves|);
    assert r == Rebuilt(proofs[p], t, p + 1);
    OneProof(h, leaves, i, proofs, p);
  }

  lemma OneProof<L, H>(h: Hasher<L, H>, leaves: seq<L>, i: nat, proofs: seq<H>, p: nat)
    requires i < 2 * |leaves| - 1 && p < |proofs|
    ensures TrueProofs(h, leaves, [i], proofs, p) <==> proofs[p] == NodeHash(h, leaves, i)
  {
    if TrueProofs(h, leaves, [i], proofs, p) {
      assert [i][0] == i && proofs[p + 0] == NodeHash(h, leaves, [i][0]);
    } else {
      var k :| 0 <= k < |[i]| && !([i][k] < 2 * |leaves| - 1 && proofs[p + k] == NodeHash(h, leaves, [i][k]));
      assert k == 0;
    }
  }

  lemma ReplayInner<L(!new), H(!new)>(h: Hasher<L, H>, leaves: seq<L>, known: set<nat>, idxs: seq<nat>, vals: seq<L>,
                                      proofs: seq<H>, i: nat, t: nat, p: nat)
    requires Replaying(leaves, known, idxs, i, t)
    requires |vals| == |idxs| && t < |idxs| && p <= |proofs|
    requires forall k :: 0 <= k < |idxs| ==> idxs[k] < 2 * |leaves| - 1 && IsLeaf(|leaves|, idxs[k])
    requires p + |ProofBelow(|leaves|, known, i)| <= |proofs|
    requires i < idxs[t] && idxs[t] in known && Under(idxs[t], i) && IsAncestor(i, idxs[t])
    ensures ReplayResult(h, leaves, known, idxs, vals, proofs, i, t, p)
    decreases 2 * |leaves| - 1 - i, 0
  {
    hide ReplayResult, TrueLeaves, TrueProofs, Leaves, IsAncestor, Replay, Under, KnownBelow, ProofBelow, Replaying;
    var n := |leaves|;
    var l, r := 2 * i + 1, 2 * i + 2;
    ReplayingInTree(leaves, known, idxs, i, t);
    Descend(n, known, i, idxs[t]);
    var t1, p1 := t + |KnownBelow(n, known, l)|, p + |ProofBelow(n, known, l)|;
    SonsReplaying(leaves, known, idxs, i, t);
    ReplayAt(h, leaves, known, idxs, vals, proofs, l, t, p);
    ReplayAt(h, leaves, known, idxs, vals, proofs, r, t1, p1);
    JoinResults(h, leaves, known, idxs, vals, proofs, i, t, p);
  }

  lemma ReplayingInTree<L>(leaves: seq<L>, known: set<nat>, idxs: seq<nat>, i: nat, t: nat)
    requires Replaying(leaves, known, idxs, i, t)
    ensures 0 < |leaves| && Leaves(|leaves|, known) && i < 2 * |leaves| - 1
  {
    hide KnownBelow;
  }

  lemma SonsReplaying<L>(leaves: seq<L>, known: set<nat>, idxs: seq<nat>, i: nat, t: nat)
    requires Replaying(leaves, known, idxs, i, t) && IsInner(|leaves|, i)
    ensures var left := KnownBelow(|leaves|, known, 2 * i + 1);
            && t + |left| <= |idxs|
            && Replaying(leaves, known, idxs, 2 * i + 1, t) && Replaying(leaves, known, idxs, 2 * i + 2, t + |left|)
  {
    var n := |leaves|;
    var left, right := KnownBelow(n, known, 2 * i + 1), KnownBelow(n, known, 2 * i + 2);
    assert KnownBelow(n, known, i) == left + right;
    SplitPrefix(left, right, idxs[t..]);
    hide KnownBelow, Leaves;
    assert idxs[t..][|left|..] == idxs[t + |left|..];
  }

  lemma JoinResults<L(!new), H(!new)>(h: Hasher<L, H>, leaves: seq<L>, known: set<nat>, idxs: seq<nat>, vals: seq<L>,
                                      proofs: seq<H>, i: nat, t: nat, p: nat)
    requires |leaves| > 0 && IsInner(|leaves|, i)
    requires |vals| == |idxs| && t < |idxs| && p <= |proofs|
    requires forall k :: 0 <= k < |idxs| ==> idxs[k] < 2 * |leaves| - 1
    requires i < idxs[t] && IsAncestor(i, idxs[t])
    requires var n := |leaves|;
             && KnownBelow(n, known, i) == KnownBelow(n, known, 2 * i + 1) + KnownBelow(n, known, 2 * i + 2)
             && ProofBelow(n, known, i) == ProofBelow(n, known, 2 * i + 1) + ProofBelow(n, known, 2 * i + 2)
    requires ReplayResult(h, leaves, known, idxs, vals, proofs, 2 * i + 1, t, p)
    requires var n := |leaves|;
             var t1, p1 := t + |KnownBelow(n, known, 2 * i + 1)|, p + |ProofBelow(n, known, 2 * i + 1)|;
             t1 <= |idxs| && p1 <= |proofs| && ReplayResult(h, leaves, known, idxs, vals, proofs, 2 * i + 2, t1, p1)
    ensures ReplayResult(h, leaves, known, idxs, vals, proofs, i, t, p)
  {
    hide KnownBelow, ProofBelow, IsAncestor;
    var n := |leaves|;
    var kl, kr := KnownBelow(n, known, 2 * i + 1), KnownBelow(n, known, 2 * i + 2);
    var ql, qr := ProofBelow(n, known, 2 * i + 1), ProofBelow(n, known, 2 * i + 2);
    SplitTrueProofs(h, leaves, ql, qr, proofs, p);
    assert TrueLeaves(leaves, idxs, vals, t, t + |kl + kr|) <==>
      TrueLeaves(leaves, idxs, vals, t, t + |kl|) && TrueLeaves(leaves, idxs, vals, t + |kl|, t + |kl| + |kr|);
    hide TrueLeaves, TrueProofs;
  }

  lemma SplitTrueProofs<L, H>(h: Hasher<L, H>, leaves: seq<L>, ql: seq<nat>, qr: seq<nat>, proofs: seq<H>, p: nat)
    ensures TrueProofs(h, leaves, ql + qr, proofs, p)
            <==> TrueProofs(h, leaves, ql, proofs, p) && TrueProofs(h, leaves, qr, proofs, p + |ql|)
  {
    var qs := ql + qr;
    if TrueProofs(h, leaves, qs, proofs, p) {
      forall k | 0 <= k < |ql| ensures ql[k] < 2 * |leaves| - 1 && proofs[p + k] == NodeHash(h, leaves, ql[k]) {
        assert qs[k] == ql[k];
      }
      forall k | 0 <= k < |qr| ensures qr[k] < 2 * |leaves| - 1 && proofs[p + |ql| + k] == NodeHash(h, leaves, qr[k]) {
        assert qs[|ql| + k] == qr[k];
      }
    }
  }

  // ------------------------------------------------------------------ theorems

  /** The hashes that go with the proof nodes. */
  ghost predicate AreHashesOf<L, H>(h: Hasher<L, H>, leaves: seq<L>, qs: seq<nat>, proofs: seq<H>) {
    && |proofs| == |qs|
    && forall k :: 0 <= k < |qs| ==> qs[k] < 2 * |leaves| - 1 && proofs[k] == NodeHash(h, leaves, qs[k])
  }

  ghost predicate AreLeavesAt<L>(leaves: seq<L>, idxs: seq<nat>, vals: seq<L>) {
    && |vals| == |idxs|
    && forall k :: 0 <= k < |idxs| ==>
       IsLeaf(|leaves|, idxs[k]) && |leaves| > 0 && vals[k] == leaves[idxs[k] - (|leaves| - 1)]
  }

  /** `idxs` are the known leaves and `qs` the proof nodes of a tree, the former within reach of the ancestor test. */
  ghost predicate IsProofShape<L>(leaves: seq<L>, known: set<nat>, idxs: seq<nat>, qs: seq<nat>) {
    && 0 < |leaves|
    && Leaves(|leaves|, known) && FitShift(known)
    && idxs == KnownBelow(|leaves|, known, 0)
    && qs == ProofBelow(|leaves|, known, 0)
  }

  lemma ShapeReplays<L(!new), H(!new)>(h: Hasher<L, H>, leaves: seq<L>, known: set<nat>, idxs: seq<nat>, qs: seq<nat>,
                                       vals: seq<L>, proofs: seq<H>)
    requires IsProofShape(leaves, known, idxs, qs) && |vals| == |idxs| && |qs| <= |proofs|
    ensures forall k :: 0 <= k < |idxs| ==> idxs[k] < 2 * |leaves| - 1 && IsLeaf(|leaves|, idxs[k])
    ensures forall k :: 0 <= k < |qs| ==> qs[k] < 2 * |leaves| - 1
    ensures ReplayResult(h, leaves, known, idxs, vals, proofs, 0, 0, 0)
  {
    hide ReplayResult;
    KnownBelowMembers(|leaves|, known, 0);
    ProofBelowInside(|leaves|, known, 0);
    KnownInRange(leaves, known, idxs);
    assert idxs[0..] == idxs;
    ReplayAt(h, leaves, known, idxs, vals, proofs, 0, 0, 0);
    forall k | 0 <= k < |qs| ensures qs[k] < 2 * |leaves| - 1 {
      assert qs[k] in qs;
    }
  }

  /** Replaying a proof with the known leaves consumes all of it and rebuilds the root. */
  lemma ProofRebuildsRoot<L(!new), H(!new)>(h: Hasher<L, H>, leaves: seq<L>, known: set<nat>, idxs: seq<nat>,
                                            qs: seq<nat>, vals: seq<L>, proofs: seq<H>)
    requires IsProofShape(leaves, known, idxs, qs)
    requires AreLeavesAt(leaves, idxs, vals) && AreHashesOf(h, leaves, qs, proofs)
    ensures forall k :: 0 <= k < |idxs| ==> idxs[k] < 2 * |leaves|
    ensures Replay(h, idxs, vals, proofs, 0, 0, 0, 2 * |leaves|) == Rebuilt(Root(h, leaves), |vals|, |proofs|)
  {
    ShapeReplays(h, leaves, known, idxs, qs, vals, proofs);
    LeavesAreTrue(leaves, idxs, vals);
    HashesAreTrue(h, leaves, qs, proofs);
    hide KnownBelow, ProofBelow, Replay, NodeHash, TrueLeaves, TrueProofs, Leaves, IsLeaf;
  }

  lemma LeavesAreTrue<L>(leaves: seq<L>, idxs: seq<nat>, vals: seq<L>)
    requires AreLeavesAt(leaves, idxs, vals)
    ensures TrueLeaves(leaves, idxs, vals, 0, |idxs|)
  {
  }

  lemma HashesAreTrue<L, H>(h: Hasher<L, H>, leaves: seq<L>, qs: seq<nat>, proofs: seq<H>)
    requires AreHashesOf(h, leaves, qs, proofs)
    ensures TrueProofs(h, leaves, qs, proofs, 0)
  {
  }

  /** With an injective hash, only the true leaves and hashes rebuild the root at these positions. */
  lemma RootBindsLeaves<L(!new), H(!new)>(h: Hasher<L, H>, leaves: seq<L>, known: set<nat>, idxs: seq<nat>,
                                          qs: seq<nat>, vals: seq<L>, proofs: seq<H>)
    requires IsProofShape(leaves, known, idxs, qs) && Injective(h)
    requires |vals| == |idxs| && |proofs| == |qs|
    requires forall k :: 0 <= k < |idxs| ==> idxs[k] < 2 * |leaves|
    requires var r := Replay(h, idxs, vals, proofs, 0, 0, 0, 2 * |leaves|);
             r.Rebuilt? && r.hash == Root(h, leaves)
    ensures AreLeavesAt(leaves, idxs, vals) && AreHashesOf(h, leaves, qs, proofs)
  {
    hide Injective, Replay;
    ShapeReplays(h, leaves, known, idxs, qs, vals, proofs);
    hide KnownBelow, ProofBelow;
    assert TrueLeaves(leaves, idxs, vals, 0, |idxs|);
    assert TrueProofs(h, leaves, qs, proofs, 0);
    forall k | 0 <= k < |qs| ensures proofs[k] == NodeHash(h, leaves, qs[k]) {
      assert proofs[0 + k] == NodeHash(h, leaves, qs[k]);
    }
  }

  /**
   * The ancestor test works for all nodes of a tree of up to 2^30 leaves and of no larger one that
   * fits a JavaScript array: there the signed shift misses that the last leaf lies below the root.
   */
  lemma AllAncestorTestsWorkIff(n: nat)
    requires 0 < n <= 0x8000_0000
    ensures (forall i: nat, x: nat :: i < 2 * n - 1 && x < 2 * n - 1 ==> (IsAncestor(i, x) <==> Under(x, i)))
            <==> n <= 0x4000_0000
  {
    if n <= 0x4000_0000 {
      forall i: nat, x: nat | i < 2 * n - 1 && x < 2 * n - 1 ensures IsAncestor(i, x) <==> Under(x, i) {
        IsAncestorExact(i, x);
      }
    } else {
      RootMisses(2 * n - 2);
      UnderRoot(2 * n - 2);
    }
  }

  // ------------------------------------------------------------------ algorithm

  /** All node hashes, the root first. */
  ghost function TreeHashes<L, H>(h: Hasher<L, H>, leaves: seq<L>): seq<H> {
    if |leaves| == 0 then [h.zero]
    else seq(2 * |leaves| - 1, i requires 0 <= i < 2 * |leaves| - 1 => NodeHash(h, leaves, i))
  }

  /** From node `from` up to node `to`, `tree` holds the node hashes. */
  ghost predicate Hashed<L, H>(h: Hasher<L, H>, leaves: seq<L>, tree: seq<H>, from: nat, to: nat) {
    |tree| == 2 * |leaves| - 1 && forall k :: from <= k < to && k < |tree| ==> tree[k] == NodeHash(h, leaves, k)
  }

  lemma NoneHashed<L, H>(h: Hasher<L, H>, leaves: seq<L>, tree: seq<H>)
    requires |tree| == 2 * |leaves| - 1
    ensures Hashed(h, leaves, tree, |leaves| - 1, |leaves| - 1)
  {
  }

  lemma LeafHashed<L, H>(h: Hasher<L, H>, leaves: seq<L>, tree: seq<H>, i: nat)
    requires i < |leaves| && Hashed(h, leaves, tree, |leaves| - 1, |leaves| - 1 + i)
    ensures Hashed(h, leaves, tree[|leaves| - 1 + i := h.leaf(leaves[i])], |leaves| - 1, |leaves| + i)
  {
    var node := |leaves| - 1 + i;
    assert NodeHash(h, leaves, node) == h.leaf(leaves[i]);
    hide NodeHash;
  }

  lemma InnerHashed<L, H>(h: Hasher<L, H>, leaves: seq<L>, tree: seq<H>, i: nat)
    requires IsInner(|leaves|, i) && Hashed(h, leaves, tree, i + 1, |tree|)
    ensures 2 * i + 2 < |tree|
    ensures Hashed(h, leaves, tree[i := h.join(tree[2 * i + 1], tree[2 * i + 2])], i, |tree|)
  {
    assert NodeHash(h, leaves, i) == h.join(NodeHash(h, leaves, 2 * i + 1), NodeHash(h, leaves, 2 * i + 2));
    hide NodeHash;
  }

  lemma AllHashed<L, H>(h: Hasher<L, H>, leaves: seq<L>, tree: seq<H>)
    requires |leaves| > 0 && Hashed(h, leaves, tree, 0, |tree|)
    ensures tree == TreeHashes(h, leaves)
  {
    hide NodeHash;
  }

  /** The merkleizer's closure state: the encoded entries and the memoised tree. */
  class Merkleizer<L(!new), H(0,!new)> {
    const h: Hasher<L, H>
    const lookupEncoded: seq<L>
    var hashTree: array?<H>

    ghost predicate Valid()
      reads this, hashTree
    {
      hashTree != null ==> hashTree[..] == TreeHashes(h, lookupEncoded)
    }

    constructor (h: Hasher<L, H>, lookupEncoded: seq<L>)
      ensures Valid() && this.h == h && this.lookupEncoded == lookupEncoded && hashTree == null
    {
      this.h, this.lookupEncoded, hashTree := h, lookupEncoded, null;
    }

    /** Hashes the leaves, then every pair of sons from the last node down to the root. */
    method BuildTree() returns (tree: array<H>)
      requires |lookupEncoded| > 0
      ensures fresh(tree) && tree[..] == TreeHashes(h, lookupEncoded)
    {
      hide NodeHash, Hashed, TreeHashes;
      var n := |lookupEncoded|;
      tree := new H[2 * n - 1];
      var leavesStartIdx := n - 1;
      NoneHashed(h, lookupEncoded, tree[..]);
      for i := 0 to n
        invariant Hashed(h, lookupEncoded, tree[..], n - 1, n - 1 + i)
      {
        LeafHashed(h, lookupEncoded, tree[..], i);
        ghost var before := tree[..];
        tree[leavesStartIdx + i] := h.leaf(lookupEncoded[i]);
        assert tree[..] == before[n - 1 + i := h.leaf(lookupEncoded[i])];
      }
      var i := tree.Length - 2;
      while i > 0
        invariant -1 <= i <= 2 * n - 3 && i % 2 == 1
        invariant Hashed(h, lookupEncoded, tree[..], (i + 1) / 2, 2 * n - 1)
      {
        InnerHashed(h, lookupEncoded, tree[..], (i - 1) / 2);
        ghost var before := tree[..];
        tree[(i - 1) / 2] := h.join(tree[i], tree[i + 1]);
        assert tree[..] == before[(i - 1) / 2 := h.join(before[i], before[i + 1])];
        i := i - 2;
      }
      AllHashed(h, lookupEncoded, tree[..]);
    }

    method GetHashTree() returns (tree: array<H>)
      requires Valid()
      modifies this
      ensures Valid() && tree == hashTree && tree[..] == TreeHashes(h, lookupEncoded)
      ensures old(hashTree) != null ==> hashTree == old(hashTree)
    {
      if hashTree != null {
        return hashTree;
      }
      if |lookupEncoded| == 0 {
        tree := new H[1];
        tree[0] := h.zero;
      } else {
        tree := BuildTree();
      }
      hashTree := tree;
    }

    /** The known leaves, their node numbers and the hashes of a proof for the given lookup entries. */
    method GenerateProof(knownIndexes: seq<nat>) returns (leaves: seq<L>, leafIdxs: seq<nat>, proofs: seq<H>)
      requires Valid() && |lookupEncoded| <= MAX_LEAVES
      requires Increasing(knownIndexes) && forall k :: 0 <= k < |knownIndexes| ==> knownIndexes[k] < |lookupEncoded|
      modifies this
      ensures Valid() && |leaves| == |leafIdxs|
      ensures forall k :: 0 <= k < |leafIdxs| ==> leafIdxs[k] < 2 * |lookupEncoded|
      ensures Replay(h, leafIdxs, leaves, proofs, 0, 0, 0, 2 * |lookupEncoded|)
              == Rebuilt(Root(h, lookupEncoded), |leaves|, |proofs|)
              <==> (|lookupEncoded| > 0 ==> FitShift(KnownSet(|lookupEncoded|, knownIndexes)))
      ensures |lookupEncoded| > 0 ==>
                && leafIdxs == KnownBelow(|lookupEncoded|, KnownSet(|lookupEncoded|, knownIndexes), 0)
                && Paired(lookupEncoded, leaves, leafIdxs)
                && (!FitShift(KnownSet(|lookupEncoded|, knownIndexes)) ==> proofs == [Root(h, lookupEncoded)])
      ensures |lookupEncoded| == 0 ==> leaves == []
    {
      hide NodeHash, IsAncestor, KnownBelow, ProofBelow, Leaves, Paired, KnownSet, Increasing, Replay, AreLeavesAt,
        AreHashesOf, IsProofShape, FitShift;
      var n := |lookupEncoded|;
      var proofIdxs;
      leaves, leafIdxs, proofIdxs := GetProofData(lookupEncoded, knownIndexes);
      var tree := GetHashTree();
      if n == 0 {
        proofs := Select(tree, proofIdxs);
        assert tree[..][0] == proofs[0] && proofs == [proofs[0]];
        NothingReplayed(h, lookupEncoded, tree[..], proofs[0]);
        return;
      }
      ghost var known := KnownSet(n, knownIndexes);
      if FitShift(known) {
        ShapeOfProof(lookupEncoded, knownIndexes, leaves, leafIdxs, proofIdxs);
        ProofNodesInRange(lookupEncoded, known, leafIdxs, proofIdxs);
      }
      proofs := Select(tree, proofIdxs);
      assert forall k :: 0 <= k < |proofIdxs| ==> proofs[k] == tree[..][proofIdxs[k]];
      if FitShift(known) {
        HashesSelected(h, lookupEncoded, tree[..], proofIdxs, proofs);
        ProofRebuildsRoot(h, lookupEncoded, known, leafIdxs, proofIdxs, leaves, proofs);
      } else {
        assert proofs == [tree[..][0]];
        KnownSetLeaves(n, knownIndexes);
        AsManyLeaves(lookupEncoded, leaves, leafIdxs);
        RootReplayed(h, lookupEncoded, known, leafIdxs, leaves, tree[..]);
      }
    }
  }

  /** Where the ancestor test misses, the proof is the root alone, and replaying it uses no leaf. */
  lemma RootReplayed<L(!new), H(!new)>(h: Hasher<L, H>, leaves: seq<L>, known: set<nat>, idxs: seq<nat>, vals: seq<L>,
                                       tree: seq<H>)
    requires 0 < |leaves| <= MAX_LEAVES && Leaves(|leaves|, known) && !FitShift(known)
    requires idxs == KnownBelow(|leaves|, known, 0) && |vals| == |idxs|
    requires tree == TreeHashes(h, leaves)
    ensures |tree| > 0 && tree[0] == Root(h, leaves) && idxs != []
    ensures forall k :: 0 <= k < |idxs| ==> idxs[k] < 2 * |leaves|
    ensures Replay(h, idxs, vals, [tree[0]], 0, 0, 0, 2 * |leaves|) == Rebuilt(Root(h, leaves), 0, 1)
  {
    var n := |leaves|;
    hide KnownBelow, ProofBelow, NodeHash, IsAncestor, FitShift, Leaves, Ordered;
    KnownBelowMembers(n, known, 0);
    KnownBelowOrdered(n, known, 0);
    forall x | x in known ensures Under(x, 0) { UnderRoot(x); }
    FirstMisses(n, known, idxs);
    KnownInRange(leaves, known, idxs);
  }

  lemma AsManyLeaves<T>(leaves: seq<T>, vals: seq<T>, idxs: seq<nat>)
    requires Paired(leaves, vals, idxs)
    ensures |vals| == |idxs|
  {
  }

  lemma NothingReplayed<L(!new), H(!new)>(h: Hasher<L, H>, leaves: seq<L>, tree: seq<H>, x: H)
    requires leaves == [] && tree == TreeHashes(h, leaves) && |tree| > 0 && tree[0] == x
    ensures Replay(h, [], [], [x], 0, 0, 0, 0) == Rebuilt(Root(h, leaves), 0, 1)
  {
  }

  lemma ShapeOfProof<L>(leaves: seq<L>, knownIdxs: seq<nat>, vals: seq<L>, idxs: seq<nat>, qs: seq<nat>)
    requires 0 < |leaves| && FitShift(KnownSet(|leaves|, knownIdxs))
    requires Increasing(knownIdxs) && forall k :: 0 <= k < |knownIdxs| ==> knownIdxs[k] < |leaves|
    requires idxs == KnownBelow(|leaves|, KnownSet(|leaves|, knownIdxs), 0)
    requires qs == ProofBelow(|leaves|, KnownSet(|leaves|, knownIdxs), 0)
    requires Paired(leaves, vals, idxs)
    ensures IsProofShape(leaves, KnownSet(|leaves|, knownIdxs), idxs, qs) && AreLeavesAt(leaves, idxs, vals)
            && |vals| == |idxs|
  {
    hide KnownSet, KnownBelow, ProofBelow, Leaves, IsLeaf, Increasing, FitShift;
    KnownSetLeaves(|leaves|, knownIdxs);
  }

  lemma HashesSelected<L, H>(h: Hasher<L, H>, leaves: seq<L>, tree: seq<H>, qs: seq<nat>, proofs: seq<H>)
    requires tree == TreeHashes(h, leaves) && |proofs| == |qs|
    requires forall k :: 0 <= k < |qs| ==> qs[k] < 2 * |leaves| - 1 && qs[k] < |tree| && proofs[k] == tree[qs[k]]
    ensures |leaves| > 0 ==> AreHashesOf(h, leaves, qs, proofs)
  {
    hide NodeHash;
  }

  lemma ProofNodesInRange<L>(leaves: seq<L>, known: set<nat>, idxs: seq<nat>, qs: seq<nat>)
    requires IsProofShape(leaves, known, idxs, qs)
    ensures forall k :: 0 <= k < |qs| ==> qs[k] < 2 * |leaves| - 1
  {
    ProofBelowInside(|leaves|, known, 0);
    forall k | 0 <= k < |qs| ensures qs[k] < 2 * |leaves| - 1 {
      assert qs[k] in qs;
    }
  }

  method Select<H>(tree: array<H>, idxs: seq<nat>) returns (r: seq<H>)
    requires forall k :: 0 <= k < |idxs| ==> idxs[k] < tree.Length
    ensures |r| == |idxs| && forall k :: 0 <= k < |idxs| ==> r[k] == tree[idxs[k]]
  {
    r := [];
    for k := 0 to |idxs|
      invariant |r| == k && forall l :: 0 <= l < k ==> r[l] == tree[idxs[l]]
    {
      r := r + [tree[idxs[k]]];
    }
  }

  lemma KnownSetLeaves(n: nat, idxs: seq<nat>)
    requires n > 0 && forall k :: 0 <= k < |idxs| ==> idxs[k] < n
    ensures Leaves(n, KnownSet(n, idxs))
  {
  }
}
