/** Multi-proofs for a set of known leaves of a heap-shaped Merkle tree. */
module MerkleProof {
  import opened Basics
  import opened HeapTree

  // ------------------------------------------------------------- specification

  /** `i` is a leaf of the tree with `n` leaves. */
  predicate IsLeaf(n: nat, i: nat) {
    n - 1 <= i <= 2 * n - 2
  }

  predicate IsInner(n: nat, i: nat) {
    i < n - 1
  }

  ghost predicate Leaves(n: nat, known: set<nat>) {
    forall x :: x in known ==> IsLeaf(n, x)
  }

  /** Some known leaf lies at or below node `i`. */
  ghost predicate Holds(known: set<nat>, i: nat) {
    exists x :: x in known && Under(x, i)
  }

  /** The known leaves at or below `i`, from left to right. */
  ghost function KnownBelow(n: nat, known: set<nat>, i: nat): seq<nat>
    requires i < 2 * n - 1
    decreases 2 * n - 1 - i
  {
    if IsInner(n, i) then KnownBelow(n, known, 2 * i + 1) + KnownBelow(n, known, 2 * i + 2)
    else if i in known then [i] else []
  }

  /** The roots of the largest subtrees below `i` without known leaves, from left to right. */
  ghost function ProofBelow(n: nat, known: set<nat>, i: nat): seq<nat>
    requires i < 2 * n - 1
    decreases 2 * n - 1 - i
  {
    if i in known then []
    else if !Holds(known, i) || !IsInner(n, i) then [i]
    else ProofBelow(n, known, 2 * i + 1) + ProofBelow(n, known, 2 * i + 2)
  }

  lemma {:induction false} LeafUnderIsSelf(n: nat, x: nat, i: nat)
    requires IsLeaf(n, x) && !IsInner(n, i) && Under(x, i)
    ensures x == i
  {
    if x > i && Under(Parent(x), i) {
      UnderLevel(Parent(x), i);
    }
  }

  lemma HoldsSons(n: nat, known: set<nat>, i: nat)
    requires Leaves(n, known) && IsInner(n, i)
    ensures Holds(known, i) <==> Holds(known, 2 * i + 1) || Holds(known, 2 * i + 2)
  {
    forall x | x in known ensures Under(x, i) <==> Under(x, 2 * i + 1) || Under(x, 2 * i + 2) {
      UnderSon(x, i);
    }
  }

  lemma {:induction false} KnownBelowMembers(n: nat, known: set<nat>, i: nat)
    requires Leaves(n, known) && i < 2 * n - 1
    ensures forall x :: x in KnownBelow(n, known, i) <==> x in known && Under(x, i)
    ensures KnownBelow(n, known, i) != [] <==> Holds(known, i)
    decreases 2 * n - 1 - i
  {
    if IsInner(n, i) {
      KnownBelowMembers(n, known, 2 * i + 1);
      KnownBelowMembers(n, known, 2 * i + 2);
      forall x | x in known ensures Under(x, i) <==> Under(x, 2 * i + 1) || Under(x, 2 * i + 2) {
        UnderSon(x, i);
      }
      HoldsSons(n, known, i);
    } else {
      forall x | x in known && Under(x, i) ensures x == i {
        LeafUnderIsSelf(n, x, i);
      }
      assert i in known ==> Under(i, i);
    }
  }

  // ----------------------------------------------------- left-to-right order

  /** The level of the deepest leaves. */
  ghost function Depth(n: nat): nat
    requires n > 0
  {
    GetLevelFromIdx(2 * n - 2)
  }

  /** The position of leaf `x` among all places of the deepest level. */
  ghost function Place(n: nat, x: nat): nat
    requires n > 0
  {
    if GetLevelFromIdx(x) == Depth(n) then x + 1 else 2 * (x + 1)
  }

  /** Leaves lie on the two deepest levels. */
  lemma LeafLevels(n: nat, x: nat)
    requires IsLeaf(n, x)
    ensures n > 0 && (GetLevelFromIdx(x) == Depth(n) || GetLevelFromIdx(x) + 1 == Depth(n))
  {
    Log2Monotone(n, x + 1);
    Log2Monotone(x + 1, 2 * n - 1);
    if n > 1 {
      assert (2 * n - 1) / 2 == n - 1;
      Log2Monotone(n - 1, n);
    }
  }

  /** Deeper leaves lie to the left of the others; on each level they go by number. */
  lemma PlaceOrder(n: nat, x: nat, y: nat)
    requires IsLeaf(n, x) && IsLeaf(n, y)
    ensures n > 0
    ensures GetLevelFromIdx(x) == GetLevelFromIdx(y) ==> (Place(n, x) < Place(n, y) <==> x < y)
    ensures GetLevelFromIdx(x) > GetLevelFromIdx(y) ==> Place(n, x) < Place(n, y)
  {
    LeafLevels(n, x);
    LeafLevels(n, y);
  }

  /** The number of places of the deepest level below node `i`. */
  ghost function Width(n: nat, i: nat): nat
    requires n > 0
  {
    if GetLevelFromIdx(i) <= Depth(n) then Pow2(Depth(n) - GetLevelFromIdx(i)) else 0
  }

  ghost function FirstPlace(n: nat, i: nat): int
    requires n > 0
  {
    (i + 1) * Width(n, i)
  }

  ghost function EndPlace(n: nat, i: nat): int
    requires n > 0
  {
    (i + 2) * Width(n, i)
  }

  lemma NodeLevel(n: nat, i: nat)
    requires i < 2 * n - 1
    ensures GetLevelFromIdx(i) <= Depth(n)
  {
    Log2Monotone(i + 1, 2 * n - 1);
  }

  lemma SonWidth(n: nat, i: nat)
    requires IsInner(n, i)
    ensures GetLevelFromIdx(2 * i + 1) == GetLevelFromIdx(2 * i + 2) == GetLevelFromIdx(i) + 1 <= Depth(n)
    ensures Width(n, i) == 2 * Width(n, 2 * i + 1) && Width(n, 2 * i + 1) == Width(n, 2 * i + 2)
  {
    ParentLevel(2 * i + 1);
    ParentLevel(2 * i + 2);
    NodeLevel(n, 2 * i + 1);
  }

  ghost predicate Ordered(n: nat, xs: seq<nat>)
    requires n > 0
  {
    forall i, j :: 0 <= i < j < |xs| ==> Place(n, xs[i]) < Place(n, xs[j])
  }

  ghost predicate Within(n: nat, xs: seq<nat>, lo: int, hi: int)
    requires n > 0
  {
    forall i :: 0 <= i < |xs| ==> lo <= Place(n, xs[i]) < hi
  }

  lemma ConcatOrdered(n: nat, xs: seq<nat>, ys: seq<nat>, lo: int, mid: int, hi: int)
    requires n > 0 && lo <= mid <= hi
    requires Ordered(n, xs) && Ordered(n, ys) && Within(n, xs, lo, mid) && Within(n, ys, mid, hi)
    ensures Ordered(n, xs + ys) && Within(n, xs + ys, lo, hi)
  {
    hide Place;
  }

  /** The known leaves below `i` come in left-to-right order, all within the places of `i`. */
  lemma {:induction false} KnownBelowOrdered(n: nat, known: set<nat>, i: nat)
    requires Leaves(n, known) && i < 2 * n - 1
    ensures Ordered(n, KnownBelow(n, known, i))
    ensures Within(n, KnownBelow(n, known, i), FirstPlace(n, i), EndPlace(n, i))
    decreases 2 * n - 1 - i
  {
    hide FirstPlace, EndPlace, Ordered, Within;
    if IsInner(n, i) {
      KnownBelowOrdered(n, known, 2 * i + 1);
      KnownBelowOrdered(n, known, 2 * i + 2);
      SonPlaces(n, i);
      ConcatOrdered(n, KnownBelow(n, known, 2 * i + 1), KnownBelow(n, known, 2 * i + 2),
                    FirstPlace(n, i), FirstPlace(n, 2 * i + 2), EndPlace(n, i));
    } else {
      LeafPlace(n, i);
      OneOrNone(n, KnownBelow(n, known, i), i);
    }
  }

  lemma OneOrNone(n: nat, xs: seq<nat>, i: nat)
    requires n > 0 && FirstPlace(n, i) <= Place(n, i) < EndPlace(n, i)
    requires xs == [] || xs == [i]
    ensures Ordered(n, xs) && Within(n, xs, FirstPlace(n, i), EndPlace(n, i))
  {
    hide Place, FirstPlace, EndPlace;
  }

  lemma LeafPlace(n: nat, i: nat)
    requires IsLeaf(n, i)
    ensures n > 0 && FirstPlace(n, i) <= Place(n, i) < EndPlace(n, i)
  {
    LeafLevels(n, i);
    var w := Width(n, i);
    assert w == 1 || w == 2;
    assert w == 1 ==> (i + 1) * w == i + 1 && (i + 2) * w == i + 2;
    assert w == 2 ==> (i + 1) * w == 2 * i + 2 && (i + 2) * w == 2 * i + 4;
  }

  /** The places of a node are split between its sons. */
  lemma SonPlaces(n: nat, i: nat)
    requires IsInner(n, i)
    ensures FirstPlace(n, 2 * i + 1) == FirstPlace(n, i)
    ensures EndPlace(n, 2 * i + 1) == FirstPlace(n, 2 * i + 2)
    ensures EndPlace(n, 2 * i + 2) == EndPlace(n, i)
    ensures FirstPlace(n, i) <= FirstPlace(n, 2 * i + 2) <= EndPlace(n, i)
  {
    SonWidth(n, i);
    var w := Width(n, 2 * i + 1);
    DoubleWidth(i, w);
    hide Width;
  }

  lemma DoubleWidth(i: nat, w: nat)
    ensures (2 * i + 2) * w == (i + 1) * (2 * w)
    ensures (2 * i + 4) * w == (i + 2) * (2 * w)
    ensures (2 * i + 3) * w == (2 * i + 2) * w + w
    ensures (2 * i + 4) * w == (2 * i + 3) * w + w
  {
  }

  lemma NoMembers(ys: seq<nat>)
    requires forall x :: x !in ys
    ensures ys == []
  {
    if |ys| != 0 {
      FirstMember(ys);
    }
  }

  lemma FirstMember(ys: seq<nat>)
    requires |ys| != 0
    ensures ys[0] in ys
  {
  }

  /** There is only one way to list a set in order. */
  lemma {:induction false} OrderedUnique(n: nat, xs: seq<nat>, ys: seq<nat>)
    requires n > 0 && Ordered(n, xs) && Ordered(n, ys)
    requires forall x :: x in xs <==> x in ys
    ensures xs == ys
    decreases |xs|
  {
    hide Place;
    if xs == [] {
      NoMembers(ys);
    } else {
      assert xs[0] in xs;
      assert ys[0] in ys;
      SmallestFirst(n, xs, ys[0]);
      SmallestFirst(n, ys, xs[0]);
      var xs', ys' := xs[1..], ys[1..];
      RestMembers(n, xs);
      RestMembers(n, ys);
      assert xs[0] == ys[0];
      OrderedUnique(n, xs', ys');
      assert xs == [xs[0]] + xs' && ys == [ys[0]] + ys';
    }
  }

  lemma SmallestFirst(n: nat, xs: seq<nat>, x: nat)
    requires n > 0 && Ordered(n, xs) && x in xs
    ensures xs[0] == x || Place(n, xs[0]) < Place(n, x)
  {
    hide Place;
  }

  lemma RestMembers(n: nat, xs: seq<nat>)
    requires n > 0 && Ordered(n, xs) && xs != []
    ensures forall x :: x in xs[1..] <==> x in xs && x != xs[0]
  {
    hide Place;
    forall x | x in xs && x != xs[0] ensures x in xs[1..] {
      var i :| 0 <= i < |xs| && xs[i] == x;
      assert xs[1..][i - 1] == x;
    }
    forall x | x in xs[1..] ensures x in xs && x != xs[0] {
      var i :| 0 <= i < |xs[1..]| && xs[1..][i] == x;
      assert xs[i + 1] == x;
    }
  }

  // ------------------------------------------------------------------ algorithm

  /** The known leaves, given by position, as node numbers. */
  ghost function ToNodes(n: nat, idxs: seq<nat>): seq<nat>
    requires n > 0
  {
    seq(|idxs|, k requires 0 <= k < |idxs| => n - 1 + idxs[k])
  }

  ghost function KnownSet(n: nat, idxs: seq<nat>): set<nat>
    requires n > 0
  {
    set x | x in ToNodes(n, idxs)
  }

  /** The position of the first element at or above `bound`, or the length. */
  method FirstAtLeast(xs: seq<nat>, bound: int) returns (at: nat)
    ensures at <= |xs|
    ensures forall k :: 0 <= k < at ==> xs[k] < bound
    ensures at < |xs| ==> xs[at] >= bound
  {
    at := 0;
    while at < |xs| && xs[at] < bound
      invariant at <= |xs|
      invariant forall k :: 0 <= k < at ==> xs[k] < bound
    {
      at := at + 1;
    }
  }

  /** Moving the leaves of the deepest level to the front puts the known leaves in left-to-right order. */
  lemma RotationOrdered(n: nat, xs: seq<nat>, at: nat)
    requires n > 0 && Increasing(xs) && xs != [] && at <= |xs|
    requires forall x :: x in xs ==> IsLeaf(n, x)
    requires forall k :: 0 <= k < at ==> xs[k] < Pow2(GetLevelFromIdx(xs[|xs| - 1])) - 1
    requires forall k :: at <= k < |xs| ==> xs[k] >= Pow2(GetLevelFromIdx(xs[|xs| - 1])) - 1
    ensures Ordered(n, xs[at..] + xs[..at])
  {
    var top := GetLevelFromIdx(xs[|xs| - 1]);
    var ys := xs[at..] + xs[..at];
    forall k | 0 <= k < |xs|
      ensures xs[k] in xs && (k < at <==> GetLevelFromIdx(xs[k]) < top) && GetLevelFromIdx(xs[k]) <= top
    {
      Log2Monotone(xs[k] + 1, xs[|xs| - 1] + 1);
      LevelBySplit(xs[k], top);
    }
    forall i, j | 0 <= i < j < |ys| ensures Place(n, ys[i]) < Place(n, ys[j]) {
      var a := if i < |xs| - at then i + at else i - (|xs| - at);
      var b := if j < |xs| - at then j + at else j - (|xs| - at);
      assert ys[i] == xs[a] && ys[j] == xs[b];
      SplitLevels(n, xs, at, top, a, b);
      PlaceOrder(n, xs[a], xs[b]);
    }
  }

  lemma LevelBySplit(x: nat, top: nat)
    ensures GetLevelFromIdx(x) < top <==> x < Pow2(top) - 1
  {
    Log2Bounds(x + 1);
    var l := GetLevelFromIdx(x);
    if l < top {
      Pow2Monotone(l + 1, top);
    } else {
      Pow2Monotone(top, l);
    }
  }

  /** On each side of the split all leaves are on one level. */
  lemma SplitLevels(n: nat, xs: seq<nat>, at: nat, top: nat, a: nat, b: nat)
    requires n > 0 && Increasing(xs) && a < |xs| && b < |xs| && at <= |xs|
    requires forall x :: x in xs ==> IsLeaf(n, x)
    requires forall k :: 0 <= k < |xs| ==>
             xs[k] in xs && (k < at <==> GetLevelFromIdx(xs[k]) < top) && GetLevelFromIdx(xs[k]) <= top
    requires (a < at <==> b < at) ==> a < b
    requires top == GetLevelFromIdx(xs[|xs| - 1])
    requires a >= at || b < at
    ensures GetLevelFromIdx(xs[a]) > GetLevelFromIdx(xs[b])
            || (GetLevelFromIdx(xs[a]) == GetLevelFromIdx(xs[b]) && xs[a] < xs[b])
  {
    LeafLevels(n, xs[a]);
    LeafLevels(n, xs[b]);
    LeafLevels(n, xs[|xs| - 1]);
  }

  /** The known leaves for which the shift-based ancestor test is right. */
  ghost predicate FitShift(known: set<nat>) {
    forall x :: x in known ==> x < MAX_INT32
  }

  /** The variables that the recursive traversal shares. */
  class Traversal {
    const leafIdxs: seq<nat>
    var targetIdx: nat
    var proofIdxs: seq<nat>

    constructor (leafIdxs: seq<nat>)
      ensures this.leafIdxs == leafIdxs && targetIdx == 0 && proofIdxs == []
    {
      this.leafIdxs, targetIdx, proofIdxs := leafIdxs, 0, [];
    }

    /** The ancestor test fails at `nodeIdx`. */
    ghost predicate Misses(nodeIdx: nat)
      reads this
    {
      targetIdx < |leafIdxs| && nodeIdx != leafIdxs[targetIdx] && !IsAncestor(nodeIdx, leafIdxs[targetIdx])
    }

    /** Consumes the known leaves below `nodeIdx` and collects the proof nodes there. */
    method Traverse(nodeIdx: nat, ghost n: nat, ghost known: set<nat>)
      requires n > 0 && nodeIdx < 2 * n - 1
      requires FitShift(known) || Misses(nodeIdx)
      requires Leaves(n, known) && forall x :: x in leafIdxs ==> x in known
      requires targetIdx <= |leafIdxs| && KnownBelow(n, known, nodeIdx) <= leafIdxs[targetIdx..]
      modifies this
      ensures FitShift(known) ==>
                && targetIdx == old(targetIdx) + |KnownBelow(n, known, nodeIdx)| <= |leafIdxs|
                && proofIdxs == old(proofIdxs) + ProofBelow(n, known, nodeIdx)
      ensures !FitShift(known) ==> targetIdx == old(targetIdx) && proofIdxs == old(proofIdxs) + [nodeIdx]
      decreases 2 * n - 1 - nodeIdx
    {
      hide KnownBelow, ProofBelow, Leaves, Under, IsAncestor, GetLevelFromIdx, IsLeaf;
      if targetIdx == |leafIdxs| {
        NothingLeft(n, known, nodeIdx, leafIdxs[targetIdx..]);
        proofIdxs := proofIdxs + [nodeIdx];
        return;
      }
      var target := leafIdxs[targetIdx];
      assert target in known;
      if target == nodeIdx {
        ItselfKnown(n, known, nodeIdx);
        targetIdx := targetIdx + 1;
        return;
      }
      TargetInTree(n, known, target);
      if FitShift(known) {
        IsAncestorExact(nodeIdx, target);
      }
      if !IsAncestor(nodeIdx, target) {
        if FitShift(known) {
          NextIsElsewhere(n, known, nodeIdx, leafIdxs[targetIdx..]);
        }
        proofIdxs := proofIdxs + [nodeIdx];
        return;
      }
      UnderLevel(target, nodeIdx);
      var leftSon := 2 * nodeIdx + 1;
      Descend(n, known, nodeIdx, target);
      SplitPrefix(KnownBelow(n, known, leftSon), KnownBelow(n, known, leftSon + 1), leafIdxs[targetIdx..]);
      Traverse(leftSon, n, known);
      assert leafIdxs[old(targetIdx)..][|KnownBelow(n, known, leftSon)|..] == leafIdxs[targetIdx..];
      Traverse(leftSon + 1, n, known);
    }
  }

  lemma NothingLeft(n: nat, known: set<nat>, i: nat, rest: seq<nat>)
    requires Leaves(n, known) && i < 2 * n - 1 && rest == [] && KnownBelow(n, known, i) <= rest
    ensures KnownBelow(n, known, i) == [] && ProofBelow(n, known, i) == [i]
  {
    NothingKnown(n, known, i);
  }

  lemma ItselfKnown(n: nat, known: set<nat>, i: nat)
    requires Leaves(n, known) && i < 2 * n - 1 && i in known
    ensures KnownBelow(n, known, i) == [i] && ProofBelow(n, known, i) == []
  {
  }

  lemma TargetInTree(n: nat, known: set<nat>, target: nat)
    requires Leaves(n, known) && target in known
    ensures IsLeaf(n, target) && target <= 2 * n - 2
  {
  }

  lemma NothingKnown(n: nat, known: set<nat>, i: nat)
    requires Leaves(n, known) && i < 2 * n - 1 && KnownBelow(n, known, i) == []
    ensures ProofBelow(n, known, i) == [i]
  {
    KnownBelowMembers(n, known, i);
    assert Under(i, i);
  }

  /** If the next known leaf is not below `i`, none is. */
  lemma NextIsElsewhere(n: nat, known: set<nat>, i: nat, rest: seq<nat>)
    requires Leaves(n, known) && i < 2 * n - 1
    requires KnownBelow(n, known, i) <= rest && rest != [] && !Under(rest[0], i)
    ensures KnownBelow(n, known, i) == [] && ProofBelow(n, known, i) == [i]
  {
    KnownBelowMembers(n, known, i);
    PrefixHead(KnownBelow(n, known, i), rest);
    NothingKnown(n, known, i);
  }

  lemma PrefixHead(xs: seq<nat>, rest: seq<nat>)
    requires xs <= rest
    ensures xs == [] || rest[0] in xs
  {
  }

  lemma Descend(n: nat, known: set<nat>, i: nat, target: nat)
    requires Leaves(n, known) && i < 2 * n - 1
    requires target in known && target != i && Under(target, i)
    ensures IsInner(n, i)
    ensures KnownBelow(n, known, i) == KnownBelow(n, known, 2 * i + 1) + KnownBelow(n, known, 2 * i + 2)
    ensures ProofBelow(n, known, i) == ProofBelow(n, known, 2 * i + 1) + ProofBelow(n, known, 2 * i + 2)
  {
    if !IsInner(n, i) {
      LeafUnderIsSelf(n, target, i);
    }
  }

  lemma SplitPrefix(a: seq<nat>, b: seq<nat>, s: seq<nat>)
    requires a + b <= s
    ensures a <= s && b <= s[|a|..]
  {
    assert forall k :: 0 <= k < |b| ==> (a + b)[|a| + k] == b[k];
  }

  /** The largest number of leaves for which the nodes fit an array of 2^32 - 1 elements. */
  const MAX_LEAVES: int := 0x8000_0000

  /** If some number does not fit, that of the first target does not, and the root is taken for its own proof. */
  lemma FirstMisses(n: nat, known: set<nat>, leafIdxs: seq<nat>)
    requires 0 < n <= MAX_LEAVES && Leaves(n, known) && !FitShift(known)
    requires Ordered(n, leafIdxs) && forall x :: x in leafIdxs <==> x in known
    ensures leafIdxs != [] && leafIdxs[0] != 0 && !IsAncestor(0, leafIdxs[0])
    ensures ProofBelow(n, known, 0) != [0]
  {
    var x :| x in known && x >= MAX_INT32;
    assert x in leafIdxs;
    SmallestFirst(n, leafIdxs, x);
    assert leafIdxs[0] in known;
    DeepestIsLarge(n, leafIdxs[0], x);
    RootMisses(leafIdxs[0]);
    UnderRoot(x);
    ProofRootKnown(n, known, 0);
    assert [0][0] == 0;
  }

  lemma DeepestIsLarge(n: nat, first: nat, x: nat)
    requires 0 < n <= MAX_LEAVES && IsLeaf(n, first) && IsLeaf(n, x) && x >= MAX_INT32
    requires first == x || Place(n, first) < Place(n, x)
    ensures MAX_INT32 <= first < INT32 - 1
  {
    hide Place;
    if first < MAX_INT32 {
      LevelBound(first);
      Level31(x + 1);
      PlaceOrder(n, x, first);
    }
  }

  /** The known leaves in left-to-right order with their node numbers, and the nodes whose hashes complete the proof. */
  method GetProofData<T>(leaves: seq<T>, knownLeavesIdxs: seq<nat>)
    returns (knownLeaves: seq<T>, leafIdxs: seq<nat>, proofIdxs: seq<nat>)
    requires Increasing(knownLeavesIdxs) && forall k :: 0 <= k < |knownLeavesIdxs| ==> knownLeavesIdxs[k] < |leaves|
    requires |leaves| > MAX_LEAVES ==> FitShift(KnownSet(|leaves|, knownLeavesIdxs))
    ensures |leaves| == 0 ==> knownLeaves == [] && leafIdxs == [] && proofIdxs == [0]
    ensures |leaves| > 0 ==>
              && leafIdxs == KnownBelow(|leaves|, KnownSet(|leaves|, knownLeavesIdxs), 0)
              && Paired(leaves, knownLeaves, leafIdxs)
              && (proofIdxs == ProofBelow(|leaves|, KnownSet(|leaves|, knownLeavesIdxs), 0)
                  <==> FitShift(KnownSet(|leaves|, knownLeavesIdxs)))
              && (!FitShift(KnownSet(|leaves|, knownLeavesIdxs)) ==> proofIdxs == [0])
  {
    if |leaves| == 0 {
      return [], [], [0];
    }
    var n := |leaves|;
    ghost var known := KnownSet(n, knownLeavesIdxs);
    knownLeaves, leafIdxs := Rotate(leaves, knownLeavesIdxs);
    hide KnownBelow, Ordered, IsLeaf, Increasing, ProofBelow, Leaves, KnownSet, Paired, IsAncestor, FitShift;
    InOrderIsKnownBelow(n, known, leafIdxs);
    if !FitShift(known) {
      FirstMisses(n, known, leafIdxs);
    }
    var traversal := new Traversal(leafIdxs);
    assert leafIdxs[0..] == leafIdxs;
    traversal.Traverse(0, n, known);
    proofIdxs := traversal.proofIdxs;
  }

  /** The known leaves and their node numbers, those of the deepest level first. */
  method Rotate<T>(leaves: seq<T>, knownLeavesIdxs: seq<nat>) returns (knownLeaves: seq<T>, leafIdxs: seq<nat>)
    requires |leaves| > 0
    requires Increasing(knownLeavesIdxs) && forall k :: 0 <= k < |knownLeavesIdxs| ==> knownLeavesIdxs[k] < |leaves|
    ensures Ordered(|leaves|, leafIdxs)
    ensures forall x :: x in leafIdxs <==> x in KnownSet(|leaves|, knownLeavesIdxs)
    ensures Leaves(|leaves|, KnownSet(|leaves|, knownLeavesIdxs))
    ensures Paired(leaves, knownLeaves, leafIdxs)
  {
    var n := |leaves|;
    knownLeaves := seq(|knownLeavesIdxs|, k requires 0 <= k < |knownLeavesIdxs| => leaves[knownLeavesIdxs[k]]);
    leafIdxs := seq(|knownLeavesIdxs|, k requires 0 <= k < |knownLeavesIdxs| => n - 1 + knownLeavesIdxs[k]);
    NodesOfLeaves(leaves, knownLeavesIdxs, knownLeaves, leafIdxs);
    hide Ordered, Paired, Increasing, IsLeaf, Leaves, KnownSet, GetLevelFromIdx, Pow2;
    if |leafIdxs| > 0 {
      var nLevels := GetLevelFromIdx(leafIdxs[|leafIdxs| - 1]);
      var splitPosition := Pow2(nLevels) - 1;
      var splitIdx := FirstAtLeast(leafIdxs, splitPosition);
      RotationInOrder(n, leafIdxs, splitIdx, splitPosition);
      RotatedMembers(leafIdxs, splitIdx);
      RotatedPairs(leaves, knownLeaves, leafIdxs, splitIdx);
      if splitIdx > 0 {
        leafIdxs := leafIdxs[splitIdx..] + leafIdxs[..splitIdx];
        knownLeaves := knownLeaves[splitIdx..] + knownLeaves[..splitIdx];
      } else {
        assert leafIdxs[splitIdx..] + leafIdxs[..splitIdx] == leafIdxs;
      }
    } else {
      EmptyOrdered(n);
    }
  }

  /** Every known leaf stands beside its node number. */
  ghost predicate Paired<T>(leaves: seq<T>, knownLeaves: seq<T>, leafIdxs: seq<nat>) {
    && |knownLeaves| == |leafIdxs|
    && forall k :: 0 <= k < |leafIdxs| ==>
       IsLeaf(|leaves|, leafIdxs[k]) && knownLeaves[k] == leaves[leafIdxs[k] - (|leaves| - 1)]
  }

  lemma NodesOfLeaves<T>(leaves: seq<T>, idxs: seq<nat>, knownLeaves: seq<T>, leafIdxs: seq<nat>)
    requires |leaves| > 0 && Increasing(idxs) && forall k :: 0 <= k < |idxs| ==> idxs[k] < |leaves|
    requires |knownLeaves| == |leafIdxs| == |idxs|
    requires forall k :: 0 <= k < |idxs| ==> knownLeaves[k] == leaves[idxs[k]] && leafIdxs[k] == |leaves| - 1 + idxs[k]
    ensures Paired(leaves, knownLeaves, leafIdxs) && Increasing(leafIdxs)
    ensures forall x :: x in leafIdxs <==> x in KnownSet(|leaves|, idxs)
    ensures forall x :: x in leafIdxs ==> IsLeaf(|leaves|, x)
    ensures Leaves(|leaves|, KnownSet(|leaves|, idxs))
  {
    assert leafIdxs == ToNodes(|leaves|, idxs);
    assert forall k :: 0 <= k < |leafIdxs| ==> IsLeaf(|leaves|, leafIdxs[k]);
  }

  lemma RotatedPairs<T>(leaves: seq<T>, knownLeaves: seq<T>, leafIdxs: seq<nat>, at: nat)
    requires Paired(leaves, knownLeaves, leafIdxs) && at <= |leafIdxs|
    ensures Paired(leaves, knownLeaves[at..] + knownLeaves[..at], leafIdxs[at..] + leafIdxs[..at])
  {
    var ys := leafIdxs[at..] + leafIdxs[..at];
    forall k | 0 <= k < |ys|
      ensures IsLeaf(|leaves|, ys[k]) && (knownLeaves[at..] + knownLeaves[..at])[k] == leaves[ys[k] - (|leaves| - 1)]
    {
      var from := if k < |ys| - at then k + at else k - (|ys| - at);
      assert ys[k] == leafIdxs[from];
    }
  }

  lemma EmptyOrdered(n: nat)
    requires n > 0
    ensures Ordered(n, [])
  {
  }

  lemma RotatedMembers(xs: seq<nat>, at: nat)
    requires at <= |xs|
    ensures forall x :: x in xs[at..] + xs[..at] <==> x in xs
  {
    assert xs == xs[..at] + xs[at..];
  }

  lemma RotationInOrder(n: nat, xs: seq<nat>, at: nat, split: int)
    requires n > 0 && Increasing(xs) && xs != [] && at <= |xs|
    requires forall x :: x in xs ==> IsLeaf(n, x)
    requires split == Pow2(GetLevelFromIdx(xs[|xs| - 1])) - 1
    requires forall k :: 0 <= k < at ==> xs[k] < split
    requires at < |xs| ==> xs[at] >= split
    ensures Ordered(n, xs[at..] + xs[..at])
  {
    RotationOrdered(n, xs, at);
  }

  lemma InOrderIsKnownBelow(n: nat, known: set<nat>, xs: seq<nat>)
    requires n > 0 && Leaves(n, known) && Ordered(n, xs)
    requires forall x :: x in xs <==> x in known
    ensures xs == KnownBelow(n, known, 0)
  {
    KnownBelowMembers(n, known, 0);
    KnownBelowOrdered(n, known, 0);
    forall x | x in known ensures Under(x, 0) { UnderRoot(x); }
    OrderedUnique(n, xs, KnownBelow(n, known, 0));
  }

  // --------------------------------------------------- what a proof consists of

  /** The leaves below `i` are split between the known ones and the subtrees of the proof nodes. */
  lemma {:induction false} ProofPartitions(n: nat, known: set<nat>, i: nat, x: nat)
    requires Leaves(n, known) && i < 2 * n - 1 && IsLeaf(n, x) && Under(x, i)
    ensures x in known <==> forall q :: q in ProofBelow(n, known, i) ==> !Under(x, q)
    ensures forall j, k :: 0 <= j < k < |ProofBelow(n, known, i)|
              ==> !(Under(x, ProofBelow(n, known, i)[j]) && Under(x, ProofBelow(n, known, i)[k]))
    decreases 2 * n - 1 - i
  {
    if i in known {
      LeafUnderIsSelf(n, x, i);
    } else if !Holds(known, i) || !IsInner(n, i) {
      if !IsInner(n, i) { LeafUnderIsSelf(n, x, i); }
      assert ProofBelow(n, known, i) == [i] && i in [i];
    } else {
      assert x != i;
      var l, r := 2 * i + 1, 2 * i + 2;
      UnderSon(x, i);
      ProofBelowInside(n, known, l);
      ProofBelowInside(n, known, r);
      if Under(x, l) {
        UnderOneSon(x, i);
        ProofPartitions(n, known, l, x);
        NotBelowOther(n, known, r, x);
      } else {
        ProofPartitions(n, known, r, x);
        NotBelowOther(n, known, l, x);
      }
      ConcatPartition(ProofBelow(n, known, l), ProofBelow(n, known, r), x);
    }
  }

  lemma ConcatPartition(a: seq<nat>, b: seq<nat>, x: nat)
    requires (forall q :: q in a ==> !Under(x, q)) || (forall q :: q in b ==> !Under(x, q))
    requires forall j, k :: 0 <= j < k < |a| ==> !(Under(x, a[j]) && Under(x, a[k]))
    requires forall j, k :: 0 <= j < k < |b| ==> !(Under(x, b[j]) && Under(x, b[k]))
    ensures forall j, k :: 0 <= j < k < |a + b| ==> !(Under(x, (a + b)[j]) && Under(x, (a + b)[k]))
  {
    hide Under;
    forall j, k | 0 <= j < k < |a + b| ensures !(Under(x, (a + b)[j]) && Under(x, (a + b)[k])) {
      if k < |a| {
        assert (a + b)[j] == a[j] && (a + b)[k] == a[k];
      } else if j >= |a| {
        assert (a + b)[j] == b[j - |a|] && (a + b)[k] == b[k - |a|];
      } else {
        assert (a + b)[j] in a && (a + b)[k] in b;
      }
    }
  }

  lemma {:induction false} UnderTrans(x: nat, q: nat, i: nat)
    requires Under(x, q) && Under(q, i)
    ensures Under(x, i)
    decreases x
  {
    if x != q {
      UnderTrans(Parent(x), q, i);
      UnderLevel(Parent(x), i);
    }
  }

  lemma {:induction false} ProofBelowInside(n: nat, known: set<nat>, i: nat)
    requires i < 2 * n - 1
    ensures forall q :: q in ProofBelow(n, known, i) ==> Under(q, i) && q < 2 * n - 1
    decreases 2 * n - 1 - i
  {
    if i !in known && Holds(known, i) && IsInner(n, i) {
      ProofBelowInside(n, known, 2 * i + 1);
      ProofBelowInside(n, known, 2 * i + 2);
      forall q | q in ProofBelow(n, known, i) ensures Under(q, i) {
        if Under(q, 2 * i + 1) {
          UnderTrans(q, 2 * i + 1, i);
        } else {
          UnderTrans(q, 2 * i + 2, i);
        }
      }
    }
  }

  lemma NotBelowOther(n: nat, known: set<nat>, i: nat, x: nat)
    requires i < 2 * n - 1 && !Under(x, i)
    ensures forall q :: q in ProofBelow(n, known, i) ==> !Under(x, q)
  {
    ProofBelowInside(n, known, i);
    forall q | q in ProofBelow(n, known, i) ensures !Under(x, q) {
      if Under(x, q) { UnderTrans(x, q, i); }
    }
  }

  lemma NoSiblingsAcross(left: seq<nat>, right: seq<nat>, i: nat, a: nat)
    requires forall q :: q in left ==> Under(q, 2 * i + 1)
    requires forall q :: q in right ==> Under(q, 2 * i + 2)
    requires !(2 * a + 1 in left && 2 * a + 2 in left) && !(2 * a + 1 in right && 2 * a + 2 in right)
    requires !(2 * i + 1 in left && 2 * i + 2 in right)
    ensures !(2 * a + 1 in left + right && 2 * a + 2 in left + right)
  {
    if 2 * a + 1 in left && 2 * a + 2 in right {
      UnderOneSon(2 * a + 1, i);
      SiblingsSameSide(a, i);
    } else if 2 * a + 2 in left && 2 * a + 1 in right {
      UnderOneSon(2 * a + 2, i);
      SiblingsSameSide(a, i);
    }
  }

  /** Two siblings never both occur in a proof: their parent would stand for them. */
  lemma {:induction false} NoSiblings(n: nat, known: set<nat>, i: nat, a: nat)
    requires Leaves(n, known) && i < 2 * n - 1 && Holds(known, i)
    ensures !(2 * a + 1 in ProofBelow(n, known, i) && 2 * a + 2 in ProofBelow(n, known, i))
    decreases 2 * n - 1 - i
  {
    if i !in known && IsInner(n, i) {
      var l, r := 2 * i + 1, 2 * i + 2;
      HoldsSons(n, known, i);
      ProofBelowInside(n, known, l);
      ProofBelowInside(n, known, r);
      if Holds(known, l) { NoSiblings(n, known, l, a); }
      if Holds(known, r) { NoSiblings(n, known, r, a); }
      ProofRootKnown(n, known, l);
      ProofRootKnown(n, known, r);
      NoSiblingsAcross(ProofBelow(n, known, l), ProofBelow(n, known, r), i, a);
    } else if i !in known {
      var x :| x in known && Under(x, i);
      LeafUnderIsSelf(n, x, i);
    }
  }

  /** A node occurs in its own proof list only if it holds no known leaf. */
  lemma ProofRootKnown(n: nat, known: set<nat>, i: nat)
    requires Leaves(n, known) && i < 2 * n - 1
    ensures Holds(known, i) ==> i !in ProofBelow(n, known, i)
    ensures !Holds(known, i) ==> ProofBelow(n, known, i) == [i]
  {
    assert Under(i, i);
    if Holds(known, i) && i !in known {
      if IsInner(n, i) {
        ProofBelowInside(n, known, 2 * i + 1);
        ProofBelowInside(n, known, 2 * i + 2);
        NotUnderSelf(i);
      } else {
        var x :| x in known && Under(x, i);
        LeafUnderIsSelf(n, x, i);
      }
    }
  }

  lemma NotUnderSelf(i: nat)
    ensures !Under(i, 2 * i + 1) && !Under(i, 2 * i + 2)
  {
  }

  /** Siblings on different sides of `i` are its two sons. */
  lemma SiblingsSameSide(a: nat, i: nat)
    requires Under(2 * a + 1, 2 * i + 1) || Under(2 * a + 1, 2 * i + 2)
    requires Under(2 * a + 2, 2 * i + 1) || Under(2 * a + 2, 2 * i + 2)
    ensures a != i ==> (Under(2 * a + 1, 2 * i + 1) <==> Under(2 * a + 2, 2 * i + 1))
    ensures a != i ==> (Under(2 * a + 1, 2 * i + 2) <==> Under(2 * a + 2, 2 * i + 2))
    ensures a == i ==> !Under(2 * a + 1, 2 * i + 2) && !Under(2 * a + 2, 2 * i + 1)
  {
    assert Parent(2 * a + 1) == a && Parent(2 * a + 2) == a;
  }
}
