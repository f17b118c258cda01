/** Heap-shaped binary trees of n leaves: node i has the sons 2i + 1 and 2i + 2, and the last n nodes are the leaves. */
module HeapTree {

  const INT32: int := 0x1_0000_0000
  const MAX_INT32: int := 0x7fff_ffff

  function Pow2(n: nat): (r: nat)
    ensures r > 0
  {
    if n == 0 then 1 else 2 * Pow2(n - 1)
  }

  function Log2(x: nat): nat
    requires x > 0
  {
    if x == 1 then 0 else 1 + Log2(x / 2)
  }

  /** The integer part of the binary logarithm. */
  lemma {:induction false} Log2Bounds(x: nat)
    requires x > 0
    ensures Pow2(Log2(x)) <= x < 2 * Pow2(Log2(x))
  {
    if x > 1 {
      Log2Bounds(x / 2);
    }
  }

  function GetLevelFromIdx(idx: nat): nat {
    Log2(idx + 1)
  }

  /** The number that remains of `x` as a signed 32-bit integer. */
  function ToInt32(x: int): int {
    (x + MAX_INT32 + 1) % INT32 - MAX_INT32 - 1
  }

  /** The signed right shift of 32-bit integers; only the low five bits of the count are used. */
  function ShiftRight(x: int, count: int): int {
    ToInt32(x) / Pow2(count % 32)
  }

  function GetAncestorIdx(from: nat, nLevels: int): int {
    ShiftRight(from + 1, nLevels) - 1
  }

  /** The test by which the traversal decides that `target` lies below `node`. */
  predicate IsAncestor(node: nat, target: nat) {
    node == GetAncestorIdx(target, GetLevelFromIdx(target) - GetLevelFromIdx(node))
  }

  function Parent(i: nat): nat
    requires i > 0
  {
    (i - 1) / 2
  }

  /** `target` is `node` or lies below it. */
  ghost predicate Under(target: nat, node: nat) {
    target == node || (target > node && Under(Parent(target), node))
  }

  lemma SmallModulo(x: nat, m: nat)
    requires x < m
    ensures x % m == x
  {
  }

  /** A count is taken from 0 to 31, so that a negative one shifts by what is missing to 32. */
  lemma ShiftWraps(x: int, count: int)
    ensures ShiftRight(x, count) == ShiftRight(x, count + 32)
    ensures -32 < count < 0 && 0 <= x <= MAX_INT32 ==> ShiftRight(x, count) == x / Pow2(count + 32)
  {
    assert (count + 32) % 32 == count % 32;
    if -32 < count < 0 && 0 <= x <= MAX_INT32 {
      ShiftIsDivision(x, count + 32);
    }
  }

  lemma ShiftIsDivision(x: nat, count: nat)
    requires x <= MAX_INT32 && count < 32
    ensures ShiftRight(x, count) == x / Pow2(count)
  {
    SmallModulo(x + MAX_INT32 + 1, INT32);
    SmallModulo(count, 32);
  }

  lemma {:induction false} Pow2Monotone(a: nat, b: nat)
    requires a <= b
    ensures Pow2(a) <= Pow2(b)
    decreases b
  {
    if a < b {
      Pow2Monotone(a, b - 1);
    }
  }

  lemma Pow2Of31()
    ensures Pow2(31) == MAX_INT32 + 1
  {
    assert Pow2(10) == 0x400;
    assert Pow2(20) == 0x10_0000;
    assert Pow2(30) == 0x4000_0000;
  }

  lemma LevelBound(idx: nat)
    requires idx < MAX_INT32
    ensures GetLevelFromIdx(idx) <= 30
  {
    Log2Bounds(idx + 1);
    Pow2Of31();
    if GetLevelFromIdx(idx) > 30 {
      Pow2Monotone(31, GetLevelFromIdx(idx));
    }
  }

  lemma ParentLevel(i: nat)
    requires i > 0
    ensures GetLevelFromIdx(i) == GetLevelFromIdx(Parent(i)) + 1
  {
    assert (i + 1) / 2 == Parent(i) + 1;
  }

  lemma HalfThenDivide(x: nat, m: nat)
    requires m > 0
    ensures (x / 2) / m == x / (2 * m)
  {
    var q := x / (2 * m);
    var r := x % (2 * m);
    assert x == q * (2 * m) + r;
    assert x / 2 == q * m + r / 2 by { assert q * (2 * m) == 2 * (q * m); }
    assert 0 <= r / 2 < m;
    QuotientUnique(x / 2, m, q, r / 2);
  }

  lemma {:induction false} MultiplyOrder(a: nat, b: nat, m: nat)
    ensures a <= b ==> a * m <= b * m
  {
    if a < b {
      MultiplyOrder(a, b - 1, m);
      assert b * m == (b - 1) * m + m;
    }
  }

  lemma QuotientUnique(x: nat, m: nat, q: nat, r: nat)
    requires m > 0 && x == q * m + r && r < m
    ensures x / m == q
  {
    var q' := x / m;
    assert q' * m <= x < q' * m + m;
    MultiplyOrder(q' + 1, q, m);
    MultiplyOrder(q + 1, q', m);
    assert (q' + 1) * m == q' * m + m && (q + 1) * m == q * m + m;
  }

  lemma {:induction false} UnderLevel(target: nat, node: nat)
    requires Under(target, node)
    ensures GetLevelFromIdx(node) <= GetLevelFromIdx(target)
    ensures target != node ==> GetLevelFromIdx(node) < GetLevelFromIdx(target)
    ensures node <= target
    decreases target
  {
    if target != node {
      UnderLevel(Parent(target), node);
      ParentLevel(target);
    }
  }

  lemma {:induction false} AncestorByDivision(target: nat, node: nat, d: nat)
    requires GetLevelFromIdx(target) == GetLevelFromIdx(node) + d
    ensures (target + 1) / Pow2(d) == node + 1 <==> Under(target, node)
    decreases d
  {
    if d == 0 {
      if Under(target, node) {
        UnderLevel(target, node);
      }
    } else {
      assert target > 0;
      ParentLevel(target);
      AncestorByDivision(Parent(target), node, d - 1);
      HalfThenDivide(target + 1, Pow2(d - 1));
      assert (target + 1) / 2 == Parent(target) + 1;
      if target <= node {
        LowerLevelFirst(target, node);
      }
    }
  }

  lemma {:induction false} Log2Monotone(a: nat, b: nat)
    requires 0 < a <= b
    ensures Log2(a) <= Log2(b)
  {
    if a > 1 {
      Log2Monotone(a / 2, b / 2);
    }
  }

  lemma LowerLevelFirst(a: nat, b: nat)
    requires a <= b
    ensures GetLevelFromIdx(a) <= GetLevelFromIdx(b)
  {
    Log2Monotone(a + 1, b + 1);
  }

  /** Whatever the count, even a negative one, the shift leaves nothing larger. */
  lemma ShiftShrinks(x: nat, count: int)
    requires x <= MAX_INT32
    ensures ShiftRight(x, count) <= x
  {
    SmallModulo(x + MAX_INT32 + 1, INT32);
    DivideShrinks(x, Pow2(count % 32));
  }

  /** The shift-based test is exact for every target whose number fits, also where the count is negative. */
  lemma IsAncestorExact(node: nat, target: nat)
    requires target < MAX_INT32
    ensures IsAncestor(node, target) <==> Under(target, node)
  {
    var lt: int, ln: int := GetLevelFromIdx(target), GetLevelFromIdx(node);
    hide ShiftRight, GetLevelFromIdx, Pow2;
    if node <= target {
      LevelBound(target);
      LowerLevelFirst(node, target);
      ShiftIsDivision(target + 1, lt - ln);
      AncestorByDivision(target, node, lt - ln);
      assert ShiftRight(target + 1, lt - ln) == (target + 1) / Pow2(lt - ln);
    } else {
      ShiftShrinks(target + 1, lt - ln);
      if Under(target, node) { UnderLevel(target, node); }
    }
  }

  lemma Level31(x: nat)
    requires MAX_INT32 < x < INT32
    ensures Log2(x) == 31
  {
    Log2Bounds(x);
    Pow2Of31();
    var l := Log2(x);
    hide Log2;
    if l < 31 {
      Pow2Monotone(l, 30);
    } else if l > 31 {
      Pow2Monotone(32, l);
    }
  }

  /** The shifted number is negative, so a larger target is not found below the root. */
  lemma RootMisses(target: nat)
    requires MAX_INT32 <= target < INT32 - 1
    ensures !IsAncestor(0, target)
  {
    Level31(target + 1);
    WrappedNegative(target + 1);
    LevelOfRoot();
    hide Log2, ShiftRight, Pow2;
    LevelIsLog(target);
    hide GetLevelFromIdx;
    assert GetAncestorIdx(target, 31) == -2;
  }

  lemma LevelOfRoot()
    ensures GetLevelFromIdx(0) == 0
  {
  }

  lemma LevelIsLog(i: nat)
    ensures GetLevelFromIdx(i) == Log2(i + 1)
  {
  }

  lemma WrappedNegative(x: nat)
    requires MAX_INT32 < x < INT32
    ensures ShiftRight(x, 31) == -1
  {
    Pow2Of31();
    SmallModulo(x + MAX_INT32 + 1 - INT32, INT32);
    assert ToInt32(x) == x - INT32;
  }

  /** The test is right about a target at every node exactly if the number of the target is below 2^31 - 1. */
  lemma AncestorTestWorksIff(target: nat)
    requires target < INT32 - 1
    ensures (forall node: nat :: IsAncestor(node, target) <==> Under(target, node)) <==> target < MAX_INT32
  {
    if target < MAX_INT32 {
      forall node: nat ensures IsAncestor(node, target) <==> Under(target, node) {
        IsAncestorExact(node, target);
      }
    } else {
      RootMisses(target);
      UnderRoot(target);
    }
  }

  lemma DivideShrinks(x: nat, m: nat)
    requires m > 0
    ensures x / m <= x
  {
    var q := x / m;
    assert q * m <= x;
    MultiplyOrder(1, m, q);
    assert 1 * q == q && m * q == q * m;
  }

  lemma {:induction false} UnderRoot(target: nat)
    ensures Under(target, 0)
  {
    if target > 0 {
      UnderRoot(Parent(target));
    }
  }

  /** What lies below a node lies below one of its sons. */
  lemma {:induction false} UnderSon(target: nat, node: nat)
    requires target != node
    ensures Under(target, node) <==> Under(target, 2 * node + 1) || Under(target, 2 * node + 2)
    decreases target
  {
    if target > node {
      if Parent(target) == node {
        assert target == 2 * node + 1 || target == 2 * node + 2;
      } else {
        UnderSon(Parent(target), node);
        if Under(target, 2 * node + 1) { UnderLevel(target, 2 * node + 1); }
        if Under(target, 2 * node + 2) { UnderLevel(target, 2 * node + 2); }
      }
    } else {
      assert target < 2 * node + 1;
    }
  }

  lemma {:induction false} UnderOneSon(target: nat, node: nat)
    requires Under(target, 2 * node + 1)
    ensures !Under(target, 2 * node + 2)
    decreases target
  {
    if target > 2 * node + 2 {
      UnderOneSon(Parent(target), node);
    }
  }
}
