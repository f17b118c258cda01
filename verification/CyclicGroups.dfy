/** Grouping and ordering of the cycles of a lookup graph. */
module CyclicGroups {
  import opened Basics
  import opened LookupGraphs
  import opened Tarjan

  // ------------------------------------------------ merging overlapping cycles

  predicate Overlap(a: set<int>, b: set<int>) {
    |a + b| != |a| + |b|
  }

  lemma OverlapMeansShared(a: set<int>, b: set<int>)
    ensures Overlap(a, b) <==> exists x :: x in a && x in b
  {
    assert |a + b| == |a| + |b - a| by { assert a + b == a + (b - a); DisjointSize(a, b - a); }
    assert |b| == |b - a| + |a * b| by { assert b == (b - a) + (a * b); DisjointSize(b - a, a * b); }
    assert |a * b| == 0 <==> a * b == {};
    if exists x :: x in a && x in b {
      var x :| x in a && x in b;
      assert x in a * b;
    } else {
      assert a * b == {};
    }
  }

  lemma DisjointSize(a: set<int>, b: set<int>)
    requires a !! b
    ensures |a + b| == |a| + |b|
  {
  }

  /** The indices of the cycles, linked where two cycles share a node. */
  function OverlapGraph(cycles: seq<set<int>>): (g: LookupGraph) {
    LookupGraph(seq(|cycles|, i => i),
                map i: int | 0 <= i < |cycles| :: Node(Overlapping(cycles, i, |cycles|), []))
  }

  function Overlapping(cycles: seq<set<int>>, i: int, n: nat): (r: seq<int>)
    requires 0 <= i < |cycles| && n <= |cycles|
    ensures forall j :: j in r <==> 0 <= j < n && j != i && Overlap(cycles[i], cycles[j])
  {
    if n == 0 then []
    else
      var rest := Overlapping(cycles, i, n - 1);
      if n - 1 != i && Overlap(cycles[i], cycles[n - 1]) then rest + [n - 1] else rest
  }

  ghost function UnionOf(cycles: seq<set<int>>, idxs: set<int>): set<int>
    requires forall i :: i in idxs ==> 0 <= i < |cycles|
  {
    set i, x | i in idxs && x in cycles[i] :: x
  }

  /** `class` holds exactly the cycles connected to cycle `rep` through shared nodes. */
  ghost predicate IsOverlapClass(cycles: seq<set<int>>, class_: set<int>, rep: int) {
    forall j :: j in class_ <==> 0 <= j < |cycles| && Reaches(OverlapGraph(cycles), rep, j)
  }

  /** `groups[k]` is the union of the overlap class of `reps[k]`, and `reps` lists the classes by smallest member. */
  ghost predicate MergesClasses(cycles: seq<set<int>>, groups: seq<set<int>>, classes: seq<set<int>>, reps: seq<int>) {
    && |groups| == |classes| == |reps|
    && (forall k :: 0 <= k < |groups| ==>
          && reps[k] in classes[k]
          && (forall i :: i in classes[k] ==> reps[k] <= i < |cycles|)
          && 0 <= reps[k]
          && IsOverlapClass(cycles, classes[k], reps[k])
          && groups[k] == UnionOf(cycles, classes[k]))
    && (forall k, l :: 0 <= k < l < |reps| ==> reps[k] < reps[l] && classes[k] !! classes[l])
  }

  ghost predicate CoversAll(cycles: seq<set<int>>, classes: seq<set<int>>, from: set<int>) {
    forall i :: 0 <= i < |cycles| ==> (i in from || exists k :: 0 <= k < |classes| && i in classes[k])
  }

  lemma OverlapOrder(cycles: seq<set<int>>)
    ensures forall i :: i in OverlapGraph(cycles).order <==> 0 <= i < |cycles|
  {
    var order := OverlapGraph(cycles).order;
    forall i | 0 <= i < |cycles| ensures i in order {
      assert order[i] == i;
    }
  }

  lemma OverlapEdges(cycles: seq<set<int>>, i: int, j: int)
    requires 0 <= i < |cycles|
    ensures j in OverlapGraph(cycles).Refs(i) <==> 0 <= j < |cycles| && j != i && Overlap(cycles[i], cycles[j])
  {
    var g := OverlapGraph(cycles);
    assert g.Refs(i) == Overlapping(cycles, i, |cycles|);
  }

  lemma OverlapSymmetric(cycles: seq<set<int>>, i: int, j: int)
    requires 0 <= i < |cycles| && j in OverlapGraph(cycles).Refs(i)
    ensures 0 <= j < |cycles| && i in OverlapGraph(cycles).Refs(j)
  {
    OverlapEdges(cycles, i, j);
    OverlapMeansShared(cycles[i], cycles[j]);
    OverlapMeansShared(cycles[j], cycles[i]);
    OverlapEdges(cycles, j, i);
  }

  lemma {:induction false} SmallestExists(s: set<int>) returns (m: int)
    requires |s| != 0
    ensures m in s && forall x :: x in s ==> m <= x
  {
    m := SomeElement(s);
    var rest := s - {m};
    if |rest| != 0 {
      var m' := SmallestExists(rest);
      if m' < m { m := m'; }
    }
    forall x | x in s ensures m <= x { if x !in rest {} }
  }

  /** No overlap edge joins `s` to the other cycles. */
  ghost predicate Separated(cycles: seq<set<int>>, s: set<int>) {
    forall i, j :: i in s && j in OverlapGraph(cycles).Refs(i) ==> j in s
  }

  /** The part of an overlap class collected so far, with the indices still to look at. */
  ghost predicate Collecting(cycles: seq<set<int>>, class_: set<int>, seed: int, toVisit: seq<int>,
                             ungrouped: set<int>) {
    && (forall i :: i in class_ ==> 0 <= i < |cycles| && Reaches(OverlapGraph(cycles), seed, i))
    && (forall i :: i in toVisit ==> 0 <= i < |cycles| && Reaches(OverlapGraph(cycles), seed, i))
    && (forall i, j :: i in class_ && j in OverlapGraph(cycles).Refs(i) ==> j in toVisit || j !in ungrouped)
    && (seed in class_ || seed in toVisit)
  }

  lemma CollectSkip(cycles: seq<set<int>>, class_: set<int>, seed: int, rest: seq<int>, idx: int, ungrouped: set<int>)
    requires Collecting(cycles, class_, seed, rest + [idx], ungrouped)
    requires idx !in ungrouped && (idx == seed ==> seed in class_)
    ensures Collecting(cycles, class_, seed, rest, ungrouped)
  {
    hide Reaches, OverlapGraph;
    assert forall j :: j in rest + [idx] <==> j == idx || j in rest;
  }

  lemma CollectTake(cycles: seq<set<int>>, class_: set<int>, seed: int, rest: seq<int>, idx: int, ungrouped: set<int>)
    requires Collecting(cycles, class_, seed, rest + [idx], ungrouped)
    requires 0 <= idx < |cycles|
    ensures Collecting(cycles, class_ + {idx}, seed, rest + OverlapGraph(cycles).Refs(idx), ungrouped - {idx})
  {
    var g := OverlapGraph(cycles);
    hide Reaches, OverlapGraph;
    assert idx in rest + [idx];
    assert forall j :: j in rest + [idx] <==> j == idx || j in rest;
    forall j | j in g.Refs(idx) ensures 0 <= j < |cycles| && Reaches(g, seed, j) {
      OverlapSymmetric(cycles, idx, j);
      ReachesEdge(g, idx, j);
      ReachesTrans(g, seed, idx, j);
    }
  }

  lemma CollectedAll(cycles: seq<set<int>>, class_: set<int>, seed: int, ungrouped0: set<int>)
    requires Collecting(cycles, class_, seed, [], ungrouped0 - class_)
    requires Separated(cycles, ungrouped0) && class_ <= ungrouped0
    ensures IsOverlapClass(cycles, class_, seed)
    ensures Separated(cycles, ungrouped0 - class_)
  {
    var g := OverlapGraph(cycles);
    hide Reaches, OverlapGraph;
    assert Separated(cycles, class_) by {
      forall i, j | i in class_ && j in g.Refs(i) ensures j in class_ {
        assert j in ungrouped0 && j !in ungrouped0 - class_;
      }
    }
    forall j | Reaches(g, seed, j) ensures j in class_ {
      if j !in class_ {
        var a, b := ReachesCrossesBorder(g, class_, seed, j);
        assert false;
      }
    }
    forall i, j | i in ungrouped0 - class_ && j in g.Refs(i) ensures j in ungrouped0 - class_ {
      if j in class_ {
        ReachesSelf(g, seed);
        RefsInRange(cycles, i, j);
        OverlapSymmetric(cycles, i, j);
      }
    }
  }

  lemma RefsInRange(cycles: seq<set<int>>, i: int, j: int)
    requires j in OverlapGraph(cycles).Refs(i)
    ensures 0 <= i < |cycles|
  {
  }

  lemma AddClass(cycles: seq<set<int>>, groups: seq<set<int>>, classes: seq<set<int>>, reps: seq<int>,
                 group: set<int>, class_: set<int>, first: int, ungrouped: set<int>)
    requires MergesClasses(cycles, groups, classes, reps) && CoversAll(cycles, classes, ungrouped)
    requires forall k, i :: 0 <= k < |classes| && i in classes[k] ==> i !in ungrouped
    requires forall k :: 0 <= k < |reps| ==> reps[k] < first
    requires first in class_ && class_ <= ungrouped && IsOverlapClass(cycles, class_, first)
    requires forall i :: i in ungrouped ==> 0 <= first <= i < |cycles|
    requires group == UnionOf(cycles, class_)
    ensures MergesClasses(cycles, groups + [group], classes + [class_], reps + [first])
    ensures CoversAll(cycles, classes + [class_], ungrouped - class_)
  {
    hide IsOverlapClass;
    var groups', classes', reps' := groups + [group], classes + [class_], reps + [first];
    forall k | 0 <= k < |groups'|
      ensures reps'[k] in classes'[k] && 0 <= reps'[k] && IsOverlapClass(cycles, classes'[k], reps'[k])
      ensures forall i :: i in classes'[k] ==> reps'[k] <= i < |cycles|
      ensures groups'[k] == UnionOf(cycles, classes'[k])
    {
      if k < |groups| {
        assert reps[k] in classes[k] && groups[k] == UnionOf(cycles, classes[k]);
      }
    }
    forall i | 0 <= i < |cycles|
      ensures i in ungrouped - class_ || exists k :: 0 <= k < |classes'| && i in classes'[k]
    {
      if i in class_ {
        assert i in classes'[|classes|];
      } else if i !in ungrouped {
        var k :| 0 <= k < |classes| && i in classes[k];
        assert i in classes'[k];
      }
    }
  }

  /** Merges the cycles that share nodes, directly or through other cycles. */
  method MergeSCCsWithCommonNodes(cycles: seq<set<int>>)
    returns (groups: seq<set<int>>, ghost classes: seq<set<int>>, ghost reps: seq<int>)
    ensures MergesClasses(cycles, groups, classes, reps)
    ensures CoversAll(cycles, classes, {})
    ensures Disjoint(cycles) ==> groups == cycles
  {
    ghost var g := OverlapGraph(cycles);
    var edges := OverlapGraph(cycles);
    var ungrouped := set i | i in edges.order;
    assert forall i :: i in ungrouped <==> 0 <= i < |cycles| by {
      OverlapOrder(cycles);
    }
    groups, classes, reps := [], [], [];
    assert MergesClasses(cycles, groups, classes, reps) && CoversAll(cycles, classes, ungrouped);
    hide Reaches, OverlapGraph, MergesClasses, CoversAll, Disjoint;
    assert Separated(cycles, ungrouped) by {
      forall i, j | i in ungrouped && j in g.Refs(i) ensures j in ungrouped { OverlapSymmetric(cycles, i, j); }
    }
    while |ungrouped| != 0
      invariant forall i :: i in ungrouped ==> 0 <= i < |cycles|
      invariant forall k, i :: 0 <= k < |classes| && i in classes[k] ==> i !in ungrouped
      invariant forall i, k :: i in ungrouped && 0 <= k < |reps| ==> reps[k] < i
      invariant Separated(cycles, ungrouped)
      invariant MergesClasses(cycles, groups, classes, reps)
      invariant CoversAll(cycles, classes, ungrouped)
      decreases |ungrouped|
    {
      ghost var _ := SmallestExists(ungrouped);
      var first :| first in ungrouped && forall x :: x in ungrouped ==> first <= x;
      var group, rest;
      ghost var class_;
      group, rest, class_ := CollectGroup(cycles, edges, first, ungrouped);
      AddClass(cycles, groups, classes, reps, group, class_, first, ungrouped);
      groups, classes, reps := groups + [group], classes + [class_], reps + [first];
      ungrouped := rest;
    }
    assert ungrouped == {};
    if Disjoint(cycles) {
      MergeOfDisjoint(cycles, groups, classes, reps);
    }
  }

  lemma UnionGrows(cycles: seq<set<int>>, idxs: set<int>, i: int)
    requires forall k :: k in idxs + {i} ==> 0 <= k < |cycles|
    ensures UnionOf(cycles, idxs + {i}) == UnionOf(cycles, idxs) + cycles[i]
  {
    forall x | x in UnionOf(cycles, idxs) + cycles[i] ensures x in UnionOf(cycles, idxs + {i}) {
      if x in cycles[i] {
        assert i in idxs + {i};
      } else {
        var k :| k in idxs && x in cycles[k];
        assert k in idxs + {i};
      }
    }
  }

  method CollectGroup(cycles: seq<set<int>>, edges: LookupGraph, first: int, ungrouped: set<int>)
    returns (group: set<int>, rest: set<int>, ghost class_: set<int>)
    requires edges == OverlapGraph(cycles)
    requires first in ungrouped && Separated(cycles, ungrouped)
    requires forall i :: i in ungrouped ==> 0 <= i < |cycles|
    ensures class_ <= ungrouped && rest == ungrouped - class_ && |rest| < |ungrouped|
    ensures first in class_ && IsOverlapClass(cycles, class_, first)
    ensures group == UnionOf(cycles, class_)
    ensures Separated(cycles, rest)
  {
    group, rest, class_ := {}, ungrouped, {};
    var toVisit := [first];
    ReachesSelf(edges, first);
    hide Reaches, OverlapGraph;
    while toVisit != []
      invariant class_ <= ungrouped && rest == ungrouped - class_
      invariant group == UnionOf(cycles, class_)
      invariant Collecting(cycles, class_, first, toVisit, rest)
      decreases |rest|, |toVisit|
    {
      var idx := toVisit[|toVisit| - 1];
      assert idx in toVisit;
      assert toVisit == toVisit[..|toVisit| - 1] + [idx];
      toVisit := toVisit[..|toVisit| - 1];
      if idx !in rest {
        CollectSkip(cycles, class_, first, toVisit, idx, rest);
        continue;
      }
      CollectTake(cycles, class_, first, toVisit, idx, rest);
      UnionGrows(cycles, class_, idx);
      rest, class_ := rest - {idx}, class_ + {idx};
      group := group + cycles[idx];
      toVisit := toVisit + edges.Refs(idx);
    }
    CollectedAll(cycles, class_, first, ungrouped);
    assert first in ungrouped && first !in rest;
    assert rest < ungrouped;
    SubsetIsSmaller(rest, ungrouped);
  }

  lemma SingletonClass(cycles: seq<set<int>>, class_: set<int>, rep: int)
    requires Disjoint(cycles) && IsOverlapClass(cycles, class_, rep) && 0 <= rep < |cycles|
    ensures class_ == {rep}
  {
    var g := OverlapGraph(cycles);
    hide Reaches;
    ReachesSelf(g, rep);
    forall j | j in class_ ensures j == rep {
      if j != rep {
        var a, b := ReachesCrossesBorder(g, {rep}, rep, j);
        OverlapEdges(cycles, rep, b);
        OverlapMeansShared(cycles[rep], cycles[b]);
        assert false;
      }
    }
  }

  /** Cycles that share no node are left alone, in order. */
  lemma MergeOfDisjoint(cycles: seq<set<int>>, groups: seq<set<int>>, classes: seq<set<int>>, reps: seq<int>)
    requires Disjoint(cycles)
    requires MergesClasses(cycles, groups, classes, reps) && CoversAll(cycles, classes, {})
    ensures groups == cycles
  {
    hide IsOverlapClass, Disjoint;
    forall k | 0 <= k < |groups| ensures classes[k] == {reps[k]} && groups[k] == cycles[reps[k]] {
      SingletonClass(cycles, classes[k], reps[k]);
      UnionGrows(cycles, {}, reps[k]);
      assert {} + {reps[k]} == {reps[k]};
    }
    forall i | 0 <= i < |cycles| ensures i in reps {
      var k :| 0 <= k < |classes| && i in classes[k];
    }
    RepsCountUp(|cycles|, reps);
  }

  lemma {:induction false} AtLeastItsIndex(reps: seq<int>, k: nat)
    requires forall i, j :: 0 <= i < j < |reps| ==> reps[i] < reps[j]
    requires k < |reps| && 0 <= reps[0]
    ensures k <= reps[k]
  {
    if k > 0 {
      AtLeastItsIndex(reps, k - 1);
    }
  }

  lemma {:induction false} IsItsIndex(n: nat, reps: seq<int>, k: nat)
    requires forall i, j :: 0 <= i < j < |reps| ==> reps[i] < reps[j]
    requires forall i :: 0 <= i < n ==> i in reps
    requires |reps| > 0 ==> 0 <= reps[0]
    requires k < n
    ensures k < |reps| && reps[k] == k
  {
    assert k in reps;
    var j :| 0 <= j < |reps| && reps[j] == k;
    if k > 0 {
      IsItsIndex(n, reps, k - 1);
    }
    AtLeastItsIndex(reps, k);
  }

  lemma RepsCountUp(n: nat, reps: seq<int>)
    requires forall i, j :: 0 <= i < j < |reps| ==> reps[i] < reps[j]
    requires forall i :: 0 <= i < |reps| ==> 0 <= reps[i] < n
    requires forall i :: 0 <= i < n ==> i in reps
    ensures |reps| == n && forall k :: 0 <= k < n ==> reps[k] == k
  {
    if |reps| > 0 {
      AtLeastItsIndex(reps, |reps| - 1);
    }
    forall k | 0 <= k < n ensures k < |reps| && reps[k] == k {
      IsItsIndex(n, reps, k);
    }
    if n > 0 {
      IsItsIndex(n, reps, n - 1);
    }
  }

  // -------------------------------------------------- ordering cyclic groups

  /** Some node of `b` can be reached from some node of `a`. */
  ghost predicate GroupReaches(g: LookupGraph, a: set<int>, b: set<int>) {
    exists x, y :: x in a && y in b && Reaches(g, x, y)
  }

  method SetToSeq(s: set<int>) returns (r: seq<int>)
    ensures forall x :: x in r <==> x in s
  {
    var rest := s;
    r := [];
    while |rest| != 0
      invariant forall x :: x in s <==> x in r || x in rest
    {
      ghost var _ := SomeElement(rest);
      var x :| x in rest;
      r, rest := r + [x], rest - {x};
    }
  }

  ghost predicate FromGroup(g: LookupGraph, group: set<int>, y: int) {
    exists x :: x in group && Reaches(g, x, y)
  }

  /** The nodes visited so far and those still to visit, when walking from `group`. */
  ghost predicate Walking(g: LookupGraph, group: set<int>, seen: set<int>, toVisit: seq<int>) {
    && (forall y :: y in seen || y in toVisit ==> FromGroup(g, group, y))
    && (forall x, w :: x in seen && w in g.Refs(x) ==> w in seen || w in toVisit)
    && (forall x :: x in group ==> x in seen || x in toVisit)
  }

  lemma WalkOn(g: LookupGraph, group: set<int>, seen: set<int>, rest: seq<int>, id: int)
    requires Walking(g, group, seen, rest + [id])
    ensures id in seen ==> Walking(g, group, seen, rest)
    ensures Walking(g, group, seen + {id}, rest + g.Refs(id))
  {
    hide Reaches;
    assert id in rest + [id] && forall j :: j in rest + [id] <==> j == id || j in rest;
    var x :| x in group && Reaches(g, x, id);
    forall w | w in g.Refs(id) ensures FromGroup(g, group, w) {
      ReachesEdge(g, id, w);
      ReachesTrans(g, x, id, w);
    }
    hide FromGroup;
  }

  lemma WalkEnds(g: LookupGraph, group: set<int>, seen: set<int>)
    requires Walking(g, group, seen, [])
    ensures forall y :: y in seen <==> FromGroup(g, group, y)
  {
    hide Reaches;
    forall y | FromGroup(g, group, y) ensures y in seen {
      var x :| x in group && Reaches(g, x, y);
      if y !in seen {
        var a, b := ReachesCrossesBorder(g, seen, x, y);
        assert false;
      }
    }
  }

  lemma WalkStarts(g: LookupGraph, group: set<int>, toVisit: seq<int>)
    requires forall x :: x in toVisit <==> x in group
    ensures Walking(g, group, {}, toVisit)
  {
    forall x | x in group ensures FromGroup(g, group, x) { ReachesSelf(g, x); }
  }

  /** All nodes that can be reached from the nodes of `group`. */
  method GetReachableNodes(g: LookupGraph, group: set<int>) returns (result: set<int>)
    requires g.Valid()
    ensures forall y :: y in result <==> FromGroup(g, group, y)
  {
    result := {};
    var toVisit := SetToSeq(group);
    WalkStarts(g, group, toVisit);
    hide FromGroup, Walking;
    while toVisit != []
      invariant Walking(g, group, result, toVisit)
      invariant forall y :: y in toVisit ==> y in group || y in g.nodes
      invariant result <= group + g.nodes.Keys
      decreases group + g.nodes.Keys - result, |toVisit|
    {
      var id := toVisit[|toVisit| - 1];
      assert id in toVisit;
      assert toVisit == toVisit[..|toVisit| - 1] + [id];
      toVisit := toVisit[..|toVisit| - 1];
      WalkOn(g, group, result, toVisit, id);
      if id in result {
        continue;
      }
      assert id in group + g.nodes.Keys - result;
      result := result + {id};
      toVisit := toVisit + g.Refs(id);
    }
    WalkEnds(g, group, result);
  }

  /** Every group is listed once at most, after all the other groups it can reach. */
  ghost predicate Placed(g: LookupGraph, groups: seq<set<int>>, order: seq<nat>) {
    && (forall k :: 0 <= k < |order| ==> order[k] < |groups|)
    && (forall k, l :: 0 <= k < l < |order| ==> order[k] != order[l])
    && (forall k, j ::
          0 <= k < |order| && 0 <= j < |groups| && j != order[k] && GroupReaches(g, groups[order[k]], groups[j]) ==>
            j in order[..k])
  }

  /** The groups that group `i` can reach. */
  ghost function Below(g: LookupGraph, groups: seq<set<int>>, i: nat): set<int>
    requires i < |groups|
  {
    set j | 0 <= j < |groups| && GroupReaches(g, groups[i], groups[j])
  }

  ghost predicate DistinctComponents(g: LookupGraph, groups: seq<set<int>>) {
    AllComponents(g, groups) && Disjoint(groups)
  }

  lemma GroupReachesTrans(g: LookupGraph, a: set<int>, b: set<int>, c: set<int>)
    requires IsComponent(g, b) && GroupReaches(g, a, b) && GroupReaches(g, b, c)
    ensures GroupReaches(g, a, c)
  {
    hide Reaches;
    var x, y :| x in a && y in b && Reaches(g, x, y);
    var y', z :| y' in b && z in c && Reaches(g, y', z);
    assert Mutual(g, y, y');
    ReachesTrans(g, x, y, y');
    ReachesTrans(g, x, y', z);
  }

  lemma MutualGroupsMeet(g: LookupGraph, a: set<int>, b: set<int>)
    requires g.Valid() && IsComponent(g, a) && IsComponent(g, b)
    requires GroupReaches(g, a, b) && GroupReaches(g, b, a)
    ensures exists x :: x in a && x in b
  {
    hide Reaches;
    var x, y :| x in a && y in b && Reaches(g, x, y);
    var y', x' :| y' in b && x' in a && Reaches(g, y', x');
    assert Mutual(g, y, y') && Mutual(g, x', x);
    ReachesTrans(g, y, y', x');
    ReachesTrans(g, y, x', x);
    assert y in a;
  }

  /** A group reaches strictly fewer groups than one it is reached from. */
  lemma BelowShrinks(g: LookupGraph, groups: seq<set<int>>, i: nat, d: nat)
    requires g.Valid() && DistinctComponents(g, groups)
    requires i < |groups| && d < |groups| && d != i && GroupReaches(g, groups[i], groups[d])
    ensures Below(g, groups, d) < Below(g, groups, i)
  {
    assert IsComponent(g, groups[i]) && IsComponent(g, groups[d]);
    assert groups[i] !! groups[d];
    hide Reaches, GroupReaches, IsComponent, Disjoint, AllComponents;
    forall j | j in Below(g, groups, d) ensures j in Below(g, groups, i) {
      GroupReachesTrans(g, groups[i], groups[d], groups[j]);
    }
    assert i in Below(g, groups, i) by { ReachesItself(g, groups[i]); }
    if i in Below(g, groups, d) {
      MutualGroupsMeet(g, groups[i], groups[d]);
      assert false;
    }
  }

  lemma ReachesItself(g: LookupGraph, c: set<int>)
    requires IsComponent(g, c)
    ensures GroupReaches(g, c, c)
  {
    assert |c| != 0;
    var x := SomeElement(c);
    ReachesSelf(g, x);
  }

  /** The closure state of the recursive ordering: the groups placed so far. */
  class GroupSorter {
    const g: LookupGraph
    const groups: seq<set<int>>
    var result: seq<nat>

    constructor (g: LookupGraph, groups: seq<set<int>>)
      ensures this.g == g && this.groups == groups && result == []
    {
      this.g, this.groups, result := g, groups, [];
    }

    /** The other groups that group `i` can reach. */
    method Dependents(i: nat) returns (dependents: seq<nat>)
      requires g.Valid() && i < |groups|
      ensures forall d: nat :: d in dependents <==> d < |groups| && d != i && GroupReaches(g, groups[i], groups[d])
    {
      dependents := [];
      for j := 0 to |groups|
        invariant forall d: nat :: d in dependents <==> d < j && d != i && GroupReaches(g, groups[i], groups[d])
      {
        var reachable := GetReachableNodes(g, groups[i]);
        assert |reachable * groups[j]| != 0 <==> GroupReaches(g, groups[i], groups[j]) by {
          SharedNode(g, groups[i], groups[j], reachable);
        }
        if j != i && |reachable * groups[j]| != 0 {
          dependents := dependents + [j];
        }
      }
    }

    /** Places group `i` after everything it can reach. */
    method DependentsFirst(i: nat)
      requires g.Valid() && DistinctComponents(g, groups)
      requires i < |groups| && Placed(g, groups, result)
      modifies this
      ensures Placed(g, groups, result) && old(result) <= result && i in result
      decreases Below(g, groups, i)
    {
      if i in result {
        return;
      }
      var dependents := Dependents(i);
      hide DistinctComponents, Placed, GroupReaches;
      for k := 0 to |dependents|
        invariant Placed(g, groups, result) && old(result) <= result
        invariant forall l :: 0 <= l < k ==> dependents[l] in result
      {
        assert dependents[k] in dependents;
        BelowShrinks(g, groups, i, dependents[k]);
        ghost var before := result;
        DependentsFirst(dependents[k]);
        assert forall x :: x in before ==> x in result;
      }
      if i in result {
        return;
      }
      PlaceNext(g, groups, result, i, dependents);
      result := result + [i];
    }
  }

  lemma SharedNode(g: LookupGraph, a: set<int>, b: set<int>, reachable: set<int>)
    requires forall y :: y in reachable <==> FromGroup(g, a, y)
    ensures |reachable * b| != 0 <==> GroupReaches(g, a, b)
  {
    hide Reaches;
    if |reachable * b| != 0 {
      var y := SomeElement(reachable * b);
      assert FromGroup(g, a, y);
    }
    if GroupReaches(g, a, b) {
      var x, y :| x in a && y in b && Reaches(g, x, y);
      assert FromGroup(g, a, y);
      assert y in reachable * b;
    }
  }

  lemma PlaceNext(g: LookupGraph, groups: seq<set<int>>, order: seq<nat>, i: nat, dependents: seq<nat>)
    requires Placed(g, groups, order) && i < |groups| && i !in order
    requires forall d: nat :: d in dependents <==> d < |groups| && d != i && GroupReaches(g, groups[i], groups[d])
    requires forall l :: 0 <= l < |dependents| ==> dependents[l] in order
    ensures Placed(g, groups, order + [i])
  {
    hide GroupReaches;
    var order' := order + [i];
    forall k, j |
      0 <= k < |order'| && 0 <= j < |groups| && j != order'[k] && GroupReaches(g, groups[order'[k]], groups[j])
      ensures j in order'[..k]
    {
      if k < |order| {
        assert order'[..k] == order[..k];
      } else {
        assert order'[..k] == order;
        assert j in dependents;
      }
    }
  }

  ghost predicate IsOrdering(n: nat, order: seq<nat>) {
    && (forall k, l :: 0 <= k < l < |order| ==> order[k] != order[l])
    && (forall i: nat :: i in order <==> i < n)
  }

  /** No group reaches a later one. */
  ghost predicate ReachedFirst(g: LookupGraph, sorted: seq<set<int>>) {
    forall k, l :: 0 <= k < l < |sorted| ==> !GroupReaches(g, sorted[k], sorted[l])
  }

  /** What the order of the indices means for the groups. */
  lemma OrderedGroups(g: LookupGraph, groups: seq<set<int>>, order: seq<nat>, sorted: seq<set<int>>)
    requires DistinctComponents(g, groups) && IsOrdering(|groups|, order) && Placed(g, groups, order)
    requires |sorted| == |order|
    requires forall k :: 0 <= k < |order| ==> order[k] < |groups| && sorted[k] == groups[order[k]]
    ensures DistinctComponents(g, sorted) && (forall c :: c in sorted <==> c in groups) && ReachedFirst(g, sorted)
  {
    hide GroupReaches, IsComponent;
    forall k, l | 0 <= k < l < |sorted| ensures !GroupReaches(g, sorted[k], sorted[l]) {
      assert order[l] !in order[..k];
    }
    forall i: nat | i < |groups| ensures groups[i] in sorted {
      assert i in order;
      var k :| 0 <= k < |order| && order[k] == i;
      assert sorted[k] == groups[i];
    }
  }

  /** A rearrangement of the groups in which each comes after every other group it can reach. */
  method SortCyclicGroups(g: LookupGraph, groups: seq<set<int>>) returns (sorted: seq<set<int>>)
    requires g.Valid() && DistinctComponents(g, groups)
    ensures DistinctComponents(g, sorted) && (forall c :: c in sorted <==> c in groups)
    ensures ReachedFirst(g, sorted)
  {
    var sorter := new GroupSorter(g, groups);
    hide GroupReaches, DistinctComponents;
    for i := 0 to |groups|
      invariant sorter.g == g && sorter.groups == groups
      invariant Placed(g, groups, sorter.result)
      invariant forall j: nat :: j < i ==> j in sorter.result
    {
      ghost var before := sorter.result;
      sorter.DependentsFirst(i);
      assert forall x :: x in before ==> x in sorter.result;
    }
    sorted := [];
    var placed := sorter.result;
    for k := 0 to |placed|
      invariant |sorted| == k && forall l :: 0 <= l < k ==> sorted[l] == groups[placed[l]]
    {
      sorted := sorted + [groups[placed[k]]];
    }
    OrderedGroups(g, groups, placed, sorted);
  }

  // ------------------------------------------------------------- the pipeline

  /** A single node that refers to itself. */
  predicate IsSelfCircular(g: LookupGraph, group: set<int>) {
    exists x :: x in group && group == {x} && x in g.Refs(x)
  }

  predicate IsCycle(g: LookupGraph, group: set<int>) {
    |group| > 1 || IsSelfCircular(g, group)
  }

  /** A path of at least one edge leads from `x` back to `x`. */
  ghost predicate OnCycle(g: LookupGraph, x: int) {
    exists w :: w in g.Refs(x) && Reaches(g, w, x)
  }

  lemma FirstStep(g: LookupGraph, x: int, y: int)
    requires x != y && Reaches(g, x, y) && Reaches(g, y, x)
    ensures OnCycle(g, x)
  {
    var a, b := ReachesCrossesBorder(g, {x}, x, y);
    ReachesTrans(g, b, y, x);
  }

  /** The filter on components keeps exactly those whose nodes lie on a cycle. */
  lemma CycleFilter(g: LookupGraph, c: set<int>, x: int)
    requires g.Valid() && IsComponent(g, c) && x in c
    ensures IsCycle(g, c) <==> OnCycle(g, x)
  {
    ReachesSelf(g, x);
    hide Reaches;
    if IsCycle(g, c) {
      if |c| > 1 {
        OtherElement(c, x);
        var y :| y in c && y != x;
        assert Mutual(g, x, y);
        FirstStep(g, x, y);
      }
    }
    if OnCycle(g, x) {
      var w :| w in g.Refs(x) && Reaches(g, w, x);
      ReachesEdge(g, x, w);
      assert w in c;
      if w != x {
        assert {x, w} <= c;
        assert |c| == |{x, w}| + |c - {x, w}| by {
          assert c == {x, w} + (c - {x, w});
          DisjointSize({x, w}, c - {x, w});
        }
      } else if |c| <= 1 {
        assert |c| == |{x}| + |c - {x}| by { assert c == {x} + (c - {x}); DisjointSize({x}, c - {x}); }
        assert c == {x};
      }
    }
  }

  lemma OtherElement(c: set<int>, x: int)
    requires x in c && |c| > 1
    ensures exists y :: y in c && y != x
  {
    assert |c| == |{x}| + |c - {x}| by { assert c == {x} + (c - {x}); DisjointSize({x}, c - {x}); }
    var y := SomeElement(c - {x});
  }

  /** The components that are cycles, in order. */
  method KeepCycles(g: LookupGraph, components: seq<set<int>>) returns (kept: seq<set<int>>)
    requires DistinctComponents(g, components)
    ensures DistinctComponents(g, kept)
    ensures forall c :: c in kept <==> c in components && IsCycle(g, c)
  {
    kept := [];
    hide IsComponent, IsCycle;
    for k := 0 to |components|
      invariant AllComponents(g, kept) && Disjoint(kept)
      invariant forall c :: c in kept <==> c in components[..k] && IsCycle(g, c)
    {
      assert components[..k + 1] == components[..k] + [components[k]];
      if IsCycle(g, components[k]) {
        forall l | 0 <= l < |kept| ensures kept[l] !! components[k] {
          assert kept[l] in kept;
        }
        kept := kept + [components[k]];
      }
    }
  }

  /** The groups whose first node has no checksum yet, in order. */
  method DropCached(g: LookupGraph, groups: seq<set<int>>, cached: set<int>) returns (kept: seq<set<int>>)
    requires DistinctComponents(g, groups)
    ensures DistinctComponents(g, kept)
    ensures forall c :: c in kept ==> c in groups && !(c <= cached)
    ensures forall c :: c in groups && c !in kept ==> c * cached != {}
  {
    kept := [];
    hide IsComponent;
    for k := 0 to |groups|
      invariant AllComponents(g, kept) && Disjoint(kept)
      invariant forall c :: c in kept ==> c in groups[..k] && !(c <= cached)
      invariant forall c :: c in groups[..k] && c !in kept ==> c * cached != {}
    {
      var first := FirstNode(g, groups[k]);
      assert groups[..k + 1] == groups[..k] + [groups[k]];
      if first in cached {
        assert first in groups[k] * cached;
      } else {
        forall l | 0 <= l < |kept| ensures kept[l] !! groups[k] {
          assert kept[l] in kept;
        }
        kept := kept + [groups[k]];
      }
    }
  }

  method FirstNode(g: LookupGraph, c: set<int>) returns (x: int)
    requires IsComponent(g, c)
    ensures x in c
  {
    assert |c| != 0;
    ghost var _ := SomeElement(c);
    x :| x in c;
  }

  /** The cyclic groups still without a checksum, in the order in which their checksums are computed. */
  method CyclicGroupsInOrder(g: LookupGraph, cached: set<int>)
    returns (sorted: seq<set<int>>)
    requires g.Valid()
    ensures DistinctComponents(g, sorted) && ReachedFirst(g, sorted)
    ensures forall c :: c in sorted ==> IsCycle(g, c) && !(c <= cached)
    ensures forall x :: x in g.nodes && OnCycle(g, x) ==>
              exists c :: x in c && IsComponent(g, c) && (c in sorted || c * cached != {})
  {
    var components := GetStronglyConnectedComponents(g);
    hide Reaches, IsCycle, OnCycle, IsComponent, ReachedFirst, EdgesLeadBack, Emitted;
    var cycles := KeepCycles(g, components);
    var merged;
    ghost var classes, reps;
    merged, classes, reps := MergeSCCsWithCommonNodes(cycles);
    var kept := DropCached(g, merged, cached);
    sorted := SortCyclicGroups(g, kept);
    forall x | x in g.nodes && OnCycle(g, x)
      ensures exists c :: x in c && IsComponent(g, c) && (c in sorted || c * cached != {})
    {
      var k := ComponentOf(components, x);
      CycleFilter(g, components[k], x);
      assert components[k] in cycles;
    }
  }

  lemma ComponentOf(comps: seq<set<int>>, x: int) returns (k: nat)
    requires x in Emitted(comps)
    ensures k < |comps| && x in comps[k]
  {
    k :| 0 <= k < |comps| && x in comps[k];
  }
}
