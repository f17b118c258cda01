/** Tarjan's strongly connected components, as the lookup graph computes them. */
module Tarjan {
  import opened LookupGraphs

  // ---------------------------------------------------------------- specification

  /** A maximal set of mutually reachable nodes. */
  ghost predicate IsComponent(g: LookupGraph, c: set<int>) {
    && c != {}
    && c <= g.nodes.Keys
    && (forall x, y :: x in c && y in g.nodes ==> (y in c <==> Mutual(g, x, y)))
  }

  ghost predicate AllComponents(g: LookupGraph, comps: seq<set<int>>) {
    forall k :: 0 <= k < |comps| ==> IsComponent(g, comps[k])
  }

  ghost predicate Disjoint(comps: seq<set<int>>) {
    forall j, k :: 0 <= j < k < |comps| ==> comps[j] !! comps[k]
  }

  /** `w` lies in one of the first `k + 1` components. */
  ghost predicate InUpTo(comps: seq<set<int>>, k: int, w: int) {
    exists j :: 0 <= j <= k < |comps| && w in comps[j]
  }

  /** No edge leads to a component emitted later. */
  ghost predicate EdgesLeadBack(g: LookupGraph, comps: seq<set<int>>) {
    forall k, x, w :: 0 <= k < |comps| && x in comps[k] && w in g.Refs(x) ==> InUpTo(comps, k, w)
  }

  ghost function Emitted(comps: seq<set<int>>): set<int> {
    set k, x | 0 <= k < |comps| && x in comps[k] :: x
  }

  // ---------------------------------------------------------------- invariant

  /** What the algorithm's variables say, low links aside. */
  datatype View = View(idx: map<int, nat>, next: nat, stack: seq<int>, comps: seq<set<int>>) {
    function Idx(x: int): int {
      if x in idx then idx[x] else -1
    }
  }

  /** Visited nodes carry distinct, growing indices; the stack is a list of visited nodes, oldest first. */
  ghost predicate Numbered(g: LookupGraph, e: View) {
    && (forall x :: x in e.idx ==> x in g.nodes && e.idx[x] < e.next)
    && (forall x :: x in e.stack ==> x in e.idx)
    && (forall i, j :: 0 <= i < j < |e.stack| ==> e.Idx(e.stack[i]) < e.Idx(e.stack[j]))
  }

  /** Every visited node outside `gray`, the set of nodes whose call is still running, is expanded. */
  ghost predicate Expanded(g: LookupGraph, e: View, gray: set<int>) {
    && (forall x :: x in gray ==> x in e.stack)
    && (forall x, w :: x in e.idx && x !in gray && w in g.Refs(x) ==> w in e.idx)
  }

  /** Every stack entry reaches all the newer ones. */
  ghost predicate Chained(g: LookupGraph, stack: seq<int>) {
    forall i, j :: 0 <= i <= j < |stack| ==> Reaches(g, stack[i], stack[j])
  }

  ghost predicate AnchoredAt(g: LookupGraph, e: View, h: int, y: int) {
    e.Idx(h) <= e.Idx(y) && Reaches(g, y, h)
  }

  ghost predicate HasAnchor(g: LookupGraph, e: View, gray: set<int>, y: int) {
    exists h :: h in gray && AnchoredAt(g, e, h, y)
  }

  /** Every stack entry reaches a running node that is no newer. */
  ghost predicate Anchored(g: LookupGraph, e: View, gray: set<int>) {
    forall y :: y in e.stack ==> HasAnchor(g, e, gray, y)
  }

  /** The visited nodes that left the stack make up the emitted components. */
  ghost predicate Finished(g: LookupGraph, e: View) {
    && AllComponents(g, e.comps)
    && Disjoint(e.comps)
    && EdgesLeadBack(g, e.comps)
    && (forall x :: x in Emitted(e.comps) <==> x in e.idx && x !in e.stack)
  }

  ghost predicate Inv(g: LookupGraph, e: View, gray: set<int>) {
    Numbered(g, e) && Expanded(g, e, gray) && Chained(g, e.stack) && Anchored(g, e, gray) && Finished(g, e)
  }

  /** `e` keeps the whole stack, every index and every component of `e0`. */
  ghost predicate Extends(e0: View, e: View) {
    && e0.stack <= e.stack
    && e0.comps <= e.comps
    && e0.next <= e.next
    && e0.idx.Keys <= e.idx.Keys
    && (forall x :: x in e0.idx ==> e.idx[x] == e0.idx[x])
    && (forall x :: x in e.idx && x !in e0.idx ==> e0.next <= e.idx[x])
  }

  /** `low` is the index of a stack entry that `v` reaches. */
  ghost predicate Witnessed(g: LookupGraph, e: View, v: int, low: int) {
    exists y :: y in e.stack && e.Idx(y) == low && Reaches(g, v, y)
  }

  /** No edge from `x` into the stack of `e0` leads below `low`. */
  ghost predicate NotBelow(g: LookupGraph, e0: View, x: int, low: int) {
    forall z :: z in g.Refs(x) && z in e0.stack ==> low <= e0.Idx(z)
  }

  ghost predicate NoneBelow(g: LookupGraph, e0: View, e: View, from: nat, low: int) {
    forall i :: from <= i < |e.stack| ==> NotBelow(g, e0, e.stack[i], low)
  }

  /** A call for `v`, started at `e0`, after its first `i` edges. */
  ghost predicate Running(g: LookupGraph, e0: View, e: View, gray: set<int>, v: int, low: int, i: nat) {
    && Inv(g, e, gray + {v})
    && Extends(e0, e)
    && |e0.stack| < |e.stack| && e.stack[|e0.stack|] == v
    && e.Idx(v) == e0.next && low <= e0.next
    && Witnessed(g, e, v, low)
    && NoneBelow(g, e0, e, |e0.stack| + 1, low)
    && i <= |g.Refs(v)|
    && (forall w :: w in g.Refs(v)[..i] ==> w in e.idx && (w in e0.stack ==> low <= e0.Idx(w)))
  }

  /** A call for `v`, started at `e0`, that has returned. */
  ghost predicate Returned(g: LookupGraph, e0: View, e: View, gray: set<int>, v: int, low: int) {
    && Inv(g, e, gray)
    && Extends(e0, e)
    && v in e.idx && low <= e0.next
    && (low == e0.next ==> e.stack == e0.stack)
    && (low < e0.next ==> Witnessed(g, e, v, low))
    && NoneBelow(g, e0, e, |e0.stack|, low)
  }

  /** `v` may be entered: it is new, and everything on the stack reaches it. */
  ghost predicate CanEnter(g: LookupGraph, e: View, gray: set<int>, v: int) {
    && g.Valid()
    && Inv(g, e, gray)
    && v in g.nodes && v !in e.idx
    && (forall x :: x in e.stack ==> Reaches(g, x, v))
  }

  // -------------------------------------------------------------- entering a node

  function Entered(e: View, v: int): View {
    View(e.idx[v := e.next], e.next + 1, e.stack + [v], e.comps)
  }

  lemma EnterNumbered(g: LookupGraph, e: View, v: int)
    requires Numbered(g, e) && v in g.nodes && v !in e.idx
    ensures Numbered(g, Entered(e, v))
  {
    var e' := Entered(e, v);
    forall i, j | 0 <= i < j < |e'.stack| ensures e'.Idx(e'.stack[i]) < e'.Idx(e'.stack[j]) {
      assert e'.stack[i] == e.stack[i] && e.stack[i] in e.stack;
      if j < |e.stack| {
        assert e'.stack[j] == e.stack[j] && e.stack[j] in e.stack;
      }
    }
  }

  lemma EnterChained(g: LookupGraph, stack: seq<int>, v: int)
    requires Chained(g, stack)
    requires forall x :: x in stack ==> Reaches(g, x, v)
    ensures Chained(g, stack + [v])
  {
    ReachesSelf(g, v);
    hide Reaches;
    var stack' := stack + [v];
    forall i, j | 0 <= i <= j < |stack'| ensures Reaches(g, stack'[i], stack'[j]) {
      if i < j == |stack| {
        assert stack[i] in stack;
      }
    }
  }

  lemma EnterAnchored(g: LookupGraph, e: View, gray: set<int>, v: int)
    requires Anchored(g, e, gray)
    requires forall y :: y in e.stack ==> y in e.idx
    requires forall y :: y in gray ==> y in e.stack
    requires v !in e.idx
    ensures Anchored(g, Entered(e, v), gray + {v})
  {
    ReachesSelf(g, v);
    hide Reaches;
    var e' := Entered(e, v);
    forall y | y in e'.stack ensures HasAnchor(g, e', gray + {v}, y) {
      if y in e.stack {
        assert HasAnchor(g, e, gray, y);
        var h :| h in gray && AnchoredAt(g, e, h, y);
        assert h in gray + {v} && AnchoredAt(g, e', h, y);
      } else {
        assert v in gray + {v} && AnchoredAt(g, e', v, v);
      }
    }
  }

  lemma EnterFinished(g: LookupGraph, e: View, v: int)
    requires Finished(g, e) && v !in e.idx
    requires forall x :: x in e.stack ==> x in e.idx
    ensures Finished(g, Entered(e, v))
  {
    hide AllComponents, Disjoint, EdgesLeadBack, Emitted;
    assert Entered(e, v).stack[|e.stack|] == v;
  }

  lemma EnterExpanded(g: LookupGraph, e: View, gray: set<int>, v: int)
    requires Expanded(g, e, gray)
    ensures Expanded(g, Entered(e, v), gray + {v})
  {
    assert Entered(e, v).stack[|e.stack|] == v;
  }

  lemma StackVisited(g: LookupGraph, e: View, gray: set<int>)
    requires Numbered(g, e) && Expanded(g, e, gray)
    ensures forall x :: x in e.stack ==> x in e.idx
    ensures forall x :: x in gray ==> x in e.stack
  {
  }

  lemma EnterInv(g: LookupGraph, e: View, gray: set<int>, v: int)
    requires CanEnter(g, e, gray, v)
    ensures Inv(g, Entered(e, v), gray + {v})
  {
    hide Numbered, Expanded, Chained, Anchored, Finished, Reaches;
    StackVisited(g, e, gray);
    EnterNumbered(g, e, v);
    EnterChained(g, e.stack, v);
    EnterAnchored(g, e, gray, v);
    EnterFinished(g, e, v);
    EnterExpanded(g, e, gray, v);
  }

  lemma EnterKeepsInv(g: LookupGraph, e: View, gray: set<int>, v: int)
    requires CanEnter(g, e, gray, v)
    ensures Running(g, e, Entered(e, v), gray, v, e.next, 0)
  {
    hide Inv, Reaches;
    EnterInv(g, e, gray, v);
    ReachesSelf(g, v);
    var e' := Entered(e, v);
    assert e'.stack[|e.stack|] == v && v in e'.stack;
  }

  // -------------------------------------------------------------- following an edge

  function Min(a: int, b: int): int {
    if a < b then a else b
  }

  lemma VisitedEdge(g: LookupGraph, e0: View, e: View, gray: set<int>, v: int, low: int, i: nat)
    requires Numbered(g, e0)
    requires Running(g, e0, e, gray, v, low, i) && i < |g.Refs(v)|
    requires g.Refs(v)[i] in e.idx
    ensures var w := g.Refs(v)[i];
            Running(g, e0, e, gray, v, if w in e.stack then Min(low, e.Idx(w)) else low, i + 1)
  {
    hide Inv, Reaches;
    var w := g.Refs(v)[i];
    ReachesEdge(g, v, w);
    assert g.Refs(v)[..i + 1] == g.Refs(v)[..i] + [w];
  }

  lemma CanFollow(g: LookupGraph, e0: View, e: View, gray: set<int>, v: int, low: int, i: nat)
    requires g.Valid() && v in g.nodes
    requires forall h :: h in gray ==> h in e0.stack
    requires Running(g, e0, e, gray, v, low, i) && i < |g.Refs(v)|
    requires g.Refs(v)[i] !in e.idx
    ensures CanEnter(g, e, gray + {v}, g.Refs(v)[i])
  {
    hide Reaches, Numbered, Expanded, Finished, NoneBelow, Witnessed, Chained, Extends, AnchoredAt;
    var w := g.Refs(v)[i];
    assert e0.stack <= e.stack by { StackGrows(e0, e); }
    forall x | x in e.stack ensures Reaches(g, x, w) {
      assert HasAnchor(g, e, gray + {v}, x);
      var h :| h in gray + {v} && AnchoredAt(g, e, h, x);
      AncestorReaches(g, e0, e, gray, v, h);
      StepFromAnchor(g, e, h, x, v, w);
    }
  }

  lemma StackGrows(e0: View, e: View)
    requires Extends(e0, e)
    ensures e0.stack <= e.stack
  {
  }

  lemma StepFromAnchor(g: LookupGraph, e: View, h: int, x: int, v: int, w: int)
    requires AnchoredAt(g, e, h, x) && Reaches(g, h, v) && w in g.Refs(v)
    ensures Reaches(g, x, w)
  {
    hide Reaches;
    ReachesTrans(g, x, h, v);
    ReachesEdge(g, v, w);
    ReachesTrans(g, x, v, w);
  }

  /** Every running node reaches the newest one. */
  lemma AncestorReaches(g: LookupGraph, e0: View, e: View, gray: set<int>, v: int, h: int)
    requires h in gray + {v}
    requires forall x :: x in gray ==> x in e0.stack
    requires e0.stack <= e.stack && |e0.stack| < |e.stack| && e.stack[|e0.stack|] == v
    requires Chained(g, e.stack)
    ensures Reaches(g, h, v)
  {
    hide Reaches;
    if h in e0.stack {
      var k :| 0 <= k < |e0.stack| && e0.stack[k] == h;
      assert Reaches(g, e.stack[k], e.stack[|e0.stack|]);
    } else {
      assert Reaches(g, e.stack[|e0.stack|], e.stack[|e0.stack|]);
    }
  }

  lemma ExtendsTrans(e0: View, e1: View, e2: View)
    requires Extends(e0, e1) && Extends(e1, e2)
    ensures Extends(e0, e2)
  {
  }

  lemma NoneBelowLater(g: LookupGraph, e0: View, e: View, e': View, low: int, low': int)
    requires Numbered(g, e0) && Extends(e0, e) && Extends(e, e')
    requires |e0.stack| < |e.stack|
    requires NoneBelow(g, e0, e, |e0.stack| + 1, low)
    requires NoneBelow(g, e, e', |e.stack|, low')
    ensures NoneBelow(g, e0, e', |e0.stack| + 1, Min(low, low'))
  {
    forall j | |e0.stack| + 1 <= j < |e'.stack| ensures NotBelow(g, e0, e'.stack[j], Min(low, low')) {
      if j < |e.stack| {
        assert e'.stack[j] == e.stack[j];
        assert NotBelow(g, e0, e.stack[j], low);
      } else {
        assert NotBelow(g, e, e'.stack[j], low');
      }
    }
  }

  lemma WitnessedLater(g: LookupGraph, e: View, e': View, v: int, w: int, low: int, low': int)
    requires Numbered(g, e) && Extends(e, e')
    requires w in g.Refs(v)
    requires Witnessed(g, e, v, low)
    requires low' < low ==> Witnessed(g, e', w, low')
    ensures Witnessed(g, e', v, Min(low, low'))
  {
    ReachesEdge(g, v, w);
    hide Reaches;
    if low' < low {
      var y :| y in e'.stack && e'.Idx(y) == low' && Reaches(g, w, y);
      ReachesTrans(g, v, w, y);
    }
  }

  lemma FollowedEdge(g: LookupGraph, e0: View, e: View, e': View, gray: set<int>, v: int, low: int, low': int, i: nat)
    requires Numbered(g, e0) && Numbered(g, e)
    requires Running(g, e0, e, gray, v, low, i) && i < |g.Refs(v)|
    requires g.Refs(v)[i] !in e.idx
    requires Returned(g, e, e', gray + {v}, g.Refs(v)[i], low')
    ensures Running(g, e0, e', gray, v, Min(low, low'), i + 1)
  {
    hide Inv, Reaches;
    var w := g.Refs(v)[i];
    assert e.idx[v] == e0.next < e.next by {
      assert e.stack[|e0.stack|] in e.stack;
    }
    ExtendsTrans(e0, e, e');
    NoneBelowLater(g, e0, e, e', low, low');
    WitnessedLater(g, e, e', v, w, low, low');
    assert g.Refs(v)[..i + 1] == g.Refs(v)[..i] + [w];
    hide NoneBelow, Witnessed;
  }

  // -------------------------------------------------------------- leaving a node

  lemma StaysAnchored(g: LookupGraph, e0: View, e: View, gray: set<int>, v: int, low: int)
    requires Anchored(g, e, gray + {v})
    requires e.Idx(v) == e0.next && low < e0.next && Witnessed(g, e, v, low)
    ensures Anchored(g, e, gray)
  {
    hide Reaches;
    var y0 :| y0 in e.stack && e.Idx(y0) == low && Reaches(g, v, y0);
    assert HasAnchor(g, e, gray + {v}, y0);
    var h0 :| h0 in gray + {v} && AnchoredAt(g, e, h0, y0);
    ReachesTrans(g, v, y0, h0);
    forall y | y in e.stack ensures HasAnchor(g, e, gray, y) {
      assert HasAnchor(g, e, gray + {v}, y);
      var h :| h in gray + {v} && AnchoredAt(g, e, h, y);
      if h == v {
        ReachesTrans(g, y, v, h0);
        assert h0 in gray && AnchoredAt(g, e, h0, y);
      } else {
        assert h in gray && AnchoredAt(g, e, h, y);
      }
    }
  }

  lemma AllNoneBelow(g: LookupGraph, e0: View, e: View, gray: set<int>, v: int, low: int)
    requires Running(g, e0, e, gray, v, low, |g.Refs(v)|)
    ensures NoneBelow(g, e0, e, |e0.stack|, low)
    ensures forall w :: w in g.Refs(v) ==> w in e.idx
  {
    hide Inv, Reaches, Extends;
    assert g.Refs(v)[..|g.Refs(v)|] == g.Refs(v);
    assert NotBelow(g, e0, v, low);
  }

  lemma LeaveOnStack(g: LookupGraph, e0: View, e: View, gray: set<int>, v: int, low: int)
    requires Inv(g, e0, gray)
    requires Running(g, e0, e, gray, v, low, |g.Refs(v)|) && low < e0.next
    ensures Returned(g, e0, e, gray, v, low)
  {
    hide Reaches, Chained, Numbered, Finished, Anchored;
    AllNoneBelow(g, e0, e, gray, v, low);
    StaysAnchored(g, e0, e, gray, v, low);
    hide NoneBelow, Witnessed;
  }

  ghost function Top(e: View, n: nat): set<int> {
    set k | n <= k < |e.stack| :: e.stack[k]
  }

  function Popped(e: View, n: nat, c: set<int>): View
    requires n <= |e.stack|
  {
    View(e.idx, e.next, e.stack[..n], e.comps + [c])
  }

  lemma TopIsNew(g: LookupGraph, e0: View, e: View)
    requires Numbered(g, e) && e0.stack <= e.stack
    ensures forall x :: x in Top(e, |e0.stack|) ==> x !in e0.stack
    ensures forall x :: x in e.stack <==> x in Top(e, |e0.stack|) || x in e0.stack
  {
  }

  /** An edge out of the popped nodes stays among them or enters an emitted component. */
  lemma TopIsClosed(g: LookupGraph, e0: View, e: View, gray: set<int>, v: int, x: int, w: int)
    requires Inv(g, e0, gray)
    requires Running(g, e0, e, gray, v, e0.next, |g.Refs(v)|)
    requires x in Top(e, |e0.stack|) && w in g.Refs(x)
    ensures w in Top(e, |e0.stack|) || w in Emitted(e.comps)
  {
    hide Reaches, Chained, Anchored, Emitted, AllComponents, Disjoint, EdgesLeadBack;
    AllNoneBelow(g, e0, e, gray, v, e0.next);
    TopIsNew(g, e0, e);
    var k :| |e0.stack| <= k < |e.stack| && e.stack[k] == x;
    assert NotBelow(g, e0, e.stack[k], e0.next);
    assert w in e.idx by {
      if x != v { assert x !in gray + {v}; }
    }
    hide NoneBelow, Witnessed;
    assert w in e0.stack ==> e0.Idx(w) < e0.next;
  }

  lemma TopReachesRoot(g: LookupGraph, e0: View, e: View, gray: set<int>, v: int, x: int)
    requires forall h :: h in gray ==> h in e0.stack
    requires e0.stack <= e.stack && |e0.stack| < |e.stack| && e.stack[|e0.stack|] == v
    requires Chained(g, e.stack) && Anchored(g, e, gray + {v})
    requires x in Top(e, |e0.stack|)
    ensures Mutual(g, v, x)
  {
    hide Reaches;
    var k :| |e0.stack| <= k < |e.stack| && e.stack[k] == x;
    assert x in e.stack;
    assert Reaches(g, e.stack[|e0.stack|], e.stack[k]);
    assert HasAnchor(g, e, gray + {v}, x);
    var h :| h in gray + {v} && AnchoredAt(g, e, h, x);
    AncestorReaches(g, e0, e, gray, v, h);
    ReachesTrans(g, x, h, v);
  }

  lemma EmittedComponent(g: LookupGraph, comps: seq<set<int>>, b: int, y: int)
    requires AllComponents(g, comps) && b in Emitted(comps) && y in g.nodes && Mutual(g, b, y)
    ensures y in Emitted(comps)
  {
    hide Reaches, Mutual;
    var k :| 0 <= k < |comps| && b in comps[k];
    assert IsComponent(g, comps[k]);
    assert y in comps[k];
  }

  lemma TopIsMaximal(g: LookupGraph, e0: View, e: View, gray: set<int>, v: int, y: int)
    requires g.Valid() && Inv(g, e0, gray) && v in g.nodes
    requires Running(g, e0, e, gray, v, e0.next, |g.Refs(v)|)
    requires Mutual(g, v, y)
    ensures y in Top(e, |e0.stack|)
  {
    hide Reaches, Chained, Anchored, Numbered, Emitted, AllComponents, Disjoint, EdgesLeadBack, NoneBelow, Witnessed;
    assert e.stack[|e0.stack|] in e.stack;
    var top := Top(e, |e0.stack|);
    assert v in top;
    if y !in top {
      var a, b := ReachesCrossesBorder(g, top, v, y);
      TopIsClosed(g, e0, e, gray, v, a, b);
      ReachesEdge(g, a, b);
      ReachesTrans(g, v, a, b);
      ReachesTrans(g, b, y, v);
      EmittedComponent(g, e.comps, b, v);
      assert false;
    }
  }

  lemma TopIsComponent(g: LookupGraph, e0: View, e: View, gray: set<int>, v: int)
    requires g.Valid() && Inv(g, e0, gray) && v in g.nodes
    requires Running(g, e0, e, gray, v, e0.next, |g.Refs(v)|)
    ensures IsComponent(g, Top(e, |e0.stack|))
  {
    hide Reaches, Chained, Anchored, Finished, NoneBelow, Witnessed;
    var top := Top(e, |e0.stack|);
    assert v in top;
    TopIsNew(g, e0, e);
    forall x, y | x in top && y in g.nodes ensures y in top <==> Mutual(g, x, y) {
      TopReachesRoot(g, e0, e, gray, v, x);
      if y in top {
        TopReachesRoot(g, e0, e, gray, v, y);
        ReachesTrans(g, x, v, y);
        ReachesTrans(g, y, v, x);
      }
      if Mutual(g, x, y) {
        ReachesTrans(g, v, x, y);
        ReachesTrans(g, y, x, v);
        TopIsMaximal(g, e0, e, gray, v, y);
      }
    }
  }

  lemma FinishedPop(g: LookupGraph, e0: View, e: View, gray: set<int>, v: int)
    requires g.Valid() && Inv(g, e0, gray) && v in g.nodes
    requires Running(g, e0, e, gray, v, e0.next, |g.Refs(v)|)
    ensures Finished(g, Popped(e, |e0.stack|, Top(e, |e0.stack|)))
  {
    hide Reaches, Chained, Anchored, NoneBelow, Witnessed, IsComponent, Expanded;
    var top := Top(e, |e0.stack|);
    var comps' := e.comps + [top];
    TopIsNew(g, e0, e);
    TopIsComponent(g, e0, e, gray, v);
    assert forall x :: x in Emitted(comps') <==> x in Emitted(e.comps) || x in top by {
      assert comps'[|e.comps|] == top;
      assert forall k :: 0 <= k < |e.comps| ==> comps'[k] == e.comps[k];
    }
    assert Disjoint(comps') by {
      forall k, x | 0 <= k < |e.comps| && x in e.comps[k] ensures x !in top {
        assert x in Emitted(e.comps);
      }
    }
    forall k, x, w | 0 <= k < |comps'| && x in comps'[k] && w in g.Refs(x) ensures InUpTo(comps', k, w) {
      if k < |e.comps| {
        assert InUpTo(e.comps, k, w);
        var j :| 0 <= j <= k && w in e.comps[j];
        assert comps'[j] == e.comps[j];
      } else {
        TopIsClosed(g, e0, e, gray, v, x, w);
        assert w in Emitted(comps');
      }
    }
  }

  lemma SameAnchor(g: LookupGraph, e0: View, e: View, gray: set<int>, y: int)
    requires HasAnchor(g, e0, gray, y)
    requires forall x :: x in gray || x == y ==> e.Idx(x) == e0.Idx(x)
    ensures HasAnchor(g, e, gray, y)
  {
    var h :| h in gray && AnchoredAt(g, e0, h, y);
    assert AnchoredAt(g, e, h, y) by { hide Reaches; }
  }

  lemma PopAnchored(g: LookupGraph, e0: View, e: View, gray: set<int>)
    requires Anchored(g, e0, gray)
    requires forall x :: x in gray ==> x in e0.stack
    requires forall x :: x in e0.stack ==> e.Idx(x) == e0.Idx(x)
    requires e.stack == e0.stack
    ensures Anchored(g, e, gray)
  {
    hide HasAnchor;
    forall y | y in e.stack ensures HasAnchor(g, e, gray, y) {
      assert y in e0.stack;
      SameAnchor(g, e0, e, gray, y);
    }
  }

  lemma PopNumbered(g: LookupGraph, e: View, n: nat, c: set<int>)
    requires Numbered(g, e) && n <= |e.stack|
    ensures Numbered(g, Popped(e, n, c))
  {
    var e' := Popped(e, n, c);
    forall i, j | 0 <= i < j < |e'.stack| ensures e'.Idx(e'.stack[i]) < e'.Idx(e'.stack[j]) {
      assert e'.Idx(e'.stack[i]) == e.Idx(e.stack[i]) && e'.Idx(e'.stack[j]) == e.Idx(e.stack[j]);
    }
  }

  lemma PopExpanded(g: LookupGraph, e0: View, e: View, gray: set<int>, v: int, c: set<int>)
    requires Expanded(g, e0, gray) && Expanded(g, e, gray + {v}) && e0.stack <= e.stack
    requires forall w :: w in g.Refs(v) ==> w in e.idx
    ensures Expanded(g, Popped(e, |e0.stack|, c), gray)
  {
    assert Popped(e, |e0.stack|, c).stack == e0.stack;
  }

  lemma IndexFacts(g: LookupGraph, e0: View, e: View, gray: set<int>, v: int)
    requires Numbered(g, e0) && Expanded(g, e0, gray)
    requires Numbered(g, e) && Extends(e0, e) && v in e.stack
    ensures forall x :: x in gray ==> x in e0.stack
    ensures forall x :: x in e0.stack ==> e.Idx(x) == e0.Idx(x)
    ensures v in e.idx
  {
  }

  lemma LeaveByPop(g: LookupGraph, e0: View, e: View, gray: set<int>, v: int)
    requires g.Valid() && Inv(g, e0, gray) && v in g.nodes
    requires Running(g, e0, e, gray, v, e0.next, |g.Refs(v)|)
    ensures Returned(g, e0, Popped(e, |e0.stack|, Top(e, |e0.stack|)), gray, v, e0.next)
  {
    hide Reaches, Chained, Finished, NoneBelow, Witnessed, Anchored, Numbered, Expanded, NotBelow;
    var top := Top(e, |e0.stack|);
    var e' := Popped(e, |e0.stack|, top);
    FinishedPop(g, e0, e, gray, v);
    AllNoneBelow(g, e0, e, gray, v, e0.next);
    assert e.stack[|e0.stack|] in e.stack;
    IndexFacts(g, e0, e, gray, v);
    assert e'.stack == e0.stack;
    PopNumbered(g, e, |e0.stack|, top);
    PopExpanded(g, e0, e, gray, v, top);
    PopAnchored(g, e0, e', gray);
    NothingAbove(g, e0, e', e0.next);
  }

  lemma NothingAbove(g: LookupGraph, e0: View, e: View, low: int)
    requires e.stack == e0.stack
    ensures NoneBelow(g, e0, e, |e0.stack|, low)
  {
  }

  // ------------------------------------------------------------------ algorithm

  datatype NodeState = NodeState(index: nat, lowLink: nat, onStack: bool)

  lemma TopIsFresh(g: LookupGraph, e0: View, e: View, k: nat)
    requires Numbered(g, e0) && Numbered(g, e) && Extends(e0, e)
    requires |e0.stack| <= k < |e.stack|
    requires e.Idx(e.stack[|e0.stack|]) == e0.next
    ensures e.stack[k] !in e0.idx
  {
  }

  lemma StackIsDistinct(g: LookupGraph, e: View, i: nat, j: nat)
    requires Numbered(g, e) && i < |e.stack| && j < |e.stack| && e.stack[i] == e.stack[j]
    ensures i == j
  {
  }

  lemma NoGrayNoStack(g: LookupGraph, e: View)
    requires Anchored(g, e, {})
    ensures e.stack == []
  {
    assert |e.stack| > 0 ==> e.stack[0] in e.stack && HasAnchor(g, e, {}, e.stack[0]);
  }

  lemma EmptyInv(g: LookupGraph)
    ensures Inv(g, View(map[], 0, [], []), {})
  {
  }

  lemma EnterFacts(g: LookupGraph, e: View, gray: set<int>, v: int)
    requires CanEnter(g, e, gray, v)
    ensures g.Valid() && Inv(g, e, gray) && v in g.nodes && v !in e.stack && v !in e.idx
    ensures forall h :: h in gray ==> h in e.stack
    ensures Numbered(g, e)
  {
    hide Reaches, Chained, Anchored, Finished;
  }

  lemma RunningFacts(g: LookupGraph, e0: View, e: View, gray: set<int>, v: int, low: int, i: nat)
    requires Numbered(g, e0) && Running(g, e0, e, gray, v, low, i)
    ensures Extends(e0, e) && Numbered(g, e) && v in e.stack && e.Idx(v) == e0.next && low <= e0.next
    ensures |e0.stack| < |e.stack| && e.stack[|e0.stack|] == v && e0.stack == e.stack[..|e0.stack|]
    ensures Inv(g, e, gray + {v})
  {
    hide Reaches, Chained, Anchored, Finished, Expanded, NoneBelow, Witnessed;
  }

  lemma ReturnedFacts(g: LookupGraph, e0: View, e: View, gray: set<int>, v: int, low: int)
    requires Returned(g, e0, e, gray, v, low)
    ensures Inv(g, e, gray) && Extends(e0, e)
    ensures v in e.idx && low <= e0.next && Anchored(g, e, gray)
  {
  }

  /** What `Inv` says once nothing is running and every node is visited. */
  lemma AllVisited(g: LookupGraph, e: View)
    requires g.Valid() && Inv(g, e, {}) && e.stack == []
    requires forall x :: x in g.order ==> x in e.idx
    ensures AllComponents(g, e.comps) && Disjoint(e.comps) && EdgesLeadBack(g, e.comps)
    ensures Emitted(e.comps) == g.nodes.Keys
  {
    hide Reaches, Chained, Anchored, AllComponents, Disjoint, EdgesLeadBack, Emitted;
    forall x ensures x in Emitted(e.comps) <==> x in g.nodes {
      assert x in e.stack ==> x in e.idx;
      assert x in g.nodes ==> x in g.order;
    }
  }

  /** The variables the recursive search shares. */
  class Search {
    const g: LookupGraph
    var tarjanState: map<int, NodeState>
    var index: nat
    var stack: seq<int>
    var result: seq<set<int>>

    ghost function Now(): View
      reads this
    {
      View(map x | x in tarjanState :: tarjanState[x].index, index, stack, result)
    }

    /** The `onStack` flags describe the stack. */
    ghost predicate Flagged()
      reads this
    {
      forall x :: x in tarjanState ==> (tarjanState[x].onStack <==> x in stack)
    }

    constructor (g: LookupGraph)
      ensures this.g == g && Flagged() && Now() == View(map[], 0, [], [])
    {
      this.g := g;
      tarjanState, index, stack, result := map[], 0, [], [];
    }

    /** Numbers `v` and pushes it. */
    method Enter(v: int)
      requires Flagged() && v !in tarjanState && v !in stack
      modifies this
      ensures Flagged() && v in tarjanState
      ensures Now() == Entered(old(Now()), v)
      ensures tarjanState == old(tarjanState)[v := NodeState(old(index), old(index), true)]
    {
      var state := NodeState(index, index, true);
      tarjanState := tarjanState[v := state];
      index := index + 1;
      stack := stack + [v];
      assert Now().idx == old(Now()).idx[v := old(index)];
    }

    /** Lowers the low link of `v` to at most `low`. */
    method Lower(v: int, low: nat)
      requires Flagged() && v in tarjanState
      modifies this`tarjanState
      ensures Flagged() && Now() == old(Now())
      ensures tarjanState
              == old(tarjanState)[v := old(tarjanState)[v].(lowLink := Min(old(tarjanState)[v].lowLink, low))]
    {
      tarjanState := tarjanState[v := tarjanState[v].(lowLink := Min(tarjanState[v].lowLink, low))];
      assert Now().idx == old(Now()).idx;
    }

    /** Visits everything reachable from `v` that is not visited yet. */
    method StrongConnect(v: int, ghost gray: set<int>)
      requires Flagged() && CanEnter(g, Now(), gray, v)
      modifies this
      ensures Flagged()
      ensures v in tarjanState && Returned(g, old(Now()), Now(), gray, v, tarjanState[v].lowLink)
      ensures forall x :: x in old(tarjanState) ==> x in tarjanState && tarjanState[x] == old(tarjanState[x])
      decreases g.nodes.Keys - tarjanState.Keys, 0
    {
      hide CanEnter, Inv, Running, Returned, Numbered;
      ghost var e0 := Now();
      EnterFacts(g, e0, gray, v);
      EnterKeepsInv(g, e0, gray, v);
      Enter(v);
      var edges := g.Refs(v);
      for i := 0 to |edges|
        invariant Flagged() && v in tarjanState && tarjanState[v].index == e0.next
        invariant Running(g, e0, Now(), gray, v, tarjanState[v].lowLink, i)
        invariant forall x :: x in e0.idx ==> x in tarjanState && tarjanState[x] == old(tarjanState[x])
      {
        assert old(tarjanState).Keys <= tarjanState.Keys by {
          forall x | x in old(tarjanState) ensures x in tarjanState {
            assert x in e0.idx;
          }
        }
        assert v in g.nodes.Keys - old(tarjanState).Keys && v !in g.nodes.Keys - tarjanState.Keys;
        Follow(v, i, e0, gray);
      }
      RunningFacts(g, e0, Now(), gray, v, tarjanState[v].lowLink, |edges|);
      if tarjanState[v].lowLink == tarjanState[v].index {
        PopComponent(v, e0, gray);
      } else {
        LeaveOnStack(g, e0, Now(), gray, v, tarjanState[v].lowLink);
      }
    }

    /** Follows the `i`-th edge of `v`. */
    method Follow(v: int, i: nat, ghost e0: View, ghost gray: set<int>)
      requires Flagged() && g.Valid() && v in g.nodes && v in tarjanState
      requires Numbered(g, e0) && forall h :: h in gray ==> h in e0.stack
      requires i < |g.Refs(v)| && Running(g, e0, Now(), gray, v, tarjanState[v].lowLink, i)
      modifies this
      ensures Flagged() && v in tarjanState
      ensures Running(g, e0, Now(), gray, v, tarjanState[v].lowLink, i + 1)
      ensures tarjanState[v].index == old(tarjanState[v].index)
      ensures forall x :: x in old(tarjanState) && x != v ==> x in tarjanState && tarjanState[x] == old(tarjanState[x])
      decreases g.nodes.Keys - tarjanState.Keys, 1
    {
      hide CanEnter, Inv, Running, Returned, Numbered;
      var w := g.Refs(v)[i];
      ghost var e := Now();
      ghost var low := tarjanState[v].lowLink;
      RunningFacts(g, e0, e, gray, v, low, i);
      if w !in tarjanState {
        CanFollow(g, e0, e, gray, v, low, i);
        StrongConnect(w, gray + {v});
        ReturnedFacts(g, e, Now(), gray + {v}, w, tarjanState[w].lowLink);
        FollowedEdge(g, e0, e, Now(), gray, v, low, tarjanState[w].lowLink, i);
        Lower(v, tarjanState[w].lowLink);
      } else {
        VisitedEdge(g, e0, e, gray, v, low, i);
        if tarjanState[w].onStack {
          Lower(v, tarjanState[w].index);
        }
      }
    }

    /** Pops the stack down to `v` into a new component. */
    method PopComponent(v: int, ghost e0: View, ghost gray: set<int>)
      requires Flagged() && g.Valid() && v in g.nodes && v in tarjanState
      requires Inv(g, e0, gray) && Numbered(g, e0)
      requires Running(g, e0, Now(), gray, v, e0.next, |g.Refs(v)|)
      requires tarjanState[v].lowLink == e0.next
      modifies this
      ensures Flagged() && v in tarjanState && tarjanState[v].lowLink == e0.next
      ensures Returned(g, e0, Now(), gray, v, e0.next)
      ensures forall x :: x in e0.idx ==> x in tarjanState && tarjanState[x] == old(tarjanState[x])
    {
      hide CanEnter, Inv, Running, Returned, Numbered;
      ghost var e := Now();
      ghost var n := |e0.stack|;
      LeaveByPop(g, e0, e, gray, v);
      RunningFacts(g, e0, e, gray, v, e0.next, |g.Refs(v)|);
      var component: set<int> := {};
      while true
        invariant n < |stack| <= |e.stack| && stack == e.stack[..|stack|]
        invariant component == Top(e, |stack|)
        invariant Flagged() && Now() == e.(stack := stack)
        invariant tarjanState.Keys == e.idx.Keys
        invariant forall x :: x in tarjanState ==> tarjanState[x].lowLink == old(tarjanState[x].lowLink)
        invariant forall x :: x in e0.idx ==> tarjanState[x] == old(tarjanState[x])
        decreases |stack|
      {
        var poppedNode := PopOne(e);
        component := component + {poppedNode};
        TopIsFresh(g, e0, e, |stack|);
        if poppedNode == v {
          StackIsDistinct(g, e, n, |stack|);
          break;
        }
      }
      result := result + [component];
      assert Now() == Popped(e, n, Top(e, n));
    }

    method PopOne(ghost e: View) returns (poppedNode: int)
      requires Flagged() && Numbered(g, e) && Now() == e.(stack := stack)
      requires 0 < |stack| <= |e.stack| && stack == e.stack[..|stack|]
      modifies this`tarjanState, this`stack
      ensures stack == old(stack)[..|old(stack)| - 1] && poppedNode == e.stack[|stack|]
      ensures Top(e, |stack|) == Top(e, |old(stack)|) + {poppedNode}
      ensures Flagged() && Now() == e.(stack := stack)
      ensures poppedNode in old(tarjanState)
      ensures tarjanState == old(tarjanState)[poppedNode := old(tarjanState)[poppedNode].(onStack := false)]
    {
      poppedNode := stack[|stack| - 1];
      assert poppedNode in e.stack;
      stack := stack[..|stack| - 1];
      tarjanState := tarjanState[poppedNode := tarjanState[poppedNode].(onStack := false)];
      assert Now().idx == e.idx;
      forall x | x in old(stack) && x != poppedNode ensures x in stack {
        var k :| 0 <= k < |old(stack)| && old(stack)[k] == x;
        assert stack[k] == x;
      }
    }
  }

  /** The strongly connected components, each emitted after those its edges lead to. */
  method GetStronglyConnectedComponents(g: LookupGraph) returns (result: seq<set<int>>)
    requires g.Valid()
    ensures AllComponents(g, result) && Disjoint(result)
    ensures Emitted(result) == g.nodes.Keys
    ensures EdgesLeadBack(g, result)
  {
    var search := new Search(g);
    EmptyInv(g);
    hide Reaches, Returned, Inv;
    for i := 0 to |g.order|
      invariant search.g == g && search.Flagged() && Inv(g, search.Now(), {}) && search.stack == []
      invariant forall k :: 0 <= k < i ==> g.order[k] in search.Now().idx.Keys
    {
      var node := g.order[i];
      ghost var e := search.Now();
      if node !in search.tarjanState {
        search.StrongConnect(node, {});
        ReturnedFacts(g, e, search.Now(), {}, node, search.tarjanState[node].lowLink);
        NoGrayNoStack(g, search.Now());
      }
      assert node in search.Now().idx;
    }
    result := search.result;
    AllVisited(g, search.Now());
  }
}
