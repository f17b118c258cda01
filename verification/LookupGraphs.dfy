/** The type graph of a metadata lookup, and reachability in it. */
module LookupGraphs {

  /** One node: the ids it refers to and the ids that refer to it, in insertion order. */
  datatype Node = Node(refs: seq<int>, backRefs: seq<int>)

  /** A graph keyed by lookup id; `order` is the iteration order of its keys. */
  datatype LookupGraph = LookupGraph(order: seq<int>, nodes: map<int, Node>) {

    function Refs(x: int): seq<int> {
      if x in nodes then nodes[x].refs else []
    }

    /** Every reference stays inside the graph, and `order` lists exactly its keys. */
    ghost predicate Valid() {
      && (forall x :: x in order <==> x in nodes)
      && (forall x, y :: x in nodes && y in Refs(x) ==> y in nodes)
    }
  }

  /** A walk along `refs`. */
  ghost predicate IsPath(g: LookupGraph, p: seq<int>) {
    && |p| > 0
    && (forall i :: 0 <= i < |p| - 1 ==> p[i + 1] in g.Refs(p[i]))
  }

  ghost predicate Reaches(g: LookupGraph, x: int, y: int) {
    exists p :: IsPath(g, p) && p[0] == x && p[|p| - 1] == y
  }

  ghost predicate Mutual(g: LookupGraph, x: int, y: int) {
    Reaches(g, x, y) && Reaches(g, y, x)
  }

  lemma ReachesSelf(g: LookupGraph, x: int)
    ensures Reaches(g, x, x)
  {
    assert IsPath(g, [x]);
  }

  lemma ReachesEdge(g: LookupGraph, x: int, y: int)
    requires y in g.Refs(x)
    ensures Reaches(g, x, y)
  {
    assert IsPath(g, [x, y]);
  }

  lemma ReachesTrans(g: LookupGraph, x: int, y: int, z: int)
    requires Reaches(g, x, y) && Reaches(g, y, z)
    ensures Reaches(g, x, z)
  {
    var p :| IsPath(g, p) && p[0] == x && p[|p| - 1] == y;
    var q :| IsPath(g, q) && q[0] == y && q[|q| - 1] == z;
    var r := p + q[1..];
    assert IsPath(g, r) by {
      forall i | 0 <= i < |r| - 1 ensures r[i + 1] in g.Refs(r[i]) {
        if i >= |p| - 1 {
          assert r[i] == q[i - (|p| - 1)] && r[i + 1] == q[i + 1 - (|p| - 1)];
        }
      }
    }
    assert r[0] == x && r[|r| - 1] == z;
  }

  /** A path that leaves `s` crosses its border on some edge. */
  lemma {:induction false} PathCrossesBorder(g: LookupGraph, s: set<int>, p: seq<int>) returns (a: int, b: int)
    requires IsPath(g, p) && p[0] in s && p[|p| - 1] !in s
    ensures a in s && b !in s && b in g.Refs(a)
    ensures Reaches(g, p[0], a) && Reaches(g, b, p[|p| - 1])
    decreases |p|
  {
    var tail := p[1..];
    assert p[1] in g.Refs(p[0]);
    assert IsPath(g, tail) by {
      forall i | 0 <= i < |tail| - 1 ensures tail[i + 1] in g.Refs(tail[i]) {
        assert p[i + 2] in g.Refs(p[i + 1]);
      }
    }
    if p[1] in s {
      a, b := PathCrossesBorder(g, s, tail);
      ReachesEdge(g, p[0], p[1]);
      ReachesTrans(g, p[0], p[1], a);
    } else {
      a, b := p[0], p[1];
      ReachesSelf(g, a);
      assert Reaches(g, b, p[|p| - 1]) by {
        assert tail[0] == b && tail[|tail| - 1] == p[|p| - 1];
      }
    }
  }

  lemma ReachesCrossesBorder(g: LookupGraph, s: set<int>, x: int, y: int) returns (a: int, b: int)
    requires Reaches(g, x, y) && x in s && y !in s
    ensures a in s && b !in s && b in g.Refs(a)
    ensures Reaches(g, x, a) && Reaches(g, b, y)
  {
    var p :| IsPath(g, p) && p[0] == x && p[|p| - 1] == y;
    a, b := PathCrossesBorder(g, s, p);
  }
}
