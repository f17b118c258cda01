/** Building the type graph, and the connected part of it around a type. */
module Subgraphs {
  import opened Basics
  import opened LookupGraphs
  import opened Closures
  import UsedTypes

  /** What the lookup gives for an id: the id that it stands for, and the type. */
  datatype LookupEntry = LookupEntry(id: int, def: UsedTypes.Var)

  function IdsOf(entries: seq<UsedTypes.Entry>): (r: seq<int>)
    ensures |r| == |entries|
  {
    seq(|entries|, i requires 0 <= i < |entries| => entries[i].id as int)
  }

  function FieldIds(fields: seq<(string, UsedTypes.Entry)>): (r: seq<int>)
    ensures |r| == |fields|
  {
    seq(|fields|, i requires 0 <= i < |fields| => fields[i].1.id as int)
  }

  /** The ids that a type mentions, in order. */
  function Mentions(def: UsedTypes.Var): seq<int> {
    match def
    case ArrayVar(element, _) => [element.id]
    case OptionVar(some) => [some.id]
    case SequenceVar(item) => [item.id]
    case EnumVar(values) => CaseIds(values)
    case ResultVar(ok, ko) => [ok.id, ko.id]
    case StructVar(fields) => FieldIds(fields)
    case TupleVar(items) => IdsOf(items)
    case _ => []
  }

  function CaseIds(values: seq<UsedTypes.EnumCase>): seq<int> {
    if values == [] then []
    else CaseIds(values[..|values| - 1]) + ValueIds(values[|values| - 1].value)
  }

  function ValueIds(v: UsedTypes.EnumValue): seq<int> {
    match v
    case EntryValue(entry) => [entry.id]
    case VarValue(inner) =>
      match inner
      case ArrayVar(element, _) => [element.id]
      case StructVar(fields) => FieldIds(fields)
      case TupleVar(items) => IdsOf(items)
      case _ => []
  }

  // ------------------------------------------------- what is mentioned is referred to

  /** A variant written in place is nothing, a tuple, a struct or an array. */
  ghost predicate PlainCases(def: UsedTypes.Var) {
    def.EnumVar? ==> forall i :: 0 <= i < |def.values| ==> PlainValue(def.values[i].value)
  }

  ghost predicate PlainValue(v: UsedTypes.EnumValue) {
    v.VarValue? ==> v.inner.VoidVar? || v.inner.TupleVar? || v.inner.StructVar? || v.inner.ArrayVar?
  }

  /** The id is that of the `u8` of some binary data. */
  ghost predicate OfBytes(def: UsedTypes.Var, id: int) {
    match def
    case ArrayVar(element, _) => element.isU8 && element.id == id
    case SequenceVar(item) => item.isU8 && item.id == id
    case EnumVar(values) => exists i :: 0 <= i < |values| && BytesInside(values[i].value, id)
    case _ => false
  }

  ghost predicate BytesInside(v: UsedTypes.EnumValue, id: int) {
    v.VarValue? && v.inner.ArrayVar? && v.inner.element.isU8 && v.inner.element.id == id
  }

  lemma {:induction false} InCases(values: seq<UsedTypes.EnumCase>, id: int)
    ensures id in CaseIds(values) <==> exists i :: 0 <= i < |values| && id in ValueIds(values[i].value)
  {
    hide ValueIds;
    if values != [] {
      var n := |values| - 1;
      InCases(values[..n], id);
      assert values == values[..n] + [values[n]];
    }
  }

  lemma {:induction false} InVariants(variants: seq<UsedTypes.Variant>, id: nat)
    ensures id in UsedTypes.VariantRefs(variants)
      <==> exists i :: 0 <= i < |variants| && id in UsedTypes.PayloadRefs(variants[i].payload)
  {
    hide UsedTypes.PayloadRefs;
    if variants != [] {
      InVariants(variants[1..], id);
      assert variants == [variants[0]] + variants[1..];
    }
  }

  lemma MentionsOfFields(fields: seq<(string, UsedTypes.Entry)>, id: nat)
    ensures id as int in FieldIds(fields)
            <==> id in UsedTypes.Refs(UsedTypes.MapLookupToTypedef(UsedTypes.StructVar(fields)))
  {
    var refs := UsedTypes.Refs(UsedTypes.MapLookupToTypedef(UsedTypes.StructVar(fields)));
    assert |refs| == |fields| && forall i :: 0 <= i < |refs| ==> refs[i] == FieldIds(fields)[i];
  }

  lemma MentionsOfItems(items: seq<UsedTypes.Entry>, id: nat)
    ensures id as int in IdsOf(items) <==> id in UsedTypes.Refs(UsedTypes.MapLookupToTypedef(UsedTypes.TupleVar(items)))
  {
    var refs := UsedTypes.Refs(UsedTypes.MapLookupToTypedef(UsedTypes.TupleVar(items)));
    assert |refs| == |items| && forall i :: 0 <= i < |refs| ==> refs[i] == IdsOf(items)[i];
  }

  lemma MentionsOfValue(v: UsedTypes.EnumValue, payload: UsedTypes.Payload, id: nat)
    requires PlainValue(v)
    requires payload == match v
                        case EntryValue(entry) => UsedTypes.Lookup(entry.id)
                        case VarValue(inner) => UsedTypes.Inline(UsedTypes.MapLookupToTypedef(inner))
    ensures id as int in ValueIds(v) <==> id in UsedTypes.PayloadRefs(payload) || BytesInside(v, id)
  {
    if v.VarValue? {
      match v.inner
      case StructVar(fields) => MentionsOfFields(fields, id);
      case TupleVar(items) => MentionsOfItems(items, id);
      case _ =>
    }
  }

  lemma MentionsOfCases(values: seq<UsedTypes.EnumCase>, id: nat)
    requires PlainCases(UsedTypes.EnumVar(values))
    ensures id as int in CaseIds(values)
      <==> id in UsedTypes.VariantRefs(UsedTypes.EnumVariants(values)) || OfBytes(UsedTypes.EnumVar(values), id)
  {
    var variants := UsedTypes.EnumVariants(values);
    InCases(values, id);
    InVariants(variants, id);
    UsedTypes.SameCount(values);
    forall i | 0 <= i < |values|
      ensures id as int in ValueIds(values[i].value)
        <==> id in UsedTypes.PayloadRefs(variants[i].payload) || BytesInside(values[i].value, id)
    {
      UsedTypes.VariantOfCase(values, i);
      MentionsOfValue(values[i].value, variants[i].payload, id);
    }
    hide CaseIds, ValueIds, BytesInside, UsedTypes.EnumVariants, UsedTypes.PayloadRefs, UsedTypes.VariantRefs;
  }

  /** The ids that a type mentions are those that its definition refers to, and the `u8` of binary data. */
  lemma MentionsAreReferences(def: UsedTypes.Var, id: nat)
    requires PlainCases(def)
    ensures id as int in Mentions(def)
      <==> id in UsedTypes.Refs(UsedTypes.MapLookupToTypedef(def)) || OfBytes(def, id)
  {
    match def
    case EnumVar(values) => MentionsOfCases(values, id);
    case StructVar(fields) => MentionsOfFields(fields, id);
    case TupleVar(items) => MentionsOfItems(items, id);
    case _ =>
  }

  function BackRefs(g: LookupGraph, x: int): seq<int> {
    if x in g.nodes then g.nodes[x].backRefs else []
  }

  /** Every edge is recorded at both its ends. */
  ghost predicate Mirrored(g: LookupGraph) {
    forall x, y :: y in g.Refs(x) <==> x in BackRefs(g, y)
  }

  ghost predicate GraphOk(g: LookupGraph) {
    g.Valid() && Mirrored(g) && NoDuplicates(g.order)
  }

  /** `later` has one more node, if it was new. */
  function WithNode(g: LookupGraph, x: int): (r: LookupGraph)
    ensures x in r.nodes && r.nodes.Keys == g.nodes.Keys + {x}
    ensures forall y :: r.Refs(y) == g.Refs(y) && BackRefs(r, y) == BackRefs(g, y)
  {
    if x in g.nodes then g else LookupGraph(g.order + [x], g.nodes[x := Node([], [])])
  }

  lemma WithNodeOk(g: LookupGraph, x: int)
    requires GraphOk(g)
    ensures GraphOk(WithNode(g, x))
  {
    var r := WithNode(g, x);
    forall y ensures y in r.order <==> y in r.nodes {
      assert y in g.order <==> y in g.nodes;
    }
    forall a, b | a in r.nodes && b in r.Refs(a) ensures b in r.nodes {
      assert b in g.Refs(a);
    }
    forall a, b ensures b in r.Refs(a) <==> a in BackRefs(r, b) {
      assert r.Refs(a) == g.Refs(a) && BackRefs(r, b) == BackRefs(g, b);
    }
  }

  function Include(xs: seq<int>, x: int): seq<int> {
    if x in xs then xs else xs + [x]
  }

  function WithEdge(g: LookupGraph, x: int, y: int): (r: LookupGraph)
    requires x in g.nodes && y in g.nodes
  {
    var g1 := g.(nodes := g.nodes[x := g.nodes[x].(refs := Include(g.nodes[x].refs, y))]);
    g1.(nodes := g1.nodes[y := g1.nodes[y].(backRefs := Include(g1.nodes[y].backRefs, x))])
  }

  lemma WithEdgeIs(g: LookupGraph, x: int, y: int)
    requires x in g.nodes && y in g.nodes
    ensures var r := WithEdge(g, x, y);
            && r.nodes.Keys == g.nodes.Keys && r.order == g.order
            && (forall a, b :: b in r.Refs(a) <==> b in g.Refs(a) || (a == x && b == y))
            && (forall a, b :: a in BackRefs(r, b) <==> a in BackRefs(g, b) || (a == x && b == y))
  {
  }

  /** No edge is recorded twice. */
  lemma WithEdgeOnce(g: LookupGraph, x: int, y: int, z: int)
    requires x in g.nodes && y in g.nodes
    ensures NoDuplicates(g.Refs(z)) ==> NoDuplicates(WithEdge(g, x, y).Refs(z))
    ensures NoDuplicates(BackRefs(g, z)) ==> NoDuplicates(BackRefs(WithEdge(g, x, y), z))
  {
  }

  lemma WithEdgeOk(g: LookupGraph, x: int, y: int)
    requires GraphOk(g) && x in g.nodes && y in g.nodes
    ensures GraphOk(WithEdge(g, x, y))
  {
    WithEdgeIs(g, x, y);
    var r := WithEdge(g, x, y);
    hide WithEdge;
    forall a, b | a in r.nodes && b in r.Refs(a) ensures b in r.nodes {
      assert b in g.Refs(a) ==> b in g.nodes;
    }
  }

  /** `i` is the first place that gives its entry. */
  ghost predicate IsFirst(lookup: int -> LookupEntry, i: nat) {
    forall j: nat :: j < i ==> lookup(j).id != lookup(i).id
  }

  /** An entry mentions another, or an id stands for another. */
  ghost predicate IsEdge(lookup: int -> LookupEntry, n: nat, x: int, y: int) {
    || (0 <= x < n && lookup(x).id == y && y != x)
    || (exists i: nat :: i < n && EntryEdge(lookup, i, x, y))
  }

  ghost predicate EntryEdge(lookup: int -> LookupEntry, i: nat, x: int, y: int) {
    IsFirst(lookup, i) && lookup(i).id == x && y in Mentions(lookup(i).def)
  }

  ghost predicate EdgesAre(g: LookupGraph, lookup: int -> LookupEntry, n: nat) {
    forall x, y :: y in g.Refs(x) <==> IsEdge(lookup, n, x, y)
  }

  /** The nodes are the places of the lookup, the ids given there, and the ids mentioned. */
  ghost predicate NodesAre(nodes: set<int>, lookup: int -> LookupEntry, n: nat) {
    forall x :: x in nodes <==> IsNode(lookup, n, x)
  }

  ghost predicate IsNode(lookup: int -> LookupEntry, n: nat, x: int) {
    exists i: nat :: i < n && NodeAt(lookup, i, x)
  }

  ghost predicate NodeAt(lookup: int -> LookupEntry, i: nat, x: int) {
    x == i || x == lookup(i).id || (IsFirst(lookup, i) && x in Mentions(lookup(i).def))
  }

  /** The entry kept with a node is what the lookup gives for its id, there or where its id stands. */
  ghost predicate EntriesAre(entries: map<int, LookupEntry>, lookup: int -> LookupEntry, n: nat) {
    forall x :: x in entries ==> EntryIs(lookup, n, x, entries[x])
  }

  ghost predicate EntryIs(lookup: int -> LookupEntry, n: nat, x: int, entry: LookupEntry) {
    entry == lookup(x) || exists i: nat :: i < n && lookup(i).id == x && lookup(i) == entry
  }

  /** Nodes that were new got what the lookup gives for them. */
  ghost predicate NewEntries(before: map<int, LookupEntry>, after: map<int, LookupEntry>, lookup: int -> LookupEntry) {
    && before.Keys <= after.Keys
    && forall x :: x in after ==> after[x] == if x in before then before[x] else lookup(x)
  }

  /** Edges from one node were added, and no others. */
  ghost predicate AddsEdges(before: LookupGraph, after: LookupGraph, from: int, to: seq<int>) {
    forall x: int, y: int :: EdgeAdded(before, after, from, to, x, y)
  }

  ghost predicate EdgeAdded(before: LookupGraph, after: LookupGraph, from: int, to: seq<int>, x: int, y: int) {
    y in after.Refs(x) <==> y in before.Refs(x) || (x == from && y in to)
  }

  lemma AddsNone(g: LookupGraph, from: int)
    ensures AddsEdges(g, g, from, [])
  {
  }

  lemma AddsMore(g: LookupGraph, middle: LookupGraph, after: LookupGraph, from: int, to: seq<int>, y: int)
    requires AddsEdges(g, middle, from, to) && AddsEdges(middle, after, from, [y])
    ensures AddsEdges(g, after, from, to + [y])
  {
    forall a: int, b: int ensures EdgeAdded(g, after, from, to + [y], a, b) {
      assert EdgeAdded(g, middle, from, to, a, b) && EdgeAdded(middle, after, from, [y], a, b);
    }
  }

  class GraphBuilder {
    const lookup: int -> LookupEntry
    var graph: LookupGraph
    var entries: map<int, LookupEntry>   // what is kept with every node
    var visited: set<int>

    constructor (lookup: int -> LookupEntry)
      ensures this.lookup == lookup && Built(0)
    {
      this.lookup, graph, entries, visited := lookup, LookupGraph([], map[]), map[], {};
      new;
      NothingBuilt(lookup);
      assert graph.nodes.Keys == {};
    }

    ghost predicate Valid()
      reads this
    {
      GraphOk(graph) && entries.Keys == graph.nodes.Keys
    }

    /** The first `n` places have been looked at. */
    ghost predicate Built(n: nat)
      reads this
    {
      && Valid() && EdgesAre(graph, lookup, n) && NodesAre(graph.nodes.Keys, lookup, n)
         && EntriesAre(entries, lookup, n)
      && VisitedAre(visited, lookup, n)
    }

    method AddNode(x: int, entry: LookupEntry)
      requires Valid()
      modifies this`graph, this`entries
      ensures Valid() && graph == WithNode(old(graph), x)
      ensures entries == if x in old(entries) then old(entries) else old(entries)[x := entry]
    {
      hide GraphOk;
      WithNodeOk(graph, x);
      if x !in graph.nodes {
        entries := entries[x := entry];
      }
      graph := WithNode(graph, x);
    }

    method AddEdge(from: int, to: int)
      requires Valid()
      modifies this`graph, this`entries
      ensures Valid() && graph.nodes.Keys == old(graph).nodes.Keys + {from, to}
      ensures AddsEdges(old(graph), graph, from, [to]) && NewEntries(old(entries), entries, lookup)
    {
      hide WithNode, WithEdge, GraphOk;
      AddNode(from, lookup(from));
      AddNode(to, lookup(to));
      WithEdgeOk(graph, from, to);
      WithEdgeIs(graph, from, to);
      graph := WithEdge(graph, from, to);
    }

    method AddEdges(from: int, to: seq<int>)
      requires Valid()
      modifies this`graph, this`entries
      ensures Valid() && graph.nodes.Keys == old(graph).nodes.Keys + Touched(from, to)
      ensures AddsEdges(old(graph), graph, from, to) && NewEntries(old(entries), entries, lookup)
    {
      hide GraphOk, AddsEdges, NewEntries, Touched;
      AddsNone(graph, from);
      TouchedNone(from);
      NewNone(entries, lookup);
      assert to[..0] == [];
      for k := 0 to |to|
        invariant Valid() && graph.nodes.Keys == old(graph).nodes.Keys + Touched(from, to[..k])
        invariant AddsEdges(old(graph), graph, from, to[..k]) && NewEntries(old(entries), entries, lookup)
      {
        ghost var before, kept := graph, entries;
        AddEdge(from, to[k]);
        AddsMore(old(graph), before, graph, from, to[..k], to[k]);
        NewMore(old(entries), kept, entries, lookup);
        TouchedMore(from, to[..k], to[k]);
        assert to[..k + 1] == to[..k] + [to[k]];
      }
      assert to[..|to|] == to;
    }

    /** Looks at one more place of the lookup. */
    method Visit(i: nat)
      requires Built(i)
      modifies this
      ensures Built(i + 1)
    {
      hide GraphOk, EdgesAre, NodesAre, EntriesAre, AddsEdges, NewEntries, Mentions, VisitedAre, IsFirst, WithNode;
      var entry := lookup(i);
      ghost var before, kept := graph, entries;
      NewNone(kept, lookup);
      VisitedNext(visited, lookup, i);
      if i != entry.id {
        AddEdge(i, entry.id);
      }
      ghost var middle := graph;
      EntriesMore(kept, entries, lookup, i);
      if entry.id in visited {
        AddsNone(middle, entry.id);
        NodesAgain(lookup, i, before.nodes.Keys, graph.nodes.Keys);
        EntriesNext(entries, entries, lookup, i);
      } else {
        VisitEntry(i, entry);
        NodesFirst(lookup, i, before.nodes.Keys, graph.nodes.Keys);
      }
      MoreEdges(lookup, i, before, middle, graph);
    }

    /** Adds the node of an entry with what it mentions. */
    method VisitEntry(i: nat, entry: LookupEntry)
      requires Valid() && EntriesAre(entries, lookup, i) && entry == lookup(i)
      modifies this
      ensures Valid() && EntriesAre(entries, lookup, i + 1) && visited == old(visited) + {entry.id}
      ensures AddsEdges(old(graph), graph, entry.id, Mentions(entry.def))
      ensures graph.nodes.Keys == old(graph).nodes.Keys + Touched(entry.id, Mentions(entry.def)) + {entry.id}
    {
      hide GraphOk, EntriesAre, AddsEdges, NewEntries, Mentions, Touched, WithNode;
      visited := visited + {entry.id};
      ghost var kept := entries;
      AddEdges(entry.id, Mentions(entry.def));
      EntriesMore(kept, entries, lookup, i);
      kept := entries;
      AddsStill(old(graph), graph, entry.id, entry.id, Mentions(entry.def));
      AddNode(entry.id, entry);
      EntriesNext(kept, entries, lookup, i);
    }
  }

  ghost predicate VisitedAre(visited: set<int>, lookup: int -> LookupEntry, n: nat) {
    forall id :: id in visited <==> exists j: nat :: j < n && lookup(j).id == id
  }

  lemma VisitedNext(visited: set<int>, lookup: int -> LookupEntry, i: nat)
    requires VisitedAre(visited, lookup, i)
    ensures lookup(i).id in visited <==> !IsFirst(lookup, i)
    ensures VisitedAre(visited + {lookup(i).id}, lookup, i + 1)
    ensures lookup(i).id in visited ==> VisitedAre(visited, lookup, i + 1)
  {
  }

  ghost function Touched(from: int, to: seq<int>): set<int> {
    (set y | y in to) + (if to == [] then {} else {from})
  }

  lemma TouchedNone(from: int)
    ensures Touched(from, []) == {}
  {
  }

  lemma TouchedMore(from: int, to: seq<int>, y: int)
    ensures Touched(from, to + [y]) == Touched(from, to) + {from, y}
  {
  }

  lemma NewNone(entries: map<int, LookupEntry>, lookup: int -> LookupEntry)
    ensures NewEntries(entries, entries, lookup)
  {
  }

  lemma NewMore(a: map<int, LookupEntry>, b: map<int, LookupEntry>, c: map<int, LookupEntry>,
                lookup: int -> LookupEntry)
    requires NewEntries(a, b, lookup) && NewEntries(b, c, lookup)
    ensures NewEntries(a, c, lookup)
  {
  }

  lemma EntriesMore(a: map<int, LookupEntry>, b: map<int, LookupEntry>, lookup: int -> LookupEntry, n: nat)
    requires EntriesAre(a, lookup, n) && NewEntries(a, b, lookup)
    ensures EntriesAre(b, lookup, n)
  {
    forall x | x in b ensures EntryIs(lookup, n, x, b[x]) {
      assert x in a ==> EntryIs(lookup, n, x, a[x]);
    }
  }

  lemma EntriesNext(a: map<int, LookupEntry>, b: map<int, LookupEntry>, lookup: int -> LookupEntry, i: nat)
    requires EntriesAre(a, lookup, i) && (b == a || b == a[lookup(i).id := lookup(i)])
    ensures EntriesAre(b, lookup, i + 1)
  {
    forall x | x in b ensures EntryIs(lookup, i + 1, x, b[x]) {
      assert x in a ==> EntryIs(lookup, i, x, a[x]);
    }
  }

  /** If ids stand for themselves, the entry kept with a node is what the lookup gives for it. */
  lemma EntryOfNode(entries: map<int, LookupEntry>, lookup: int -> LookupEntry, n: nat, x: int)
    requires EntriesAre(entries, lookup, n) && x in entries
    requires forall i: nat :: i < n ==> lookup(lookup(i).id) == lookup(i)
    ensures entries[x] == lookup(x)
  {
    assert EntryIs(lookup, n, x, entries[x]);
  }

  lemma NodesFirst(lookup: int -> LookupEntry, i: nat, before: set<int>, after: set<int>)
    requires NodesAre(before, lookup, i) && IsFirst(lookup, i)
    requires after == before + {i, lookup(i).id} + Touched(lookup(i).id, Mentions(lookup(i).def))
    ensures NodesAre(after, lookup, i + 1)
  {
    hide Mentions, IsFirst;
    forall x ensures x in after <==> IsNode(lookup, i + 1, x) {
      NodeMore(lookup, i, x);
      assert x in before <==> IsNode(lookup, i, x);
    }
  }

  lemma NodesAgain(lookup: int -> LookupEntry, i: nat, before: set<int>, after: set<int>)
    requires NodesAre(before, lookup, i) && !IsFirst(lookup, i)
    requires after == before + (if i == lookup(i).id then {} else {i, lookup(i).id})
    ensures NodesAre(after, lookup, i + 1)
  {
    var j: nat :| j < i && lookup(j).id == lookup(i).id;
    assert NodeAt(lookup, j, lookup(i).id);
    hide Mentions, IsFirst;
    forall x ensures x in after <==> IsNode(lookup, i + 1, x) {
      NodeMore(lookup, i, x);
      assert x in before <==> IsNode(lookup, i, x);
    }
  }

  lemma NodeMore(lookup: int -> LookupEntry, i: nat, x: int)
    ensures IsNode(lookup, i + 1, x) <==> IsNode(lookup, i, x) || NodeAt(lookup, i, x)
  {
    hide NodeAt;
  }

  /**
   * The graph of all entries: its edges are exactly the mentions, its nodes exactly the ids that occur,
   * each with its entry.
   */
  method BuildLookupGraph(lookup: int -> LookupEntry, lookupLength: nat)
    returns (g: LookupGraph, entries: map<int, LookupEntry>)
    ensures GraphOk(g) && EdgesAre(g, lookup, lookupLength) && NodesAre(g.nodes.Keys, lookup, lookupLength)
    ensures entries.Keys == g.nodes.Keys && EntriesAre(entries, lookup, lookupLength)
  {
    hide GraphOk, EdgesAre, NodesAre, EntriesAre, VisitedAre;
    var builder := new GraphBuilder(lookup);
    for i := 0 to lookupLength
      invariant fresh(builder) && builder.lookup == lookup && builder.Built(i)
    {
      builder.Visit(i);
    }
    g, entries := builder.graph, builder.entries;
  }

  lemma AddsStill(before: LookupGraph, after: LookupGraph, x: int, from: int, to: seq<int>)
    requires AddsEdges(before, after, from, to)
    ensures AddsEdges(before, WithNode(after, x), from, to)
  {
    forall a: int, b: int ensures EdgeAdded(before, WithNode(after, x), from, to, a, b) {
      assert EdgeAdded(before, after, from, to, a, b) && WithNode(after, x).Refs(a) == after.Refs(a);
    }
  }

  lemma NothingBuilt(lookup: int -> LookupEntry)
    ensures GraphOk(LookupGraph([], map[])) && EdgesAre(LookupGraph([], map[]), lookup, 0)
    ensures NodesAre({}, lookup, 0) && EntriesAre(map[], lookup, 0) && VisitedAre({}, lookup, 0)
  {
  }

  lemma MoreEdges(lookup: int -> LookupEntry, i: nat, before: LookupGraph, middle: LookupGraph, after: LookupGraph)
    requires EdgesAre(before, lookup, i)
    requires if i != lookup(i).id then AddsEdges(before, middle, i, [lookup(i).id]) else middle == before
    requires AddsEdges(middle, after, lookup(i).id, if IsFirst(lookup, i) then Mentions(lookup(i).def) else [])
    ensures EdgesAre(after, lookup, i + 1)
  {
    hide Mentions, IsFirst;
    forall x, y ensures y in after.Refs(x) <==> IsEdge(lookup, i + 1, x, y) {
      assert EdgeAdded(middle, after, lookup(i).id, if IsFirst(lookup, i) then Mentions(lookup(i).def) else [], x, y);
      if i != lookup(i).id {
        assert EdgeAdded(before, middle, i, [lookup(i).id], x, y);
      }
      EdgeMore(lookup, i, x, y);
    }
  }

  lemma EdgeMore(lookup: int -> LookupEntry, i: nat, x: int, y: int)
    ensures IsEdge(lookup, i + 1, x, y)
            <==>
            IsEdge(lookup, i, x, y) || (i != lookup(i).id && x == i && y == lookup(i).id) || EntryEdge(lookup, i, x, y)
  {
    hide EntryEdge;
  }

  // ---------------------------------------------------------------- connected parts

  /** The nodes next to `x`, in either direction. */
  ghost function Near(g: LookupGraph): int -> set<int> {
    (x: int) => Elements(g.Refs(x) + BackRefs(g, x))
  }

  /** The smallest closed set around `id`: what is connected with it, in whichever direction. */
  ghost predicate IsConnectedPart(g: LookupGraph, id: int, s: set<int>) {
    IsClosure(Near(g), {id}, s)
  }

  /** A connected part is that of each of its nodes. */
  lemma SamePart(g: LookupGraph, id: int, s: set<int>, x: int)
    requires Mirrored(g) && IsConnectedPart(g, id, s) && x in s
    ensures IsConnectedPart(g, x, s)
  {
    forall t: set<int> | Closed(Near(g), t) && {x} <= t ensures s <= t {
      if id !in t {
        OutsidePart(g, id, s, t);
      }
    }
  }

  lemma OutsidePart(g: LookupGraph, id: int, s: set<int>, t: set<int>)
    requires Mirrored(g) && IsConnectedPart(g, id, s) && Closed(Near(g), t) && id !in t
    ensures s !! t
  {
    Complement(g, s, t);
    assert s <= s - t;
  }

  lemma Complement(g: LookupGraph, s: set<int>, t: set<int>)
    requires Mirrored(g) && Closed(Near(g), s) && Closed(Near(g), t)
    ensures Closed(Near(g), s - t)
  {
    forall x | x in s - t ensures Near(g)(x) <= s - t {
      assert Near(g)(x) <= s;
      forall y | y in Near(g)(x) ensures y !in t {
        BothWays(g, x, y);
        assert y in t ==> Near(g)(y) <= t;
      }
    }
  }

  lemma BothWays(g: LookupGraph, x: int, y: int)
    requires Mirrored(g) && y in Near(g)(x)
    ensures x in Near(g)(y)
  {
  }

  lemma AllTogether(a: set<int>, b: set<int>, c: set<int>)
    ensures a + (b + c) == (a + b) + c
  {
  }

  lemma NeighboursInside(g: LookupGraph, x: int)
    requires GraphOk(g) && x in g.nodes
    ensures forall y :: y in g.Refs(x) + BackRefs(g, x) ==> y in g.nodes
  {
    forall y | y in BackRefs(g, x) ensures y in g.nodes {
      assert x in g.Refs(y);
    }
  }

  ghost predicate SameNodes(g: LookupGraph, nodes: map<int, Node>) {
    forall x :: x in nodes ==> x in g.nodes && nodes[x] == g.nodes[x]
  }

  lemma NodeAdded(g: LookupGraph, nodes: map<int, Node>, id: int)
    requires SameNodes(g, nodes) && id in g.nodes
    ensures SameNodes(g, nodes[id := g.nodes[id]]) && nodes[id := g.nodes[id]].Keys == nodes.Keys + {id}
  {
  }

  /** A part of the graph that is being filled; the cache shares it among its nodes. */
  class Subgraph {
    var nodes: map<int, Node>

    constructor ()
      ensures nodes == map[]
    {
      nodes := map[];
    }
  }

  /** The nodes in `added` are cached under `result`, and nothing else has changed. */
  ghost predicate Cached(before: map<int, Subgraph>, after: map<int, Subgraph>, result: Subgraph, added: set<int>) {
    && after.Keys == before.Keys + added
    && forall x :: x in after ==> after[x] == if x in added then result else before[x]
  }

  lemma CachedOne(cache: map<int, Subgraph>, result: Subgraph, id: int)
    ensures Cached(cache, cache[id := result], result, {id})
  {
  }

  lemma CachedOn(a: map<int, Subgraph>, b: map<int, Subgraph>, c: map<int, Subgraph>, result: Subgraph, s: set<int>,
                 t: set<int>)
    requires Cached(a, b, result, s) && Cached(b, c, result, t)
    ensures Cached(a, c, result, s + t)
  {
  }

  /** The part and the cache after walking some roots. */
  ghost predicate Reached(g: LookupGraph, nodes0: map<int, Node>, nodes: map<int, Node>, cache0: map<int, Subgraph>,
                          cache: map<int, Subgraph>,
                          result: Subgraph, roots: set<int>, added: set<int>) {
    && SameNodes(g, nodes) && nodes.Keys == nodes0.Keys + added
    && Walked(Near(g), nodes0.Keys, nodes.Keys, roots) && Cached(cache0, cache, result, added)
  }

  lemma ReachedNone(g: LookupGraph, nodes: map<int, Node>, cache: map<int, Subgraph>, result: Subgraph)
    requires SameNodes(g, nodes)
    ensures Reached(g, nodes, nodes, cache, cache, result, {}, {})
    ensures forall id :: id in nodes ==> Reached(g, nodes, nodes, cache, cache, result, {id}, {})
  {
    hide Walked;
    WalkedNone(Near(g), nodes.Keys, {});
    forall id | id in nodes ensures Reached(g, nodes, nodes, cache, cache, result, {id}, {}) {
      WalkedNone(Near(g), nodes.Keys, {id});
    }
  }

  lemma ReachedMore(g: LookupGraph, nodes0: map<int, Node>, nodes1: map<int, Node>, nodes2: map<int, Node>,
                    cache0: map<int, Subgraph>, cache1: map<int, Subgraph>, cache2: map<int, Subgraph>,
                    result: Subgraph, roots: set<int>, more: set<int>, added: set<int>, added': set<int>)
    requires Reached(g, nodes0, nodes1, cache0, cache1, result, roots, added)
    requires Reached(g, nodes1, nodes2, cache1, cache2, result, more, added')
    ensures Reached(g, nodes0, nodes2, cache0, cache2, result, roots + more, added + added')
  {
    hide Walked, Cached, SameNodes;
    WalkedMore(Near(g), nodes0.Keys, nodes1.Keys, nodes2.Keys, roots, more);
    CachedOn(cache0, cache1, cache2, result, added, added');
    AllTogether(nodes0.Keys, added, added');
  }

  lemma NoFewer(g: LookupGraph, nodes0: map<int, Node>, nodes: map<int, Node>, cache0: map<int, Subgraph>,
                cache: map<int, Subgraph>,
                result: Subgraph, roots: set<int>, added: set<int>)
    requires Reached(g, nodes0, nodes, cache0, cache, result, roots, added)
    ensures SameNodes(g, nodes) && |g.nodes.Keys - nodes.Keys| <= |g.nodes.Keys - nodes0.Keys|
  {
    NotMore(g.nodes.Keys, nodes0.Keys, nodes0.Keys + added);
  }

  /** A new node, and then all its neighbours. */
  lemma ReachedNode(g: LookupGraph, nodes0: map<int, Node>, nodes: map<int, Node>, cache0: map<int, Subgraph>,
                    cache: map<int, Subgraph>,
                    result: Subgraph, id: int, added: set<int>)
    requires id in g.nodes && SameNodes(g, nodes0)
    requires Reached(g, nodes0[id := g.nodes[id]], nodes, cache0[id := result], cache, result,
                     Elements(g.nodes[id].refs + g.nodes[id].backRefs), added)
    ensures Reached(g, nodes0, nodes, cache0, cache, result, {id}, {id} + added)
  {
    hide Walked, Cached, SameNodes;
    NodeAdded(g, nodes0, id);
    BothRefs(g, id);
    WalkedInto(Near(g), nodes0.Keys, nodes.Keys, id);
    CachedOne(cache0, result, id);
    CachedOn(cache0, cache0[id := result], cache, result, {id}, added);
    AllTogether(nodes0.Keys, {id}, added);
  }

  class SubgraphCache {
    const graph: LookupGraph
    var cache: map<int, Subgraph>

    constructor (graph: LookupGraph)
      requires GraphOk(graph)
      ensures Ok() && this.graph == graph && cache == map[]
    {
      this.graph, cache := graph, map[];
    }

    /** Every cached part is the connected part of its id, with the nodes of the graph. */
    ghost predicate Ok()
      reads this, cache.Values
    {
      GraphOk(graph) && forall id :: id in cache ==> IsPartOf(id, cache[id].nodes)
    }

    ghost predicate IsPartOf(id: int, nodes: map<int, Node>)
    {
      IsConnectedPart(graph, id, nodes.Keys) && SameNodes(graph, nodes)
    }

    /** Adds to the part what is connected with `id`. */
    method Walk(id: int, result: Subgraph) returns (ghost added: set<int>)
      requires GraphOk(graph) && id in graph.nodes && SameNodes(graph, result.nodes)
      modifies result, this`cache
      ensures Reached(graph, old(result.nodes), result.nodes, old(cache), cache, result, {id}, added)
      decreases |graph.nodes.Keys - result.nodes.Keys|, 0
    {
      hide *;
      ghost var nodes0, cache0 := result.nodes, cache;
      if id in result.nodes {
        ReachedNone(graph, nodes0, cache0, result);
        return {};
      }
      var node := graph.nodes[id];
      NodeAdded(graph, nodes0, id);
      OneLess(graph.nodes.Keys, nodes0.Keys, id);
      NeighboursInside(graph, id);
      BothRefs(graph, id);
      result.nodes := result.nodes[id := node];
      cache := cache[id := result];
      ghost var more := WalkAll(node.refs + node.backRefs, result);
      ReachedNode(graph, nodes0, result.nodes, cache0, cache, result, id, more);
      added := {id} + more;
    }

    method WalkAll(ids: seq<int>, result: Subgraph) returns (ghost added: set<int>)
      requires GraphOk(graph) && (forall x :: x in ids ==> x in graph.nodes) && SameNodes(graph, result.nodes)
      modifies result, this`cache
      ensures Reached(graph, old(result.nodes), result.nodes, old(cache), cache, result, Elements(ids), added)
      decreases |graph.nodes.Keys - result.nodes.Keys|, 1
    {
      hide *;
      ghost var nodes0, cache0 := result.nodes, cache;
      added := {};
      ReachedNone(graph, nodes0, cache0, result);
      assert ids[..0] == [];
      ElementsOfNone<int>();
      for k := 0 to |ids|
        invariant Reached(graph, nodes0, result.nodes, cache0, cache, result, Elements(ids[..k]), added)
      {
        ghost var nodes1, cache1 := result.nodes, cache;
        NoFewer(graph, nodes0, nodes1, cache0, cache1, result, Elements(ids[..k]), added);
        ghost var more := Walk(ids[k], result);
        ReachedMore(graph, nodes0, nodes1, result.nodes, cache0, cache1, cache, result, Elements(ids[..k]), {ids[k]},
                    added, more);
        NextPrefix(ids, k);
        ElementsOfOne(ids[k]);
        ElementsOfBoth(ids[..k], [ids[k]]);
        added := added + more;
      }
      assert ids[..|ids|] == ids;
    }

    /** The connected part around a node, whatever was asked before. */
    method GetSubgraph(id: int) returns (result: Subgraph)
      requires Ok() && id in graph.nodes
      modifies this`cache
      ensures Ok() && IsPartOf(id, result.nodes) && id in cache && cache[id] == result
      ensures forall x :: x in old(cache) ==> x in cache && cache[x].nodes.Keys == old(cache)[x].nodes.Keys
    {
      if id in cache {
        return cache[id];
      }
      ghost var added;
      result, added := Collect(id);
      hide GraphOk, SameNodes, IsConnectedPart;
      forall x | x in old(cache) ensures x in cache && cache[x].nodes.Keys == old(cache)[x].nodes.Keys {
        assert IsPartOf(x, old(cache)[x].nodes);
        OnePart(graph, x, cache[x].nodes.Keys, old(cache)[x].nodes.Keys);
      }
    }

    /** Collects the part of a node, and caches it for all its nodes. */
    method Collect(id: int) returns (result: Subgraph, ghost added: set<int>)
      requires GraphOk(graph) && id in graph.nodes
      modifies this`cache
      ensures fresh(result) && id in added && Cached(old(cache), cache, result, added)
      ensures forall x :: x in added ==> IsPartOf(x, result.nodes)
    {
      hide GraphOk, Reached, SameNodes, IsConnectedPart, Cached;
      result := new Subgraph();
      NoNodes(graph);
      added := Walk(id, result);
      WholePart(graph, id, result.nodes, old(cache), cache, result, added);
    }
  }

  lemma NoNodes(g: LookupGraph)
    ensures SameNodes(g, map[])
  {
  }

  /** What a walk from one node collects is the part of each node in it. */
  lemma WholePart(g: LookupGraph, id: int, nodes: map<int, Node>, cache0: map<int, Subgraph>, cache: map<int, Subgraph>,
                  result: Subgraph, added: set<int>)
    requires GraphOk(g) && Reached(g, map[], nodes, cache0, cache, result, {id}, added)
    ensures SameNodes(g, nodes) && id in added && forall x :: x in added ==> IsConnectedPart(g, x, nodes.Keys)
    ensures Cached(cache0, cache, result, added)
  {
    assert nodes.Keys == added;
    WalkedWhole(Near(g), added, {id});
    hide IsClosure, Walked, Near;
    forall x | x in added ensures IsConnectedPart(g, x, added) {
      SamePart(g, id, added, x);
    }
  }

  lemma OnePart(g: LookupGraph, x: int, s: set<int>, t: set<int>)
    requires IsConnectedPart(g, x, s) && IsConnectedPart(g, x, t)
    ensures s == t
  {
  }

  lemma BothRefs(g: LookupGraph, x: int)
    requires x in g.nodes
    ensures g.Refs(x) + BackRefs(g, x) == g.nodes[x].refs + g.nodes[x].backRefs
  {
  }
}
