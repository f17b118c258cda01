/** From the types of the metadata to the leaves of the type tree, and that these mean what the types mean. */
module TypeTree {
  import opened Basics
  import opened Closures
  import opened DecodeCollect

  datatype Variant = Variant(index: nat, fields: seq<nat>)

  datatype BitOrder = Lsb0 | Msb0

  datatype Def =
    | Primitive(prim: Prim)
    | CompactOf(inner: nat)
    | CompositeOf(fields: seq<nat>)
    | VariantOf(variants: seq<Variant>)
    | SequenceOf(item: nat)
    | ArrayOf(len: nat, element: nat)
    | TupleOf(types: seq<nat>)
    | BitSequenceOf(storeType: nat, order: Option<BitOrder>)   // no order if its type names none

  type Defs = map<nat, Def>

  /** The types that a definition mentions, as far as they are looked into. */
  function Children(def: Def): seq<nat> {
    match def
    case CompositeOf(fields) => fields
    case VariantOf(variants) => FieldsOf(variants)
    case SequenceOf(item) => [item]
    case ArrayOf(_, element) => [element]
    case TupleOf(types) => types
    case _ => []
  }

  function FieldsOf(variants: seq<Variant>): seq<nat> {
    if variants == [] then [] else FieldsOf(variants[..|variants| - 1]) + variants[|variants| - 1].fields
  }

  lemma {:induction false} FieldIn(variants: seq<Variant>, v: nat, k: nat)
    requires v < |variants| && k < |variants[v].fields|
    ensures variants[v].fields[k] in FieldsOf(variants)
  {
    if v < |variants| - 1 {
      assert variants[..|variants| - 1][v] == variants[v];
      FieldIn(variants[..|variants| - 1], v, k);
    }
  }

  /** Types without content, such as `()` and an enumeration without variants, are not kept. */
  predicate IsEmpty(def: Def) {
    match def
    case CompositeOf(fields) => fields == []
    case VariantOf(variants) => variants == []
    case TupleOf(types) => types == []
    case _ => false
  }

  predicate IsKept(def: Def) {
    !def.Primitive? && !def.CompactOf? && !IsEmpty(def)
  }

  predicate Kept(defs: Defs, id: nat) {
    id in defs && IsKept(defs[id])
  }

  ghost predicate AllDefined(defs: Defs) {
    forall id, child :: id in defs && child in Children(defs[id]) ==> child in defs
  }

  // -------------------------------------------------------------- accessible types

  /** The types among `types` that are kept. */
  ghost function KeptOf(defs: Defs, types: seq<nat>): set<nat> {
    set id | id in types && Kept(defs, id)
  }

  /** The kept types that a type mentions. */
  ghost function Leads(defs: Defs): nat -> set<nat> {
    (id: nat) => if id in defs then KeptOf(defs, Children(defs[id])) else {}
  }

  ghost predicate AllKept(defs: Defs, types: set<nat>) {
    forall id :: id in types ==> Kept(defs, id)
  }

  /** A walk over a part of the roots. */
  ghost predicate Collected(defs: Defs, before: set<nat>, after: set<nat>, roots: seq<nat>) {
    AllKept(defs, after) && Walked(Leads(defs), before, after, KeptOf(defs, roots))
  }

  lemma CollectedNone(defs: Defs, types: set<nat>)
    requires AllKept(defs, types)
    ensures Collected(defs, types, types, [])
  {
    WalkedNone(Leads(defs), types, {});
  }

  lemma CollectedMore(defs: Defs, before: set<nat>, middle: set<nat>, after: set<nat>, roots: seq<nat>, more: seq<nat>)
    requires Collected(defs, before, middle, roots) && Collected(defs, middle, after, more)
    ensures Collected(defs, before, after, roots + more)
  {
    WalkedMore(Leads(defs), before, middle, after, KeptOf(defs, roots), KeptOf(defs, more));
    hide Walked, Leads;
    assert KeptOf(defs, roots + more) == KeptOf(defs, roots) + KeptOf(defs, more);
  }

  /** A type that is kept is added before what it mentions is walked. */
  lemma CollectedType(defs: Defs, before: set<nat>, after: set<nat>, id: nat)
    requires Kept(defs, id) && Collected(defs, before + {id}, after, Children(defs[id]))
    ensures Collected(defs, before, after, [id])
  {
    assert Leads(defs)(id) == KeptOf(defs, Children(defs[id]));
    WalkedInto(Leads(defs), before, after, id);
    hide Walked, Leads;
    assert KeptOf(defs, [id]) == {id};
  }

  lemma CollectedNothing(defs: Defs, types: set<nat>, id: nat)
    requires AllKept(defs, types) && (id in types || !Kept(defs, id))
    ensures Collected(defs, types, types, [id])
  {
    WalkedNone(Leads(defs), types, KeptOf(defs, [id]));
  }

  lemma LeftToWalk(defs: Defs, types: set<nat>, id: nat)
    requires AllKept(defs, types) && id in defs && id !in types
    ensures |defs.Keys - (types + {id})| < |defs.Keys - types|
  {
    assert defs.Keys - (types + {id}) == (defs.Keys - types) - {id};
  }

  lemma FewerToWalk(defs: Defs, types: set<nat>, more: set<nat>)
    requires types <= more
    ensures |defs.Keys - more| <= |defs.Keys - types|
  {
    SubsetIsSmaller(defs.Keys - more, defs.Keys - types);
  }

  class Collector {
    const definitions: Defs
    var types: set<nat>

    constructor (definitions: Defs)
      ensures this.definitions == definitions && types == {}
    {
      this.definitions, types := definitions, {};
    }

    method CollectTypesFromId(id: nat)
      requires AllDefined(definitions) && id in definitions && AllKept(definitions, types)
      modifies this`types
      ensures Collected(definitions, old(types), types, [id])
      decreases |definitions.Keys - types|, 0, 0
    {
      hide Collected, AllKept, AllDefined, Children;
      if id in types || !IsKept(definitions[id]) {
        CollectedNothing(definitions, types, id);
        return;
      }
      LeftToWalk(definitions, types, id);
      AddKept(definitions, types, id);
      DefinedChildren(definitions, id);
      types := types + {id};
      if definitions[id].VariantOf? {
        CollectVariants(definitions[id].variants);
      } else {
        CollectAll(Children(definitions[id]));
      }
      CollectedType(definitions, old(types), types, id);
    }

    method CollectAll(ids: seq<nat>)
      requires AllDefined(definitions) && (forall id :: id in ids ==> id in definitions) && AllKept(definitions, types)
      modifies this`types
      ensures Collected(definitions, old(types), types, ids)
      decreases |definitions.Keys - types|, 1, 0
    {
      hide Collected, AllKept, AllDefined;
      CollectedNone(definitions, types);
      assert ids[..0] == [];
      for k := 0 to |ids|
        invariant old(types) <= types && AllKept(definitions, types)
        invariant Collected(definitions, old(types), types, ids[..k])
      {
        ghost var before := types;
        FewerToWalk(definitions, old(types), types);
        CollectTypesFromId(ids[k]);
        CollectedMore(definitions, old(types), before, types, ids[..k], [ids[k]]);
        assert ids[..k + 1] == ids[..k] + [ids[k]];
        Bigger(definitions, old(types), types, ids[..k + 1]);
      }
      assert ids[..|ids|] == ids;
    }

    method CollectVariants(variants: seq<Variant>)
      requires AllDefined(definitions) && (forall id :: id in FieldsOf(variants) ==> id in definitions)
               && AllKept(definitions, types)
      modifies this`types
      ensures Collected(definitions, old(types), types, FieldsOf(variants))
      decreases |definitions.Keys - types|, 2, 0
    {
      hide Collected, AllKept, AllDefined;
      CollectedNone(definitions, types);
      for k := 0 to |variants|
        invariant old(types) <= types && AllKept(definitions, types)
        invariant Collected(definitions, old(types), types, FieldsOf(variants[..k]))
      {
        ghost var before := types;
        FewerToWalk(definitions, old(types), types);
        forall i | 0 <= i < |variants[k].fields| ensures variants[k].fields[i] in FieldsOf(variants) {
          FieldIn(variants, k, i);
        }
        CollectAll(variants[k].fields);
        CollectedMore(definitions, old(types), before, types, FieldsOf(variants[..k]), variants[k].fields);
        assert variants[..k + 1][..k] == variants[..k];
        Bigger(definitions, old(types), types, FieldsOf(variants[..k + 1]));
      }
      assert variants[..|variants|] == variants;
    }
  }

  lemma AddKept(defs: Defs, types: set<nat>, id: nat)
    requires AllKept(defs, types) && Kept(defs, id)
    ensures AllKept(defs, types + {id})
  {
  }

  lemma DefinedChildren(defs: Defs, id: nat)
    requires AllDefined(defs) && id in defs
    ensures forall child :: child in Children(defs[id]) ==> child in defs
    ensures defs[id].VariantOf? ==> Children(defs[id]) == FieldsOf(defs[id].variants)
  {
  }

  lemma Bigger(defs: Defs, before: set<nat>, after: set<nat>, roots: seq<nat>)
    requires Collected(defs, before, after, roots)
    ensures before <= after && AllKept(defs, after)
  {
  }

  /** The numbering is dense and keeps the order of the ids. */
  ghost predicate Numbers(ids: map<nat, nat>, sorted: seq<nat>) {
    && Increasing(sorted)
    && (forall id :: id in ids <==> id in sorted)
    && (forall k :: 0 <= k < |sorted| ==> sorted[k] in ids && ids[sorted[k]] == k)
  }

  // ------------------------------------------------------ what makes a type accessible

  /** The type gets leaves: it is no plain value, and it has fields, items or variants, or is a bit sequence. */
  ghost predicate HasContent(def: Def) {
    || (def.CompositeOf? && |def.fields| > 0) || (def.TupleOf? && |def.types| > 0)
    || (def.VariantOf? && |def.variants| > 0)
    || def.SequenceOf? || def.ArrayOf? || def.BitSequenceOf?
  }

  ghost predicate Mentions(def: Def, id: nat) {
    || (def.CompositeOf? && id in def.fields) || (def.TupleOf? && id in def.types)
    || (def.VariantOf? && exists v :: v in def.variants && id in v.fields)
    || (def.SequenceOf? && id == def.item) || (def.ArrayOf? && id == def.element)
  }

  ghost predicate LeadsTo(defs: Defs, def: Def, child: nat) {
    Mentions(def, child) && child in defs && HasContent(defs[child])
  }

  /** With the roots the set has all types with content that its types mention. */
  ghost predicate Gathers(defs: Defs, roots: seq<nat>, s: set<nat>) {
    && (forall id :: id in roots && id in defs && HasContent(defs[id]) ==> id in s)
    && forall id, child :: id in s && id in defs && LeadsTo(defs, defs[id], child) ==> child in s
  }

  ghost predicate Accessible(defs: Defs, roots: seq<nat>, s: set<nat>) {
    Gathers(defs, roots, s) && forall t: set<nat> :: Gathers(defs, roots, t) ==> s <= t
  }

  lemma {:induction false} FieldsAreMentioned(variants: seq<Variant>, id: nat)
    ensures id in FieldsOf(variants) <==> exists v :: v in variants && id in v.fields
  {
    if variants != [] {
      var n := |variants| - 1;
      FieldsAreMentioned(variants[..n], id);
      assert variants == variants[..n] + [variants[n]];
    }
  }

  lemma ChildrenAreMentioned(def: Def, id: nat)
    ensures id in Children(def) <==> Mentions(def, id)
  {
    if def.VariantOf? {
      FieldsAreMentioned(def.variants, id);
    }
  }

  lemma LeadsToMentioned(defs: Defs, id: nat, child: nat)
    ensures child in Leads(defs)(id) <==> id in defs && LeadsTo(defs, defs[id], child)
  {
    if id in defs {
      ChildrenAreMentioned(defs[id], child);
    }
  }

  lemma ClosedGathers(defs: Defs, roots: seq<nat>, s: set<nat>)
    ensures Gathers(defs, roots, s) <==> Closed(Leads(defs), s) && KeptOf(defs, roots) <= s
  {
    forall id, child ensures child in Leads(defs)(id) <==> id in defs && LeadsTo(defs, defs[id], child) {
      LeadsToMentioned(defs, id, child);
    }
    hide Leads, LeadsTo;
    forall id ensures id in KeptOf(defs, roots) <==> id in roots && id in defs && HasContent(defs[id]) {
    }
  }

  lemma ClosureIsAccessible(defs: Defs, roots: seq<nat>, s: set<nat>)
    requires IsClosure(Leads(defs), KeptOf(defs, roots), s)
    ensures Accessible(defs, roots, s)
  {
    forall t ensures Gathers(defs, roots, t) <==> Closed(Leads(defs), t) && KeptOf(defs, roots) <= t {
      ClosedGathers(defs, roots, t);
    }
    hide Gathers, Closed, Leads, KeptOf;
  }

  /** The kept types that the roots lead to, numbered: the smallest set with the roots and closed. */
  method GetAccessibleTypes(defs: Defs, roots: seq<nat>) returns (ids: map<nat, nat>, sorted: seq<nat>)
    requires AllDefined(defs) && forall id :: id in roots ==> id in defs
    ensures Numbers(ids, sorted)
    ensures AllKept(defs, ids.Keys) && IsClosure(Leads(defs), KeptOf(defs, roots), ids.Keys)
    ensures Accessible(defs, roots, ids.Keys)
  {
    var collector := new Collector(defs);
    collector.CollectAll(roots);
    WalkedWhole(Leads(defs), collector.types, KeptOf(defs, roots));
    sorted := Sorted(collector.types);
    ids := map[];
    for k := 0 to |sorted|
      invariant forall id :: id in ids <==> id in sorted[..k]
      invariant forall i :: 0 <= i < k ==> sorted[i] in ids && ids[sorted[i]] == i
    {
      ids := ids[sorted[k] := k];
    }
    assert ids.Keys == collector.types;
    ClosureIsAccessible(defs, roots, ids.Keys);
  }

  // ---------------------------------------------------------- references and leaves

  /** The definitions, the numbers of the kept types, and how deep wrappers of a primitive are unwrapped. */
  datatype Metadata = Metadata(defs: Defs, ids: map<nat, nat>, stack: nat)

  /** What a wrapper of a primitive comes down to; wrapping nothing is `void`. */
  datatype Inner = IsPrim(prim: Prim) | IsVoid | NotPrimitive

  /** A cycle of wrappers ends at the depth of the stack. */
  function GetPrimitive(defs: Defs, stack: nat, id: nat): Inner {
    if stack == 0 || id !in defs then NotPrimitive
    else
      match defs[id]
      case Primitive(prim) => IsPrim(prim)
      case CompositeOf(fields) =>
        if |fields| > 1 then NotPrimitive else if fields == [] then IsVoid else GetPrimitive(defs, stack - 1, fields[0])
      case TupleOf(types) =>
        if |types| > 1 then NotPrimitive else if types == [] then IsVoid else GetPrimitive(defs, stack - 1, types[0])
      case _ => NotPrimitive
  }

  predicate IsUnsigned(p: Prim) {
    p.U8? || p.U16? || p.U32? || p.U64? || p.U128? || p.U256?
  }

  /** None stands for the exceptions. */
  function GetTypeRef(md: Metadata, id: nat): Option<TypeRef> {
    if id !in md.defs then None
    else
      match md.defs[id]
      case Primitive(prim) => Some(PrimRef(prim))
      case CompactOf(inner) => (
        match GetPrimitive(md.defs, md.stack, inner)
        case IsPrim(p) => if IsUnsigned(p) then Some(CompactRef(p)) else None
        case IsVoid => Some(VoidRef)
        case NotPrimitive => None
      )
      case _ => Some(if id in md.ids then PerId(md.ids[id]) else VoidRef)
  }

  function GetTypeRefs(md: Metadata, types: seq<nat>): (r: Option<seq<TypeRef>>)
    ensures r.Some? ==> |r.value| == |types|
    ensures r.Some? ==> forall k :: 0 <= k < |types| ==> GetTypeRef(md, types[k]) == Some(r.value[k])
  {
    if types == [] then Some([])
    else
      match GetTypeRefs(md, types[..|types| - 1])
      case None => None
      case Some(before) =>
        match GetTypeRef(md, types[|types| - 1])
        case None => None
        case Some(last) => Some(before + [last])
  }

  function Enumerations(md: Metadata, variants: seq<Variant>): (r: Option<seq<TypeDef>>)
    ensures r.Some? ==> |r.value| == |variants|
    ensures r.Some? ==> forall k :: 0 <= k < |variants| ==> IsVariant(md, variants[k], r.value[k])
  {
    if variants == [] then Some([])
    else
      match Enumerations(md, variants[..|variants| - 1])
      case None => None
      case Some(before) =>
        var v := variants[|variants| - 1];
        match GetTypeRefs(md, v.fields)
        case None => None
        case Some(fields) => Some(before + [Enumeration(v.index, fields)])
  }

  predicate IsVariant(md: Metadata, v: Variant, def: TypeDef) {
    def.Enumeration? && def.index == v.index && GetTypeRefs(md, v.fields) == Some(def.variantFields)
  }

  /** The bytes of a unit of a bit sequence; only some primitives can be one. */
  function BitSequenceBytes(inner: Inner): Option<nat> {
    match inner
    case IsPrim(U8) => Some(1)
    case IsPrim(U16) => Some(2)
    case IsPrim(U32) => Some(4)
    case IsPrim(U64) => Some(8)
    case _ => None
  }

  /** The leaves of one type: one for every variant, otherwise a single one. */
  function ConstructTypeDef(md: Metadata, id: nat): Option<seq<TypeDef>> {
    if id !in md.defs then None
    else
      match md.defs[id]
      case CompositeOf(fields) => (
        match GetTypeRefs(md, fields)
        case None => None
        case Some(refs) => Some([Composite(refs)])
      )
      case VariantOf(variants) => Enumerations(md, variants)
      case SequenceOf(item) => (
        match GetTypeRef(md, item)
        case None => None
        case Some(ty) => Some([Sequence(ty)])
      )
      case ArrayOf(len, element) => (
        match GetTypeRef(md, element)
        case None => None
        case Some(ty) => Some([Array(len, ty)])
      )
      case TupleOf(types) => (
        match GetTypeRefs(md, types)
        case None => None
        case Some(refs) => Some([Tuple(refs)])
      )
      case BitSequenceOf(storeType, order) => (
        match BitSequenceBytes(GetPrimitive(md.defs, md.stack, storeType))
        case None => None
        case Some(numBytes) => if order.None? then None else Some([BitSequence(numBytes, order.value.Lsb0?)])
      )
      case _ => None
  }

  // -------------------------------------------------------- what the leaves stand for

  /** The definition is a wrapper of one type. */
  ghost predicate Wraps(def: Def, member: nat) {
    def == CompositeOf([member]) || def == TupleOf([member])
  }

  /** Every type of the path is a wrapper of the next one, and the last one has the definition `end`. */
  ghost predicate WrapperPath(defs: Defs, path: seq<nat>, end: Def) {
    && path != [] && (forall k :: 0 <= k < |path| ==> path[k] in defs)
    && (forall k :: 0 <= k < |path| - 1 ==> Wraps(defs[path[k]], path[k + 1]))
    && defs[path[|path| - 1]] == end
  }

  /** Wrappers of one type lead to the definition, within the depth of the stack. */
  ghost predicate ComesDownTo(defs: Defs, stack: nat, id: nat, end: Def) {
    exists path :: 0 < |path| <= stack && path[0] == id && WrapperPath(defs, path, end)
  }

  /** `ty` refers to the type `id`. */
  ghost predicate RefersTo(md: Metadata, id: nat, ty: TypeRef) {
    id in md.defs &&
    match md.defs[id]
    case Primitive(p) => ty == PrimRef(p)
    case CompactOf(inner) => (
      match ty
      case CompactRef(p) => p in {U8, U16, U32, U64, U128, U256} && ComesDownTo(md.defs, md.stack, inner, Primitive(p))
      case VoidRef =>
        ComesDownTo(md.defs, md.stack, inner, CompositeOf([])) || ComesDownTo(md.defs, md.stack, inner, TupleOf([]))
      case _ => false
    )
    case _ => if id in md.ids then ty == PerId(md.ids[id]) else ty == VoidRef
  }

  ghost predicate AllReferTo(md: Metadata, types: seq<nat>, refs: seq<TypeRef>) {
    |refs| == |types| && forall k :: 0 <= k < |types| ==> RefersTo(md, types[k], refs[k])
  }

  /** `leaf` is a leaf for the variant. */
  ghost predicate StatesVariant(md: Metadata, v: Variant, leaf: TypeDef) {
    leaf.Enumeration? && leaf.index == v.index && AllReferTo(md, v.fields, leaf.variantFields)
  }

  /** The store type of a bit sequence is an unsigned number of so many bytes, at most eight. */
  ghost predicate StoresBits(md: Metadata, storeType: nat, numBytes: nat) {
    exists p :: (p, numBytes) in {(U8, 1), (U16, 2), (U32, 4), (U64, 8)}
      && ComesDownTo(md.defs, md.stack, storeType, Primitive(p))
  }

  /** `leaves` are all the leaves of the type `id`, in order. */
  ghost predicate StatesType(md: Metadata, id: nat, leaves: seq<TypeDef>) {
    id in md.defs &&
    match md.defs[id]
    case Primitive(_) => false
    case CompactOf(_) => false
    case VariantOf(variants) =>
      |leaves| == |variants| && forall k :: 0 <= k < |variants| ==> StatesVariant(md, variants[k], leaves[k])
    case CompositeOf(fields) => |leaves| == 1 && leaves[0].Composite? && AllReferTo(md, fields, leaves[0].fields)
    case TupleOf(types) => |leaves| == 1 && leaves[0].Tuple? && AllReferTo(md, types, leaves[0].types)
    case SequenceOf(item) => |leaves| == 1 && leaves[0].Sequence? && RefersTo(md, item, leaves[0].items)
    case ArrayOf(len, element) =>
      |leaves| == 1 && leaves[0].Array? && leaves[0].len == len && RefersTo(md, element, leaves[0].elements)
    case BitSequenceOf(storeType, order) =>
      |leaves| == 1 && leaves[0].BitSequence? && StoresBits(md, storeType, leaves[0].numBytes)
      && (if leaves[0].leastSignificantBitFirst then order == Some(Lsb0) else order == Some(Msb0))
  }

  /** How `GetPrimitive` reports a definition. */
  function Reported(def: Def): Inner {
    if def.Primitive? then IsPrim(def.prim)
    else if def == CompositeOf([]) || def == TupleOf([]) then IsVoid
    else NotPrimitive
  }

  lemma {:induction false} PathIsFollowed(defs: Defs, stack: nat, path: seq<nat>, end: Def)
    requires 0 < |path| <= stack && WrapperPath(defs, path, end) && Reported(end) != NotPrimitive
    ensures GetPrimitive(defs, stack, path[0]) == Reported(end)
  {
    if |path| > 1 {
      assert Wraps(defs[path[0]], path[1]);
      assert WrapperPath(defs, path[1..], end) by {
        assert forall k :: 0 <= k < |path[1..]| ==> path[1..][k] == path[k + 1];
      }
      PathIsFollowed(defs, stack - 1, path[1..], end);
    }
  }

  lemma {:induction false} FollowedIsPath(defs: Defs, stack: nat, id: nat) returns (path: seq<nat>, end: Def)
    requires GetPrimitive(defs, stack, id) != NotPrimitive
    ensures 0 < |path| <= stack && path[0] == id && WrapperPath(defs, path, end)
    ensures Reported(end) == GetPrimitive(defs, stack, id)
  {
    end := defs[id];
    path := [id];
    if Reported(end) == NotPrimitive {
      var member := if end.CompositeOf? then end.fields[0] else end.types[0];
      assert Wraps(end, member) by {
        assert end.CompositeOf? ==> end.fields == [member];
        assert end.TupleOf? ==> end.types == [member];
      }
      var rest;
      rest, end := FollowedIsPath(defs, stack - 1, member);
      path := [id] + rest;
    }
  }

  lemma PrimitiveFound(defs: Defs, stack: nat, id: nat, p: Prim)
    ensures GetPrimitive(defs, stack, id) == IsPrim(p) <==> ComesDownTo(defs, stack, id, Primitive(p))
  {
    if GetPrimitive(defs, stack, id) == IsPrim(p) {
      var path, end := FollowedIsPath(defs, stack, id);
    }
    if ComesDownTo(defs, stack, id, Primitive(p)) {
      var path :| 0 < |path| <= stack && path[0] == id && WrapperPath(defs, path, Primitive(p));
      PathIsFollowed(defs, stack, path, Primitive(p));
    }
  }

  lemma VoidFound(defs: Defs, stack: nat, id: nat)
    ensures GetPrimitive(defs, stack, id).IsVoid? <==>
      ComesDownTo(defs, stack, id, CompositeOf([])) || ComesDownTo(defs, stack, id, TupleOf([]))
  {
    if GetPrimitive(defs, stack, id).IsVoid? {
      var path, end := FollowedIsPath(defs, stack, id);
      assert end == CompositeOf([]) || end == TupleOf([]);
    }
    forall end | end in {CompositeOf([]), TupleOf([])} && ComesDownTo(defs, stack, id, end)
      ensures GetPrimitive(defs, stack, id).IsVoid?
    {
      var path :| 0 < |path| <= stack && path[0] == id && WrapperPath(defs, path, end);
      PathIsFollowed(defs, stack, path, end);
    }
  }

  /** A type is given the references to it, of which there is at most one. */
  lemma GivenRefersTo(md: Metadata, id: nat, ty: TypeRef)
    ensures GetTypeRef(md, id) == Some(ty) <==> RefersTo(md, id, ty)
  {
    hide ComesDownTo;
    if id in md.defs && md.defs[id].CompactOf? {
      VoidFound(md.defs, md.stack, md.defs[id].inner);
      forall p ensures GetPrimitive(md.defs, md.stack, md.defs[id].inner) == IsPrim(p)
          <==> ComesDownTo(md.defs, md.stack, md.defs[id].inner, Primitive(p)) {
        PrimitiveFound(md.defs, md.stack, md.defs[id].inner, p);
      }
      hide GetPrimitive;
    }
  }

  lemma {:induction false} GivenAllReferTo(md: Metadata, types: seq<nat>, refs: seq<TypeRef>)
    ensures GetTypeRefs(md, types) == Some(refs) <==> AllReferTo(md, types, refs)
  {
    hide GetTypeRef, RefersTo;
    if types != [] {
      var n := |types| - 1;
      if |refs| == n + 1 {
        GivenAllReferTo(md, types[..n], refs[..n]);
        GivenRefersTo(md, types[n], refs[n]);
        assert refs == refs[..n] + [refs[n]];
      }
    }
  }

  lemma {:induction false} GivenVariants(md: Metadata, variants: seq<Variant>, leaves: seq<TypeDef>)
    ensures Enumerations(md, variants) == Some(leaves) <==>
      |leaves| == |variants| && forall k :: 0 <= k < |variants| ==> StatesVariant(md, variants[k], leaves[k])
  {
    hide GetTypeRefs, AllReferTo;
    if variants != [] {
      var n := |variants| - 1;
      if |leaves| == n + 1 {
        GivenVariants(md, variants[..n], leaves[..n]);
        assert leaves == leaves[..n] + [leaves[n]];
        if leaves[n].Enumeration? {
          GivenAllReferTo(md, variants[n].fields, leaves[n].variantFields);
        }
      }
    }
  }

  lemma GivenBytes(md: Metadata, storeType: nat, numBytes: nat)
    ensures BitSequenceBytes(GetPrimitive(md.defs, md.stack, storeType)) == Some(numBytes)
      <==> StoresBits(md, storeType, numBytes)
  {
    hide ComesDownTo, GetPrimitive;
    forall p ensures GetPrimitive(md.defs, md.stack, storeType) == IsPrim(p)
        <==> ComesDownTo(md.defs, md.stack, storeType, Primitive(p)) {
      PrimitiveFound(md.defs, md.stack, storeType, p);
    }
    if BitSequenceBytes(GetPrimitive(md.defs, md.stack, storeType)) == Some(numBytes) {
      var p := GetPrimitive(md.defs, md.stack, storeType).prim;
      assert (p, numBytes) in {(U8, 1), (U16, 2), (U32, 4), (U64, 8)};
    }
  }

  /** A type is given the leaves that state it. */
  lemma GivenStatesType(md: Metadata, id: nat, leaves: seq<TypeDef>)
    ensures ConstructTypeDef(md, id) == Some(leaves) <==> StatesType(md, id, leaves)
  {
    hide GetTypeRef, GetTypeRefs, RefersTo, AllReferTo, GetPrimitive;
    assert |leaves| == 1 ==> leaves == [leaves[0]];
    if id in md.defs {
      match md.defs[id]
      case VariantOf(variants) => GivenVariants(md, variants, leaves);
      case CompositeOf(fields) =>
        if |leaves| == 1 && leaves[0].Composite? { GivenAllReferTo(md, fields, leaves[0].fields); }
      case TupleOf(types) =>
        if |leaves| == 1 && leaves[0].Tuple? { GivenAllReferTo(md, types, leaves[0].types); }
      case SequenceOf(item) =>
        if |leaves| == 1 && leaves[0].Sequence? { GivenRefersTo(md, item, leaves[0].items); }
      case ArrayOf(_, element) =>
        if |leaves| == 1 && leaves[0].Array? { GivenRefersTo(md, element, leaves[0].elements); }
      case BitSequenceOf(storeType, _) =>
        if |leaves| == 1 && leaves[0].BitSequence? { GivenBytes(md, storeType, leaves[0].numBytes); }
      case _ =>
    }
  }

  function Leaves(typeId: nat, typeDefs: seq<TypeDef>): (r: seq<Leaf>)
    ensures |r| == |typeDefs| && forall k :: 0 <= k < |r| ==> r[k] == Leaf(typeId, typeDefs[k])
  {
    seq(|typeDefs|, k requires 0 <= k < |typeDefs| => Leaf(typeId, typeDefs[k]))
  }

  /** `tree` lists the leaves of the types in `sorted`, type after type. */
  ghost predicate Lists(md: Metadata, sorted: seq<nat>, tree: seq<Leaf>)
    decreases |sorted|
  {
    if sorted == [] then tree == []
    else
      var n := |sorted| - 1;
      var typeDefs := ConstructTypeDef(md, sorted[n]);
      && typeDefs.Some? && |typeDefs.value| <= |tree|
      && tree[|tree| - |typeDefs.value|..] == Leaves(n, typeDefs.value)
      && Lists(md, sorted[..n], tree[..|tree| - |typeDefs.value|])
  }

  /** The leaf is one of those of its type. */
  ghost predicate IsLeafOf(md: Metadata, sorted: seq<nat>, leaf: Leaf) {
    leaf.typeId < |sorted| && ConstructTypeDef(md, sorted[leaf.typeId]).Some?
    && leaf.def in ConstructTypeDef(md, sorted[leaf.typeId]).value
  }

  lemma {:induction false} ListedIsLeaf(md: Metadata, sorted: seq<nat>, tree: seq<Leaf>, k: nat)
    requires Lists(md, sorted, tree) && k < |tree|
    ensures IsLeafOf(md, sorted, tree[k])
  {
    hide ConstructTypeDef;
    var n := |sorted| - 1;
    var typeDefs := ConstructTypeDef(md, sorted[n]).value;
    var m := |tree| - |typeDefs|;
    if k < m {
      ListedIsLeaf(md, sorted[..n], tree[..m], k);
      assert tree[..m][k] == tree[k];
    } else {
      assert tree[k] == tree[m..][k - m];
    }
  }

  /** Every leaf of every type is listed. */
  lemma {:induction false} LeafIsListed(md: Metadata, sorted: seq<nat>, tree: seq<Leaf>, p: nat, j: nat)
    requires Lists(md, sorted, tree) && p < |sorted|
    requires var typeDefs := ConstructTypeDef(md, sorted[p]); typeDefs.Some? ==> j < |typeDefs.value|
    ensures var typeDefs := ConstructTypeDef(md, sorted[p]);
            typeDefs.Some? && Leaf(p, typeDefs.value[j]) in tree
  {
    hide ConstructTypeDef;
    var n := |sorted| - 1;
    var typeDefs := ConstructTypeDef(md, sorted[n]).value;
    var m := |tree| - |typeDefs|;
    if p < n {
      assert sorted[..n][p] == sorted[p];
      LeafIsListed(md, sorted[..n], tree[..m], p, j);
    } else {
      assert tree[m..][j] == tree[m + j];
    }
  }

  /** Only enumerations have several leaves, so the sorting never finds two other types with one id. */
  lemma {:induction false} ListedSole(md: Metadata, sorted: seq<nat>, tree: seq<Leaf>, a: nat, b: nat)
    requires Lists(md, sorted, tree) && a < b < |tree| && tree[a].typeId == tree[b].typeId
    ensures tree[a].def.Enumeration? && tree[b].def.Enumeration?
  {
    var n := |sorted| - 1;
    var typeDefs := ConstructTypeDef(md, sorted[n]).value;
    var m := |tree| - |typeDefs|;
    hide ConstructTypeDef;
    assert forall k :: m <= k < |tree| ==> tree[k] == tree[m..][k - m];
    assert forall k :: 0 <= k < m ==> tree[k] == tree[..m][k];
    if b < m {
      ListedSole(md, sorted[..n], tree[..m], a, b);
    } else if a < m {
      ListedIsLeaf(md, sorted[..n], tree[..m], a);
    } else {
      SeveralAreVariants(md, sorted[n]);
    }
  }

  /** The leaves of one type have different variant indexes, if its variants do. */
  lemma {:induction false} ListedDistinct(md: Metadata, sorted: seq<nat>, tree: seq<Leaf>, a: nat, b: nat)
    requires Lists(md, sorted, tree) && DistinctVariants(md.defs)
    requires a < b < |tree| && tree[a].typeId == tree[b].typeId
    ensures tree[a].def.Enumeration? && tree[b].def.Enumeration? && tree[a].def.index != tree[b].def.index
  {
    var n := |sorted| - 1;
    var typeDefs := ConstructTypeDef(md, sorted[n]).value;
    var m := |tree| - |typeDefs|;
    hide ConstructTypeDef, DistinctVariants;
    assert forall k :: m <= k < |tree| ==> tree[k] == tree[m..][k - m];
    assert forall k :: 0 <= k < m ==> tree[k] == tree[..m][k];
    if b < m {
      ListedDistinct(md, sorted[..n], tree[..m], a, b);
    } else if a < m {
      ListedIsLeaf(md, sorted[..n], tree[..m], a);
    } else {
      VariantsDiffer(md, sorted[n], a - m, b - m);
    }
  }

  lemma VariantsDiffer(md: Metadata, id: nat, a: nat, b: nat)
    requires DistinctVariants(md.defs) && ConstructTypeDef(md, id).Some?
    requires a < b < |ConstructTypeDef(md, id).value|
    ensures var typeDefs := ConstructTypeDef(md, id).value;
            typeDefs[a].Enumeration? && typeDefs[b].Enumeration? && typeDefs[a].index != typeDefs[b].index
  {
    var typeDefs := ConstructTypeDef(md, id).value;
    SeveralAreVariants(md, id);
    var variants := md.defs[id].variants;
    assert DistinctIndexes(variants);
    hide GetTypeRefs;
    assert IsVariant(md, variants[a], typeDefs[a]) && IsVariant(md, variants[b], typeDefs[b]);
  }

  lemma SeveralAreVariants(md: Metadata, id: nat)
    requires ConstructTypeDef(md, id).Some? && |ConstructTypeDef(md, id).value| > 1
    ensures md.defs[id].VariantOf?
    ensures forall k :: 0 <= k < |ConstructTypeDef(md, id).value| ==> ConstructTypeDef(md, id).value[k].Enumeration?
  {
  }

  ghost predicate DistinctVariants(defs: Defs) {
    forall id :: id in defs && defs[id].VariantOf? ==> DistinctIndexes(defs[id].variants)
  }

  ghost predicate DistinctIndexes(variants: seq<Variant>) {
    forall i, j :: 0 <= i < j < |variants| ==> variants[i].index != variants[j].index
  }

  // -------------------------------------------------------------- sorting the leaves

  function VariantIndex(leaf: Leaf): nat {
    if leaf.def.Enumeration? then leaf.def.index else 0
  }

  /** Which of two leaves comes first: the lower type, and of one type the lower variant. */
  predicate Before(a: Leaf, b: Leaf) {
    a.typeId < b.typeId || (a.typeId == b.typeId && VariantIndex(a) <= VariantIndex(b))
  }

  ghost predicate Ordered(lookup: seq<Leaf>) {
    forall j, k :: 0 <= j < k < |lookup| ==> Before(lookup[j], lookup[k])
  }

  /** `perm` tells where in the tree every leaf of the lookup comes from. */
  ghost predicate Rearranges(lookup: seq<Leaf>, tree: seq<Leaf>, perm: seq<nat>) {
    && |perm| == |tree| == |lookup|
    && (forall k :: 0 <= k < |perm| ==> perm[k] < |tree| && lookup[k] == tree[perm[k]])
    && (forall j, k :: 0 <= j < k < |perm| ==> perm[j] != perm[k])
    && (forall p: nat :: p < |tree| ==> p in perm)
  }

  /**
   * A lookup and what it was made from: the numbers of the types in `sorted`, the leaves of `tree`
   * in that order, and where `perm` moves them.
   */
  datatype Compilation = Compilation(md: Metadata, sorted: seq<nat>, tree: seq<Leaf>, lookup: seq<Leaf>, perm: seq<nat>)

  lemma LookupIsSole(c: Compilation)
    requires Lists(c.md, c.sorted, c.tree) && Rearranges(c.lookup, c.tree, c.perm)
    ensures SoleUnlessEnumeration(c.lookup)
  {
    forall j, k | 0 <= j < k < |c.lookup| && c.lookup[j].typeId == c.lookup[k].typeId
      ensures c.lookup[j].def.Enumeration? && c.lookup[k].def.Enumeration?
    {
      if c.perm[j] < c.perm[k] {
        ListedSole(c.md, c.sorted, c.tree, c.perm[j], c.perm[k]);
      } else {
        ListedSole(c.md, c.sorted, c.tree, c.perm[k], c.perm[j]);
      }
    }
  }

  /** With different indexes in every enumeration no two leaves are alike. */
  lemma LookupIsDistinct(c: Compilation)
    requires Lists(c.md, c.sorted, c.tree) && Rearranges(c.lookup, c.tree, c.perm) && DistinctVariants(c.md.defs)
    ensures DistinctLeaves(c.lookup)
  {
    hide Lists, DistinctVariants;
    forall j, k | 0 <= j < k < |c.lookup| && c.lookup[j].typeId == c.lookup[k].typeId
      ensures c.lookup[j].def.Enumeration? && c.lookup[k].def.Enumeration?
              && c.lookup[j].def.index != c.lookup[k].def.index
    {
      if c.perm[j] < c.perm[k] {
        ListedDistinct(c.md, c.sorted, c.tree, c.perm[j], c.perm[k]);
      } else {
        ListedDistinct(c.md, c.sorted, c.tree, c.perm[k], c.perm[j]);
      }
    }
  }

  /** Type after type, and of one type the variants by their indexes. */
  ghost predicate InTreeOrder(lookup: seq<Leaf>) {
    forall j, k :: 0 <= j < k < |lookup| ==>
      || lookup[j].typeId < lookup[k].typeId
      || (lookup[j].typeId == lookup[k].typeId
          && lookup[j].def.Enumeration? && lookup[k].def.Enumeration? && lookup[j].def.index <= lookup[k].def.index)
  }

  lemma InsertPerm(lookup: seq<Leaf>, tree: seq<Leaf>, perm: seq<nat>, x: Leaf, p: nat)
    requires Rearranges(lookup, tree, perm) && p <= |lookup|
    ensures Rearranges(lookup[..p] + [x] + lookup[p..], tree + [x], perm[..p] + [|tree|] + perm[p..])
  {
    var perm' := perm[..p] + [|tree|] + perm[p..];
    forall q: nat | q < |tree + [x]| ensures q in perm' {
      if q < |tree| {
        assert q in perm;
        var k :| 0 <= k < |perm| && perm[k] == q;
        assert perm'[if k < p then k else k + 1] == q;
      } else {
        assert perm'[p] == q;
      }
    }
  }

  /** Sorts the leaves; the comparison never meets two types with one id. */
  method SortLeaves(tree: seq<Leaf>) returns (lookup: seq<Leaf>, ghost perm: seq<nat>)
    ensures Ordered(lookup) && Rearranges(lookup, tree, perm)
  {
    lookup, perm := [], [];
    for i := 0 to |tree|
      invariant Ordered(lookup) && Rearranges(lookup, tree[..i], perm)
    {
      var p: nat := |lookup|;
      while p > 0 && !Before(lookup[p - 1], tree[i])
        invariant p <= |lookup|
        invariant forall k :: p <= k < |lookup| ==> Before(tree[i], lookup[k])
      {
        p := p - 1;
      }
      InsertPerm(lookup, tree[..i], perm, tree[i], p);
      assert tree[..i] + [tree[i]] == tree[..i + 1];
      perm := perm[..p] + [i] + perm[p..];
      InsertOrder(lookup, tree[i], p);
      lookup := lookup[..p] + [tree[i]] + lookup[p..];
    }
    assert tree[..|tree|] == tree;
  }

  lemma InsertOrder(lookup: seq<Leaf>, x: Leaf, p: nat)
    requires Ordered(lookup) && p <= |lookup|
    requires p > 0 ==> Before(lookup[p - 1], x)
    requires forall k :: p <= k < |lookup| ==> Before(x, lookup[k])
    ensures Ordered(lookup[..p] + [x] + lookup[p..])
  {
    forall k | 0 <= k < p ensures Before(lookup[k], x) {
      assert k < p - 1 ==> Before(lookup[k], lookup[p - 1]);
    }
  }

  lemma SoleInOrder(lookup: seq<Leaf>)
    requires Ordered(lookup) && SoleUnlessEnumeration(lookup)
    ensures InTreeOrder(lookup)
  {
    forall j, k | 0 <= j < k < |lookup| && lookup[j].typeId == lookup[k].typeId
      ensures lookup[j].def.Enumeration? && lookup[k].def.Enumeration? && lookup[j].def.index <= lookup[k].def.index
    {
      assert Before(lookup[j], lookup[k]);
    }
  }

  /** `tree` states the types of `sorted`, type after type. */
  ghost predicate StatesTypes(md: Metadata, sorted: seq<nat>, tree: seq<Leaf>)
    decreases |sorted|
  {
    if sorted == [] then tree == []
    else
      var n := |sorted| - 1;
      exists m: nat ::
        && m <= |tree| && StatesTypes(md, sorted[..n], tree[..m])
        && LeavesState(md, sorted[n], n, tree[m..])
  }

  /** The leaves carry the number of their type and state it. */
  ghost predicate LeavesState(md: Metadata, id: nat, typeId: nat, leaves: seq<Leaf>) {
    && (forall k :: 0 <= k < |leaves| ==> leaves[k].typeId == typeId)
    && StatesType(md, id, seq(|leaves|, k requires 0 <= k < |leaves| => leaves[k].def))
  }

  lemma {:induction false} ListsStates(md: Metadata, sorted: seq<nat>, tree: seq<Leaf>)
    requires Lists(md, sorted, tree)
    ensures StatesTypes(md, sorted, tree)
  {
    hide ConstructTypeDef, StatesType;
    if sorted != [] {
      var n := |sorted| - 1;
      var typeDefs := ConstructTypeDef(md, sorted[n]).value;
      var m: nat := |tree| - |typeDefs|;
      ListsStates(md, sorted[..n], tree[..m]);
      GivenStatesType(md, sorted[n], typeDefs);
      var leaves := tree[m..];
      assert typeDefs == seq(|leaves|, k requires 0 <= k < |leaves| => leaves[k].def);
      assert LeavesState(md, sorted[n], n, leaves);
    }
  }

  /** Some leaves state the type. */
  ghost predicate CanState(md: Metadata, id: nat) {
    exists leaves :: StatesType(md, id, leaves)
  }

  lemma CanStateIff(md: Metadata, id: nat)
    ensures ConstructTypeDef(md, id).Some? <==> CanState(md, id)
  {
    hide ConstructTypeDef, StatesType;
    if ConstructTypeDef(md, id).Some? {
      GivenStatesType(md, id, ConstructTypeDef(md, id).value);
    }
    if leaves :| StatesType(md, id, leaves) {
      GivenStatesType(md, id, leaves);
    }
  }

  /** The leaves of all types in order, which state them; fails if and only if a type has none. */
  method GetLookup(md: Metadata, sorted: seq<nat>)
    returns (lookup: Option<seq<Leaf>>, ghost tree: seq<Leaf>, ghost perm: seq<nat>)
    requires Numbers(md.ids, sorted)
    ensures lookup.Some? <==> forall k :: 0 <= k < |sorted| ==> ConstructTypeDef(md, sorted[k]).Some?
    ensures lookup.Some? <==> forall k :: 0 <= k < |sorted| ==> CanState(md, sorted[k])
    ensures lookup.Some? ==> StatesTypes(md, sorted, tree) && InTreeOrder(lookup.value)
    ensures lookup.Some? ==>
              && Lists(md, sorted, tree) && Rearranges(lookup.value, tree, perm)
              && Ordered(lookup.value) && SoleUnlessEnumeration(lookup.value)
              && (DistinctVariants(md.defs) ==> DistinctLeaves(lookup.value))
  {
    hide ConstructTypeDef, CanState, StatesTypes, InTreeOrder;
    hide Rearranges, Ordered, SoleUnlessEnumeration, DistinctLeaves, DistinctVariants;
    var typeTree := [];
    for k := 0 to |sorted|
      invariant Lists(md, sorted[..k], typeTree)
      invariant forall i :: 0 <= i < k ==> ConstructTypeDef(md, sorted[i]).Some?
    {
      var typeDefs := ConstructTypeDef(md, sorted[k]);
      if typeDefs.None? {
        CanStateIff(md, sorted[k]);
        tree, perm := [], [];
        return None, tree, perm;
      }
      ListMore(md, sorted[..k], typeTree, sorted[k]);
      assert sorted[..k] + [sorted[k]] == sorted[..k + 1];
      typeTree := typeTree + Leaves(md.ids[sorted[k]], typeDefs.value);
    }
    assert sorted[..|sorted|] == sorted;
    var leaves;
    leaves, perm := SortLeaves(typeTree);
    tree := typeTree;
    ListsStates(md, sorted, tree);
    forall k | 0 <= k < |sorted| ensures CanState(md, sorted[k]) {
      CanStateIff(md, sorted[k]);
    }
    ghost var c := Compilation(md, sorted, tree, leaves, perm);
    LookupIsSole(c);
    SoleInOrder(leaves);
    if DistinctVariants(md.defs) {
      LookupIsDistinct(c);
    }
    lookup := Some(leaves);
  }

  lemma ListMore(md: Metadata, sorted: seq<nat>, tree: seq<Leaf>, id: nat)
    requires Lists(md, sorted, tree) && ConstructTypeDef(md, id).Some?
    ensures Lists(md, sorted + [id], tree + Leaves(|sorted|, ConstructTypeDef(md, id).value))
  {
    hide ConstructTypeDef;
    var typeDefs := ConstructTypeDef(md, id).value;
    var more := tree + Leaves(|sorted|, typeDefs);
    assert (sorted + [id])[..|sorted|] == sorted;
    assert more[..|more| - |typeDefs|] == tree;
    assert more[|more| - |typeDefs|..] == Leaves(|sorted|, typeDefs);
  }

  // ------------------------------------------------- what the metadata means

  /** How reading a value ends, and where it does not succeed, what it met first. */
  datatype Reading =
    | Read(rest: seq<Byte>)
    | Broken        // the bytes are no such value
    | NoVariant     // an enumeration without variants
    | BitSeq        // a bit sequence
    | BeyondFuel    // nesting deeper than the fuel

  datatype Part = Part(rest: seq<Byte>, types: seq<nat>)

  function VariantAt(variants: seq<Variant>, index: nat): (r: Option<Variant>)
    ensures r.Some? ==> r.value in variants && r.value.index == index
    ensures r.None? ==> forall v :: v in variants ==> v.index != index
  {
    if variants == [] then None
    else if variants[0].index == index then Some(variants[0])
    else VariantAt(variants[1..], index)
  }

  function Copies(id: nat, n: nat): seq<nat> {
    seq(n, _ => id)
  }

  /** The types that follow, after the head of a value. */
  function HeadOf(compact: Compact, def: Def, input: seq<Byte>): Option<Part> {
    match def
    case CompositeOf(fields) => Some(Part(input, fields))
    case TupleOf(types) => Some(Part(input, types))
    case ArrayOf(len, element) => Some(Part(input, Copies(element, len)))
    case SequenceOf(item) => (
      match compact(input)
      case None => None
      case Some(n) => Some(Part(n.rest, Copies(item, n.value)))
    )
    case VariantOf(variants) =>
      if input == [] then None
      else (
        match VariantAt(variants, input[0])
        case None => None
        case Some(v) => Some(Part(input[1..], v.fields))
      )
    case _ => None
  }

  /**
   * Reading a value as the metadata defines it. An enumeration without variants has no values; when
   * `lenient`, it is read as if it were `()`.
   */
  function ReadType(compact: Compact, defs: Defs, stack: nat, lenient: bool, fuel: nat, input: seq<Byte>,
                    id: nat): Reading
    decreases fuel, 0, 0
  {
    if id !in defs then Broken
    else
      var def := defs[id];
      match def
      case Primitive(p) => (match SkipPrim(compact, input, p) case None => Broken case Some(rest) => Read(rest))
      case CompactOf(inner) =>
        if GetPrimitive(defs, stack, inner).IsVoid? then Read(input)
        else (match compact(input) case None => Broken case Some(n) => Read(n.rest))
      case BitSequenceOf(_, _) => if fuel == 0 then BeyondFuel else BitSeq
      case _ =>
        if IsEmpty(def) then (if def.VariantOf? && !lenient then NoVariant else Read(input))
        else if fuel == 0 then BeyondFuel
        else
          match HeadOf(compact, def, input)
          case None => Broken
          case Some(part) => ReadTypes(compact, defs, stack, lenient, fuel - 1, part.rest, part.types)
  }

  function ReadTypes(compact: Compact, defs: Defs, stack: nat, lenient: bool, fuel: nat, input: seq<Byte>,
                     types: seq<nat>): Reading
    decreases fuel, 1, |types|
  {
    if types == [] then Read(input)
    else
      match ReadTypes(compact, defs, stack, lenient, fuel, input, types[..|types| - 1])
      case Read(rest) => ReadType(compact, defs, stack, lenient, fuel, rest, types[|types| - 1])
      case other => other
  }

  /** The decoder succeeds, fails and gives up where reading does. */
  ghost predicate Agrees(reading: Reading, o: Outcome) {
    match reading
    case Read(rest) => o.Done? && o.rest == rest
    case BeyondFuel => o.OutOfFuel?
    case Broken => o.Failed?
    case NoVariant => o.Failed?
    case BitSeq => o.Failed?
  }

  /** The lookup was made from the definitions. */
  ghost predicate Compiled(c: Compilation) {
    && Numbers(c.md.ids, c.sorted) && AllKept(c.md.defs, c.md.ids.Keys)
    && Lists(c.md, c.sorted, c.tree) && Rearranges(c.lookup, c.tree, c.perm)
  }

  lemma InLookup(lookup: seq<Leaf>, tree: seq<Leaf>, perm: seq<nat>, leaf: Leaf)
    requires Rearranges(lookup, tree, perm) && leaf in tree
    ensures leaf in lookup
  {
    var p: nat :| p < |tree| && tree[p] == leaf;
    assert p in perm;
    var k :| 0 <= k < |perm| && perm[k] == p;
    assert lookup[k] == leaf;
  }

  /** The group consists of exactly the given leaves. */
  ghost predicate GroupHas(lookup: seq<Leaf>, t: nat, typeDefs: seq<TypeDef>) {
    var group := Group(lookup, t);
    && (forall i :: 0 <= i < |group| ==> lookup[group[i]].def in typeDefs)
    && (forall j :: 0 <= j < |typeDefs| ==> InGroup(lookup, t, typeDefs[j]))
  }

  ghost predicate InGroup(lookup: seq<Leaf>, t: nat, def: TypeDef) {
    exists i :: 0 <= i < |Group(lookup, t)| && lookup[Group(lookup, t)[i]].def == def
  }

  /** The group of a kept type consists of exactly the leaves made for it. */
  lemma GroupOfType(c: Compilation, id: nat)
    requires Compiled(c) && id in c.md.ids
    ensures ConstructTypeDef(c.md, id).Some?
    ensures GroupHas(c.lookup, c.md.ids[id], ConstructTypeDef(c.md, id).value)
  {
    hide ConstructTypeDef, AllKept, Lists;
    var t := c.md.ids[id];
    assert id in c.sorted;
    assert c.sorted[t] == id;
    var group := Group(c.lookup, t);
    GroupIs(c.lookup, t);
    TypeIsListed(c.md, c.sorted, c.tree, t);
    var typeDefs := ConstructTypeDef(c.md, id).value;
    forall i | 0 <= i < |group| ensures c.lookup[group[i]].def in typeDefs {
      ListedIsLeaf(c.md, c.sorted, c.tree, c.perm[group[i]]);
    }
    forall j | 0 <= j < |typeDefs| ensures InGroup(c.lookup, t, typeDefs[j]) {
      LeafIsListed(c.md, c.sorted, c.tree, t, j);
      InLookup(c.lookup, c.tree, c.perm, Leaf(t, typeDefs[j]));
      var k: nat :| k < |c.lookup| && c.lookup[k] == Leaf(t, typeDefs[j]);
      assert k in group;
      var i :| 0 <= i < |group| && group[i] == k;
    }
  }

  lemma {:induction false} TypeIsListed(md: Metadata, sorted: seq<nat>, tree: seq<Leaf>, p: nat)
    requires Lists(md, sorted, tree) && p < |sorted|
    ensures ConstructTypeDef(md, sorted[p]).Some?
  {
    hide ConstructTypeDef;
    var n := |sorted| - 1;
    if p < n {
      assert sorted[..n][p] == sorted[p];
      TypeIsListed(md, sorted[..n], tree[..|tree| - |ConstructTypeDef(md, sorted[n]).value|], p);
    }
  }

  /** Every reference to a type is to one that has leaves. */
  lemma ReferencesResolve(c: Compilation, id: nat)
    requires Compiled(c)
    requires var ty := GetTypeRef(c.md, id); ty.Some? && ty.value.PerId?
    ensures Group(c.lookup, GetTypeRef(c.md, id).value.id) != []
  {
    hide Lists, Rearranges, Numbers;
    assert Kept(c.md.defs, id);
    GroupOfType(c, id);
    OneLeaf(c.md, id);
    var typeDefs := ConstructTypeDef(c.md, id).value;
    assert InGroup(c.lookup, c.md.ids[id], typeDefs[0]);
  }

  lemma {:induction false} RefsOfCopies(md: Metadata, id: nat, n: nat)
    requires GetTypeRef(md, id).Some?
    ensures GetTypeRefs(md, Copies(id, n)) == Some(Repeat(GetTypeRef(md, id).value, n))
  {
    var ty := GetTypeRef(md, id).value;
    hide GetTypeRef;
    if n > 0 {
      RefsOfCopies(md, id, n - 1);
      var copies := Copies(id, n);
      assert copies[..n - 1] == Copies(id, n - 1) && copies[n - 1] == id;
      assert Repeat(ty, n) == Repeat(ty, n - 1) + [ty];
    } else {
      assert Copies(id, 0) == [] && Repeat(ty, 0) == [];
    }
  }

  /** The parts of a value in the metadata and in the leaves. */
  ghost predicate SameHead(md: Metadata, part: Option<Part>, head: Option<Head>) {
    && (part.Some? <==> head.Some?)
    && (part.Some? ==>
        head.value.rest == part.value.rest && GetTypeRefs(md, part.value.types) == Some(head.value.parts))
  }

  lemma PlainHead(compact: Compact, md: Metadata, lookup: seq<Leaf>, input: seq<Byte>, id: nat, t: nat)
    requires Kept(md.defs, id) && !md.defs[id].VariantOf? && !md.defs[id].BitSequenceOf?
    requires ConstructTypeDef(md, id).Some? && |ConstructTypeDef(md, id).value| == 1
    requires Group(lookup, t) != [] && lookup[Group(lookup, t)[0]].def == ConstructTypeDef(md, id).value[0]
    ensures SameHead(md, HeadOf(compact, md.defs[id], input), ReadHead(compact, lookup, input, t))
  {
    hide GetTypeRef, GetTypeRefs, Group;
    match md.defs[id]
    case SequenceOf(item) =>
      if compact(input).Some? {
        RefsOfCopies(md, item, compact(input).value.value);
      }
    case ArrayOf(len, element) =>
      RefsOfCopies(md, element, len);
    case _ =>
  }

  lemma OneLeaf(md: Metadata, id: nat)
    requires Kept(md.defs, id) && ConstructTypeDef(md, id).Some?
    ensures ConstructTypeDef(md, id).value != []
    ensures !md.defs[id].VariantOf? ==> |ConstructTypeDef(md, id).value| == 1
    ensures md.defs[id].VariantOf? ==> Enumerations(md, md.defs[id].variants) == ConstructTypeDef(md, id)
  {
    hide GetTypeRef, GetTypeRefs;
  }

  /** The leaves of an enumeration, in any order, select the variant that the metadata does. */
  lemma VariantHead(compact: Compact, md: Metadata, lookup: seq<Leaf>, input: seq<Byte>, t: nat, variants: seq<Variant>)
    requires DistinctIndexes(variants) && variants != [] && Enumerations(md, variants).Some?
    requires GroupHas(lookup, t, Enumerations(md, variants).value)
    ensures SameHead(md, HeadOf(compact, VariantOf(variants), input), ReadHead(compact, lookup, input, t))
  {
    hide GetTypeRefs, Selects, VariantAt, Select, Enumerations, Group, GroupHas;
    GroupOfVariants(md, lookup, t, variants);
    if input != [] {
      SameSelection(md, lookup, t, variants, input[0]);
    }
  }

  lemma GroupOfVariants(md: Metadata, lookup: seq<Leaf>, t: nat, variants: seq<Variant>)
    requires variants != [] && Enumerations(md, variants).Some?
    requires GroupHas(lookup, t, Enumerations(md, variants).value)
    ensures Group(lookup, t) != [] && lookup[Group(lookup, t)[0]].def.Enumeration?
  {
    hide GetTypeRefs;
    var typeDefs, group := Enumerations(md, variants).value, Group(lookup, t);
    hide Enumerations;
    assert 0 < |typeDefs|;
    assert InGroup(lookup, t, typeDefs[0]);
    assert lookup[group[0]].def in typeDefs;
  }

  lemma SameSelection(md: Metadata, lookup: seq<Leaf>, t: nat, variants: seq<Variant>, index: nat)
    requires DistinctIndexes(variants) && Enumerations(md, variants).Some?
    requires GroupHas(lookup, t, Enumerations(md, variants).value)
    ensures var found, v := Select(lookup, Group(lookup, t), index), VariantAt(variants, index);
            && (found.Some? <==> v.Some?)
            && (found.Some? ==> IsVariant(md, v.value, lookup[found.value].def))
  {
    hide GetTypeRefs;
    var typeDefs, group := Enumerations(md, variants).value, Group(lookup, t);
    hide Enumerations;
    var found, v := Select(lookup, group, index), VariantAt(variants, index);
    GroupIs(lookup, t);
    SelectIs(lookup, group, index);
    if found.Some? {
      assert lookup[found.value].def in typeDefs;
      var m: nat :| m < |typeDefs| && typeDefs[m] == lookup[found.value].def;
      SameVariant(variants, m, index);
    }
    if v.Some? {
      VariantSelected(md, lookup, t, variants, index);
    }
  }

  lemma VariantSelected(md: Metadata, lookup: seq<Leaf>, t: nat, variants: seq<Variant>, index: nat)
    requires Enumerations(md, variants).Some? && VariantAt(variants, index).Some?
    requires GroupHas(lookup, t, Enumerations(md, variants).value)
    ensures Select(lookup, Group(lookup, t), index).Some?
  {
    hide GetTypeRefs;
    var typeDefs, group := Enumerations(md, variants).value, Group(lookup, t);
    hide Enumerations;
    GroupIs(lookup, t);
    var m :| 0 <= m < |variants| && variants[m] == VariantAt(variants, index).value;
    assert InGroup(lookup, t, typeDefs[m]);
    var i :| 0 <= i < |group| && lookup[group[i]].def == typeDefs[m];
    assert Selects(lookup, group[i], index);
    SelectIs(lookup, group, index);
  }

  lemma SameVariant(variants: seq<Variant>, m: nat, index: nat)
    requires DistinctIndexes(variants) && m < |variants| && variants[m].index == index
    ensures VariantAt(variants, index) == Some(variants[m])
  {
    assert variants[m] in variants;
    var v := VariantAt(variants, index);
    if v.Some? {
      var i :| 0 <= i < |variants| && variants[i] == v.value;
    }
  }

  lemma SoleOfGroup(lookup: seq<Leaf>, t: nat, typeDefs: seq<TypeDef>)
    requires GroupHas(lookup, t, typeDefs) && |typeDefs| == 1
    ensures Group(lookup, t) != [] && lookup[Group(lookup, t)[0]].def == typeDefs[0]
  {
    var group := Group(lookup, t);
    assert InGroup(lookup, t, typeDefs[0]);
    assert lookup[group[0]].def in typeDefs;
  }

  lemma HeadsAgree(compact: Compact, c: Compilation, input: seq<Byte>, id: nat)
    requires Compiled(c) && id in c.md.ids
    requires id in c.md.defs && !c.md.defs[id].BitSequenceOf? && DistinctVariants(c.md.defs)
    ensures SameHead(c.md, HeadOf(compact, c.md.defs[id], input), ReadHead(compact, c.lookup, input, c.md.ids[id]))
  {
    assert Kept(c.md.defs, id);
    GroupOfType(c, id);
    OneLeaf(c.md, id);
    hide *;
    if c.md.defs[id].VariantOf? {
      assert DistinctIndexes(c.md.defs[id].variants);
      VariantHead(compact, c.md, c.lookup, input, c.md.ids[id], c.md.defs[id].variants);
    } else {
      SoleOfGroup(c.lookup, c.md.ids[id], ConstructTypeDef(c.md, id).value);
      PlainHead(compact, c.md, c.lookup, input, id, c.md.ids[id]);
    }
  }

  /** The decoder rejects every bit sequence. */
  lemma BitSequenceFails(compact: Compact, c: Compilation, input: seq<Byte>, id: nat)
    requires Compiled(c) && id in c.md.ids && id in c.md.defs && c.md.defs[id].BitSequenceOf?
    ensures ReadHead(compact, c.lookup, input, c.md.ids[id]).None?
  {
    assert Kept(c.md.defs, id);
    GroupOfType(c, id);
    hide Compiled, GroupHas, Group;
    SoleOfGroup(c.lookup, c.md.ids[id], ConstructTypeDef(c.md, id).value);
  }

  /** A compiled lookup over definitions that make sense by themselves. */
  ghost predicate WellMade(c: Compilation) {
    && Compiled(c)
    && AllDefined(c.md.defs) && DistinctVariants(c.md.defs) && Closed(Leads(c.md.defs), c.md.ids.Keys)
  }

  ghost predicate IsRoot(c: Compilation, id: nat) {
    id in c.md.defs && (Kept(c.md.defs, id) ==> id in c.md.ids)
  }

  /** Decoding with the leaves is the lenient reading: the same bytes, and an error where it is one. */
  lemma {:induction false} DecodesLeniently(compact: Compact, c: Compilation, fuel: nat, input: seq<Byte>, id: nat)
    requires WellMade(c) && IsRoot(c, id) && GetTypeRef(c.md, id).Some?
    ensures Agrees(ReadType(compact, c.md.defs, c.md.stack, true, fuel, input, id),
                   Decode(compact, c.lookup, fuel, input, GetTypeRef(c.md, id).value))
    decreases fuel, 0, 0
  {
    hide Lists, Rearranges, Numbers, HeadOf, ReadHead, GetTypeRefs, DecodeAll, ReadTypes;
    if Kept(c.md.defs, id) && fuel > 0 {
      if c.md.defs[id].BitSequenceOf? {
        BitSequenceFails(compact, c, input, id);
      } else {
        DecodesPartsLeniently(compact, c, fuel, input, id);
      }
    }
  }

  lemma {:induction false} DecodesPartsLeniently(compact: Compact, c: Compilation, fuel: nat, input: seq<Byte>, id: nat)
    requires WellMade(c) && Kept(c.md.defs, id) && id in c.md.ids && fuel > 0 && !c.md.defs[id].BitSequenceOf?
    ensures Agrees(ReadType(compact, c.md.defs, c.md.stack, true, fuel, input, id),
                   Decode(compact, c.lookup, fuel, input, PerId(c.md.ids[id])))
    decreases fuel - 1, 2, 0
  {
    hide Lists, Rearranges, Numbers, HeadOf, ReadHead, GetTypeRefs, DecodeAll, ReadTypes;
    HeadsAgree(compact, c, input, id);
    var part := HeadOf(compact, c.md.defs[id], input);
    if part.Some? {
      PartsAreChildren(compact, c.md.defs[id], input);
      assert Leads(c.md.defs)(id) <= c.md.ids.Keys;
      DecodesAllLeniently(compact, c, fuel - 1, part.value.rest, part.value.types);
    }
  }

  lemma {:induction false} DecodesAllLeniently(compact: Compact, c: Compilation, fuel: nat, input: seq<Byte>,
                                               types: seq<nat>)
    requires WellMade(c) && GetTypeRefs(c.md, types).Some? && forall id :: id in types ==> IsRoot(c, id)
    ensures Agrees(ReadTypes(compact, c.md.defs, c.md.stack, true, fuel, input, types),
                   DecodeAll(compact, c.lookup, fuel, input, GetTypeRefs(c.md, types).value))
    decreases fuel, 1, |types|
  {
    hide WellMade, IsRoot, GetTypeRef, Decode, ReadType;
    if types != [] {
      var n := |types| - 1;
      assert forall id :: id in types[..n] ==> id in types;
      DecodesAllLeniently(compact, c, fuel, input, types[..n]);
      var before := ReadTypes(compact, c.md.defs, c.md.stack, true, fuel, input, types[..n]);
      var refs := GetTypeRefs(c.md, types).value;
      assert refs[..n] == GetTypeRefs(c.md, types[..n]).value;
      assert types[n] in types;
      if before.Read? {
        DecodesLeniently(compact, c, fuel, before.rest, types[n]);
      }
    }
  }

  lemma PartsAreChildren(compact: Compact, def: Def, input: seq<Byte>)
    requires HeadOf(compact, def, input).Some?
    ensures forall id :: id in HeadOf(compact, def, input).value.types ==> id in Children(def)
  {
    if def.VariantOf? {
      var v := VariantAt(def.variants, input[0]).value;
      var m :| 0 <= m < |def.variants| && def.variants[m] == v;
      forall id | id in v.fields ensures id in Children(def) {
        var k :| 0 <= k < |v.fields| && v.fields[k] == id;
        FieldIn(def.variants, m, k);
      }
    }
  }

  /** Leniency matters only where an enumeration without variants is met. */
  lemma {:induction false} StrictOrNoVariant(compact: Compact, defs: Defs, stack: nat, fuel: nat, input: seq<Byte>,
                                             id: nat)
    ensures var strict := ReadType(compact, defs, stack, false, fuel, input, id);
            strict.NoVariant? || strict == ReadType(compact, defs, stack, true, fuel, input, id)
    decreases fuel, 0, 0
  {
    hide HeadOf, ReadTypes, GetPrimitive, SkipPrim;
    if id in defs && fuel > 0 {
      var part := HeadOf(compact, defs[id], input);
      if part.Some? {
        StrictOrNoVariantAll(compact, defs, stack, fuel - 1, part.value.rest, part.value.types);
      }
    }
  }

  lemma {:induction false} StrictOrNoVariantAll(compact: Compact, defs: Defs, stack: nat, fuel: nat, input: seq<Byte>,
                                                types: seq<nat>)
    ensures var strict := ReadTypes(compact, defs, stack, false, fuel, input, types);
            strict.NoVariant? || strict == ReadTypes(compact, defs, stack, true, fuel, input, types)
    decreases fuel, 1, |types|
  {
    hide ReadType;
    if types != [] {
      var n := |types| - 1;
      StrictOrNoVariantAll(compact, defs, stack, fuel, input, types[..n]);
      var before := ReadTypes(compact, defs, stack, false, fuel, input, types[..n]);
      if before.Read? {
        StrictOrNoVariant(compact, defs, stack, fuel, before.rest, types[n]);
      }
    }
  }

  /**
   * Decoding with the leaves reads what the metadata says, the same bytes and an error where it is
   * one, except exactly where the metadata meets an enumeration without variants and yet, read as if
   * that were `()`, the bytes are no error.
   */
  lemma MeansTheSameIff(compact: Compact, c: Compilation, fuel: nat, input: seq<Byte>, types: seq<nat>)
    requires WellMade(c) && GetTypeRefs(c.md, types).Some? && forall id :: id in types ==> IsRoot(c, id)
    ensures var strict := ReadTypes(compact, c.md.defs, c.md.stack, false, fuel, input, types);
            var lenient := ReadTypes(compact, c.md.defs, c.md.stack, true, fuel, input, types);
            var o := DecodeAll(compact, c.lookup, fuel, input, GetTypeRefs(c.md, types).value);
            Agrees(strict, o) <==> !(strict.NoVariant? && (lenient.Read? || lenient.BeyondFuel?))
  {
    hide WellMade, IsRoot, ReadTypes, DecodeAll;
    DecodesAllLeniently(compact, c, fuel, input, types);
    StrictOrNoVariantAll(compact, c.md.defs, c.md.stack, fuel, input, types);
  }

  /** These types, and what they mention, are no enumerations without variants. */
  ghost predicate NoEmptyEnumerations(defs: Defs, types: set<nat>) {
    forall id :: id in types && id in defs ==>
      defs[id] != VariantOf([]) && forall child :: child in Children(defs[id]) ==> child in types
  }

  lemma {:induction false} NeverNoVariant(compact: Compact, defs: Defs, stack: nat, lenient: bool, all: set<nat>,
                                          fuel: nat,
                                          input: seq<Byte>, id: nat)
    requires NoEmptyEnumerations(defs, all) && id in all
    ensures !ReadType(compact, defs, stack, lenient, fuel, input, id).NoVariant?
    decreases fuel, 0, 0
  {
    hide HeadOf, ReadTypes, GetPrimitive, SkipPrim, Children;
    if id in defs && fuel > 0 {
      var part := HeadOf(compact, defs[id], input);
      if part.Some? {
        PartsAreChildren(compact, defs[id], input);
        NeverNoVariantAll(compact, defs, stack, lenient, all, fuel - 1, part.value.rest, part.value.types);
      }
    }
  }

  lemma {:induction false} NeverNoVariantAll(compact: Compact, defs: Defs, stack: nat, lenient: bool, all: set<nat>,
                                             fuel: nat,
                                             input: seq<Byte>, types: seq<nat>)
    requires NoEmptyEnumerations(defs, all) && forall id :: id in types ==> id in all
    ensures !ReadTypes(compact, defs, stack, lenient, fuel, input, types).NoVariant?
    decreases fuel, 1, |types|
  {
    hide ReadType, NoEmptyEnumerations;
    if types != [] {
      var n := |types| - 1;
      assert forall id :: id in types[..n] ==> id in types;
      NeverNoVariantAll(compact, defs, stack, lenient, all, fuel, input, types[..n]);
      var before := ReadTypes(compact, defs, stack, lenient, fuel, input, types[..n]);
      assert types[n] in types;
      if before.Read? {
        NeverNoVariant(compact, defs, stack, lenient, all, fuel, before.rest, types[n]);
      }
    }
  }

  /** For types that lead to no enumeration without variants decoding always reads what the metadata says. */
  lemma MeansTheSame(compact: Compact, c: Compilation, all: set<nat>, fuel: nat, input: seq<Byte>, types: seq<nat>)
    requires WellMade(c) && GetTypeRefs(c.md, types).Some? && forall id :: id in types ==> IsRoot(c, id)
    requires NoEmptyEnumerations(c.md.defs, all) && forall id :: id in types ==> id in all
    ensures Agrees(ReadTypes(compact, c.md.defs, c.md.stack, false, fuel, input, types),
                   DecodeAll(compact, c.lookup, fuel, input, GetTypeRefs(c.md, types).value))
  {
    MeansTheSameIff(compact, c, fuel, input, types);
    NeverNoVariantAll(compact, c.md.defs, c.md.stack, false, all, fuel, input, types);
  }

  /** The lookup for a chain whose only type is an enumeration without variants. */
  function NothingKept(): Compilation {
    Compilation(Metadata(map[0 := VariantOf([])], map[], 1), [], [], [], [])
  }

  lemma NothingKeptIsWellMade()
    ensures WellMade(NothingKept()) && IsRoot(NothingKept(), 0)
  {
  }

  /** An enumeration without variants has no values, and yet it is decoded from nothing. */
  lemma NoVariantIsVoid(compact: Compact, fuel: nat, input: seq<Byte>)
    ensures var c := NothingKept();
            && WellMade(c) && IsRoot(c, 0) && GetTypeRefs(c.md, [0]) == Some([VoidRef])
            && ReadTypes(compact, c.md.defs, c.md.stack, false, fuel, input, [0]) == NoVariant
            && DecodeAll(compact, c.lookup, fuel, input, [VoidRef]) == Done(input, {})
  {
    NothingKeptIsWellMade();
    var c := NothingKept();
    OneRef(c.md, 0, VoidRef);
    OneRead(compact, c.md.defs, c.md.stack, fuel, input, 0);
    OneDecoded(compact, c.lookup, fuel, input, VoidRef);
    hide WellMade, IsRoot, GetTypeRefs, ReadTypes, DecodeAll;
  }

  /** Decoding may also fail behind an enumeration without variants, which the metadata cannot get past. */
  lemma FailsAllTheSame(compact: Compact, stack: nat, fuel: nat)
    ensures var defs := map[0 := VariantOf([]), 1 := Primitive(U8)];
            && ReadTypes(compact, defs, stack, false, fuel, [], [0, 1]) == NoVariant
            && GetTypeRef(Metadata(defs, map[], stack), 0) == Some(VoidRef)
            && GetTypeRef(Metadata(defs, map[], stack), 1) == Some(PrimRef(U8))
            && DecodeAll(compact, [], fuel, [], [VoidRef, PrimRef(U8)]) == Failed
  {
    var defs := map[0 := VariantOf([]), 1 := Primitive(U8)];
    OneRead(compact, defs, stack, fuel, [], 0);
    ReadingStops(compact, defs, stack, fuel, [], [0], 1);
    assert [0] + [1] == [0, 1];
    OneDecoded(compact, [], fuel, [], VoidRef);
    var refs := [VoidRef, PrimRef(U8)];
    assert refs[..1] == [VoidRef] && refs[..2] == refs;
    NextDecoded(compact, [], fuel, [], refs, 1);
    hide ReadTypes, DecodeAll;
  }

  lemma ReadingStops(compact: Compact, defs: Defs, stack: nat, fuel: nat, input: seq<Byte>, types: seq<nat>, id: nat)
    requires !ReadTypes(compact, defs, stack, false, fuel, input, types).Read?
    ensures ReadTypes(compact, defs, stack, false, fuel, input, types + [id])
            == ReadTypes(compact, defs, stack, false, fuel, input, types)
  {
    hide ReadType;
    assert (types + [id])[..|types|] == types;
  }

  lemma OneRef(md: Metadata, id: nat, ty: TypeRef)
    requires GetTypeRef(md, id) == Some(ty)
    ensures GetTypeRefs(md, [id]) == Some([ty])
  {
    hide GetTypeRef;
    assert [id][..0] == [];
    assert GetTypeRefs(md, []) == Some([]);
    var refs := GetTypeRefs(md, [id]);
    assert refs.Some? && refs.value == [ty];
  }

  lemma OneRead(compact: Compact, defs: Defs, stack: nat, fuel: nat, input: seq<Byte>, id: nat)
    ensures ReadTypes(compact, defs, stack, false, fuel, input, [id])
            == ReadType(compact, defs, stack, false, fuel, input, id)
  {
    hide ReadType;
    assert [id][..0] == [];
    assert ReadTypes(compact, defs, stack, false, fuel, input, []) == Read(input);
  }

  lemma OneDecoded(compact: Compact, lookup: seq<Leaf>, fuel: nat, input: seq<Byte>, ty: TypeRef)
    ensures DecodeAll(compact, lookup, fuel, input, [ty]) == Decode(compact, lookup, fuel, input, ty)
  {
    hide Decode;
    assert [ty][..0] == [];
    assert DecodeAll(compact, lookup, fuel, input, []) == Done(input, {});
  }

  /** The leaves of a proof, by themselves and in whatever order, read what the metadata says, leniently or not. */
  lemma ProofReadsMetadata(compact: Compact, c: Compilation, lenient: bool, fuel: nat, input: seq<Byte>,
                           types: seq<nat>, known: seq<nat>)
    requires WellMade(c) && GetTypeRefs(c.md, types).Some? && forall id :: id in types ==> IsRoot(c, id)
    requires ReadTypes(compact, c.md.defs, c.md.stack, lenient, fuel, input, types).Read?
    requires NoDuplicates(known) && Within(known, c.lookup)
    requires var d := DecodeAll(compact, c.lookup, fuel, input, GetTypeRefs(c.md, types).value);
             d.Done? ==> forall k :: k in known <==> k in d.leaves
    ensures DecodeAll(compact, Restrict(c.lookup, known), fuel, input, GetTypeRefs(c.md, types).value)
            == Done(ReadTypes(compact, c.md.defs, c.md.stack, lenient, fuel, input, types).rest, AllPositions(known))
  {
    hide ReadTypes, DecodeAll, GetTypeRefs, AllPositions, IsRoot, Lists, Rearranges, Numbers;
    DecodesAllLeniently(compact, c, fuel, input, types);
    StrictOrNoVariantAll(compact, c.md.defs, c.md.stack, fuel, input, types);
    LookupIsDistinct(c);
    AnyOrderKeeps(c.lookup, known);
    var refs := GetTypeRefs(c.md, types).value;
    assert DecodeAll(compact, c.lookup, fuel, input, refs).leaves == set k | k in known;
    ProofSuffices(compact, c.lookup, known, fuel, input, refs);
  }
}
