/** Extracting the types that a chain uses, and merging those of several chains. */
module UsedTypes {
  import opened Basics
  import opened Closures

  datatype Payload = Inline(node: Node) | Lookup(id: nat)

  datatype Variant = Variant(name: string, payload: Payload)

  /** A type definition; other types are referred to by number. */
  datatype Node =
    | StructNode(fields: seq<(string, nat)>)
    | TerminalNode(prim: Primitive)
    | EnumNode(variants: seq<Variant>)
    | TupleNode(items: seq<nat>)
    | ArrayNode(typeRef: nat, length: Option<nat>)
    | BinaryNode(size: Option<nat>)
    | OptionNode(value: nat)
    | ResultNode(ok: nat, ko: nat)

  /** The references in a node, in order. */
  function Refs(n: Node): seq<nat> {
    match n
    case StructNode(fields) => Seconds(fields)
    case EnumNode(variants) => VariantRefs(variants)
    case TupleNode(items) => items
    case ArrayNode(typeRef, _) => [typeRef]
    case OptionNode(value) => [value]
    case ResultNode(ok, ko) => [ok, ko]
    case _ => []
  }

  function Seconds(fields: seq<(string, nat)>): (r: seq<nat>)
    ensures |r| == |fields| && forall i :: 0 <= i < |r| ==> r[i] == fields[i].1
  {
    seq(|fields|, i requires 0 <= i < |fields| => fields[i].1)
  }

  function VariantRefs(variants: seq<Variant>): seq<nat> {
    if variants == [] then [] else PayloadRefs(variants[0].payload) + VariantRefs(variants[1..])
  }

  function PayloadRefs(p: Payload): seq<nat> {
    match p
    case Inline(node) => Refs(node)
    case Lookup(id) => [id]
  }

  function MapAll(refs: seq<nat>, f: nat -> nat): (r: seq<nat>)
    ensures |r| == |refs| && forall i :: 0 <= i < |r| ==> r[i] == f(refs[i])
  {
    seq(|refs|, i requires 0 <= i < |refs| => f(refs[i]))
  }

  /** The node with every reference replaced. */
  function MapReferences(n: Node, f: nat -> nat): Node {
    match n
    case ArrayNode(typeRef, length) => ArrayNode(f(typeRef), length)
    case OptionNode(value) => OptionNode(f(value))
    case ResultNode(ok, ko) => ResultNode(f(ok), f(ko))
    case TupleNode(items) => TupleNode(MapAll(items, f))
    case StructNode(fields) => StructNode(seq(|fields|, i requires 0 <= i < |fields| => (fields[i].0, f(fields[i].1))))
    case EnumNode(variants) => EnumNode(MapVariants(variants, f))
    case BinaryNode(_) => n
    case TerminalNode(_) => n
  }

  function MapVariants(variants: seq<Variant>, f: nat -> nat): seq<Variant> {
    if variants == [] then []
    else [Variant(variants[0].name, MapPayload(variants[0].payload, f))] + MapVariants(variants[1..], f)
  }

  function MapPayload(p: Payload, f: nat -> nat): Payload {
    match p
    case Inline(node) => Inline(MapReferences(node, f))
    case Lookup(id) => Lookup(f(id))
  }

  lemma MapAllOfBoth(a: seq<nat>, b: seq<nat>, f: nat -> nat)
    ensures MapAll(a + b, f) == MapAll(a, f) + MapAll(b, f)
  {
  }

  /** Exactly the references are replaced, each in its place. */
  lemma {:induction false} RefsOfMapped(n: Node, f: nat -> nat)
    ensures Refs(MapReferences(n, f)) == MapAll(Refs(n), f)
  {
    match n
    case EnumNode(variants) => RefsOfMappedVariants(variants, f);
    case _ =>
  }

  lemma {:induction false} RefsOfMappedPayload(p: Payload, f: nat -> nat)
    ensures PayloadRefs(MapPayload(p, f)) == MapAll(PayloadRefs(p), f)
  {
    match p
    case Inline(node) => RefsOfMapped(node, f);
    case Lookup(_) =>
  }

  lemma {:induction false} RefsOfMappedVariants(variants: seq<Variant>, f: nat -> nat)
    ensures VariantRefs(MapVariants(variants, f)) == MapAll(VariantRefs(variants), f)
  {
    hide PayloadRefs, MapPayload, MapAll;
    if variants != [] {
      RefsOfMappedPayload(variants[0].payload, f);
      RefsOfMappedVariants(variants[1..], f);
      MapAllOfBoth(PayloadRefs(variants[0].payload), VariantRefs(variants[1..]), f);
      assert MapVariants(variants, f)[1..] == MapVariants(variants[1..], f);
    } else {
      NothingMapped(f);
    }
  }

  lemma NothingMapped(f: nat -> nat)
    ensures MapAll([], f) == []
  {
  }

  /** On these references `g` undoes `f`. */
  ghost predicate Undoes(g: nat -> nat, f: nat -> nat, refs: seq<nat>) {
    forall i :: 0 <= i < |refs| ==> g(f(refs[i])) == refs[i]
  }

  lemma UndoesParts(g: nat -> nat, f: nat -> nat, a: seq<nat>, b: seq<nat>)
    requires Undoes(g, f, a + b)
    ensures Undoes(g, f, a) && Undoes(g, f, b)
  {
    assert forall i :: 0 <= i < |a| ==> (a + b)[i] == a[i];
    assert forall i :: 0 <= i < |b| ==> (a + b)[|a| + i] == b[i];
  }

  /** And nothing else: replacing them back restores the node. */
  lemma {:induction false} MappedBack(n: Node, f: nat -> nat, g: nat -> nat)
    requires Undoes(g, f, Refs(n))
    ensures MapReferences(MapReferences(n, f), g) == n
  {
    match n
    case EnumNode(variants) => MappedBackVariants(variants, f, g);
    case StructNode(fields) =>
      assert forall i :: 0 <= i < |fields| ==> Refs(n)[i] == fields[i].1;
      assert MapReferences(MapReferences(n, f), g).fields == fields;
    case TupleNode(items) =>
      var back := MapAll(MapAll(items, f), g);
      assert forall i :: 0 <= i < |items| ==> back[i] == g(f(items[i])) && items[i] == Refs(n)[i];
      assert back == items;
    case ResultNode(ok, ko) =>
      assert Refs(n)[0] == ok && Refs(n)[1] == ko;
    case ArrayNode(t, _) => assert Refs(n)[0] == t;
    case OptionNode(t) => assert Refs(n)[0] == t;
    case _ =>
  }

  lemma {:induction false} MappedBackPayload(p: Payload, f: nat -> nat, g: nat -> nat)
    requires Undoes(g, f, PayloadRefs(p))
    ensures MapPayload(MapPayload(p, f), g) == p
  {
    match p
    case Inline(node) => MappedBack(node, f, g);
    case Lookup(id) => assert PayloadRefs(p)[0] == id;
  }

  lemma {:induction false} MappedBackVariants(variants: seq<Variant>, f: nat -> nat, g: nat -> nat)
    requires Undoes(g, f, VariantRefs(variants))
    ensures MapVariants(MapVariants(variants, f), g) == variants
  {
    hide Undoes, PayloadRefs, MapPayload;
    if variants != [] {
      UndoesParts(g, f, PayloadRefs(variants[0].payload), VariantRefs(variants[1..]));
      MappedBackPayload(variants[0].payload, f, g);
      MappedBackVariants(variants[1..], f, g);
      assert MapVariants(variants, f)[1..] == MapVariants(variants[1..], f);
    }
  }

  // ---------------------------------------------------------------- lookup entries

  datatype MetadataPrimitive =
    | Bool | Char | Str
    | U8 | U16 | U32 | U64 | U128 | U256
    | I8 | I16 | I32 | I64 | I128 | I256

  /** Another entry of the lookup, and whether it is the primitive `u8`. */
  datatype Entry = Entry(id: nat, isU8: bool)

  datatype EnumValue = EntryValue(entry: Entry) | VarValue(inner: Var)

  datatype EnumCase = EnumCase(name: string, value: EnumValue)

  datatype Var =
    | AccountId
    | PrimitiveVar(prim: MetadataPrimitive)
    | VoidVar
    | CompactVar(isBig: bool)
    | BitSequenceVar
    | TupleVar(items: seq<Entry>)
    | StructVar(fields: seq<(string, Entry)>)
    | EnumVar(values: seq<EnumCase>)
    | OptionVar(some: Entry)
    | ResultVar(ok: Entry, ko: Entry)
    | SequenceVar(item: Entry)
    | ArrayVar(element: Entry, len: nat)

  function PrimitiveToTerminal(p: MetadataPrimitive): Primitive {
    match p
    case I256 => PBig case I128 => PBig case I64 => PBig
    case I32 => PNum case I16 => PNum case I8 => PNum
    case U256 => PBig case U128 => PBig case U64 => PBig
    case U32 => PNum case U16 => PNum case U8 => PNum
    case Bool => PBool case Char => PStr case Str => PStr
  }

  function MapLookupToTypedef(v: Var): Node {
    match v
    case AccountId => TerminalNode(PStr)
    case ArrayVar(element, len) => if element.isU8 then BinaryNode(Some(len)) else ArrayNode(element.id, Some(len))
    case BitSequenceVar => TerminalNode(PBits)
    case CompactVar(isBig) => TerminalNode(if isBig then PBig else PNum)
    case EnumVar(values) => EnumNode(EnumVariants(values))
    case StructVar(fields) => StructNode(seq(|fields|, i requires 0 <= i < |fields| => (fields[i].0, fields[i].1.id)))
    case TupleVar(items) => TupleNode(seq(|items|, i requires 0 <= i < |items| => items[i].id))
    case OptionVar(some) => OptionNode(some.id)
    case PrimitiveVar(p) => TerminalNode(PrimitiveToTerminal(p))
    case ResultVar(ok, ko) => ResultNode(ok.id, ko.id)
    case SequenceVar(item) => if item.isU8 then BinaryNode(None) else ArrayNode(item.id, None)
    case VoidVar => TerminalNode(PVoid)
  }

  function EnumVariants(values: seq<EnumCase>): seq<Variant> {
    if values == [] then []
    else
      var payload := match values[0].value
                     case EntryValue(entry) => Lookup(entry.id)
                     case VarValue(inner) => Inline(MapLookupToTypedef(inner));
      [Variant(values[0].name, payload)] + EnumVariants(values[1..])
  }

  lemma {:induction false} VariantOfCase(values: seq<EnumCase>, i: nat)
    requires i < |values|
    ensures |EnumVariants(values)| == |values|
    ensures EnumVariants(values)[i].name == values[i].name
    ensures EnumVariants(values)[i].payload
         == match values[i].value
            case EntryValue(entry) => Lookup(entry.id)
            case VarValue(inner) => Inline(MapLookupToTypedef(inner))
  {
    hide MapLookupToTypedef;
    if i > 0 {
      VariantOfCase(values[1..], i - 1);
    } else {
      SameCount(values);
    }
  }

  lemma {:induction false} SameCount(values: seq<EnumCase>)
    ensures |EnumVariants(values)| == |values|
  {
    hide MapLookupToTypedef;
    if values != [] {
      SameCount(values[1..]);
    }
  }

  // ------------------------------------------------------------------ used types

  datatype EntryPointNode = LookupNode(id: nat) | TypedefNode(node: Node)

  datatype EntryPoint = EntryPoint(args: EntryPointNode, values: EntryPointNode)

  function PointRefs(p: EntryPointNode): seq<nat> {
    match p
    case LookupNode(id) => [id]
    case TypedefNode(node) => Refs(node)
  }

  function EntryPointRefs(e: EntryPoint): seq<nat> {
    PointRefs(e.args) + PointRefs(e.values)
  }

  ghost predicate AllBelow(refs: seq<nat>, n: nat) {
    forall i :: 0 <= i < |refs| ==> refs[i] < n
  }

  /** Every reference of every entry is to an entry. */
  ghost predicate InRange(lookup: seq<Var>) {
    forall id :: 0 <= id < |lookup| ==> AllBelow(Refs(MapLookupToTypedef(lookup[id])), |lookup|)
  }

  /** The references have checksums. */
  ghost predicate HaveChecksums(refs: seq<nat>, checksums: map<nat, string>) {
    forall i :: 0 <= i < |refs| ==> refs[i] in checksums
  }

  ghost predicate AllHaveChecksums(nodes: map<string, Node>, checksums: map<nat, string>) {
    forall c :: c in nodes ==> HaveChecksums(Refs(nodes[c]), checksums)
  }

  ghost predicate AllPointsHave(points: map<string, EntryPoint>, checksums: map<nat, string>) {
    forall c :: c in points ==> HaveChecksums(EntryPointRefs(points[c]), checksums)
  }

  ghost predicate Grows(before: map<nat, string>, after: map<nat, string>) {
    forall id :: id in before ==> id in after && after[id] == before[id]
  }

  lemma ChecksumsGrow(refs: seq<nat>, nodes: map<string, Node>, points: map<string, EntryPoint>,
                      before: map<nat, string>, after: map<nat, string>)
    requires Grows(before, after)
    ensures HaveChecksums(refs, before) ==> HaveChecksums(refs, after)
    ensures AllHaveChecksums(nodes, before) ==> AllHaveChecksums(nodes, after)
    ensures AllPointsHave(points, before) ==> AllPointsHave(points, after)
  {
  }

  /** What was collected so far. */
  datatype Collected = Collected(
    checksums: map<nat, string>,
    visited: set<string>,
    types: map<string, Node>,
    entryPoints: map<string, EntryPoint>)

  /** The checksums that there can be. */
  ghost function Checksums(lookup: seq<Var>, checksumOf: nat -> string): set<string> {
    set id | 0 <= id < |lookup| :: checksumOf(id)
  }

  /** The node is that of an entry that was collected under its checksum. */
  ghost predicate FromLookup(lookup: seq<Var>, checksums: map<nat, string>, c: string, node: Node) {
    exists id: nat :: id in checksums && checksums[id] == c && id < |lookup| && node == MapLookupToTypedef(lookup[id])
  }

  ghost predicate AllFromLookup(lookup: seq<Var>, checksums: map<nat, string>, types: map<string, Node>) {
    forall c :: c in types ==> FromLookup(lookup, checksums, c, types[c])
  }

  lemma StillFromLookup(lookup: seq<Var>, types: map<string, Node>, before: map<nat, string>, after: map<nat, string>)
    requires AllFromLookup(lookup, before, types) && Grows(before, after)
    ensures AllFromLookup(lookup, after, types)
  {
    forall c | c in types ensures FromLookup(lookup, after, c, types[c]) {
      assert FromLookup(lookup, before, c, types[c]);
      var id: nat :| id in before && before[id] == c && id < |lookup| && types[c] == MapLookupToTypedef(lookup[id]);
      assert id in after && after[id] == c;
    }
  }

  /** What an entry refers to. */
  ghost function Leads(lookup: seq<Var>): nat -> set<nat> {
    (id: nat) => if id < |lookup| then Elements(Refs(MapLookupToTypedef(lookup[id]))) else {}
  }

  ghost predicate ChecksumsOk(lookup: seq<Var>, checksumOf: nat -> string, s: Collected) {
    forall id :: id in s.checksums ==>
        id < |lookup| && s.checksums[id] == checksumOf(id) && s.checksums[id] in s.visited
  }

  /** `open` are the types whose references are just being followed. */
  ghost predicate Good(lookup: seq<Var>, checksumOf: nat -> string, s: Collected, open: set<string>) {
    && ChecksumsOk(lookup, checksumOf, s)
    && s.visited == s.types.Keys + open && s.types.Keys !! open && s.visited <= Checksums(lookup, checksumOf)
    && AllFromLookup(lookup, s.checksums, s.types)
    && AllHaveChecksums(s.types, s.checksums) && AllPointsHave(s.entryPoints, s.checksums)
  }

  /** The type was already seen, perhaps under another id. */
  lemma SeenAgain(lookup: seq<Var>, checksumOf: nat -> string, s: Collected, open: set<string>, id: nat)
    requires Good(lookup, checksumOf, s, open) && id < |lookup| && checksumOf(id) in s.visited
    ensures Good(lookup, checksumOf, s.(checksums := s.checksums[id := checksumOf(id)]), open)
    ensures Grows(s.checksums, s.checksums[id := checksumOf(id)])
  {
    var after := s.checksums[id := checksumOf(id)];
    hide AllHaveChecksums, AllPointsHave, AllFromLookup;
    assert Grows(s.checksums, after);
    ChecksumsGrow([], s.types, s.entryPoints, s.checksums, after);
    StillFromLookup(lookup, s.types, s.checksums, after);
  }

  lemma TypeOpened(lookup: seq<Var>, checksumOf: nat -> string, s: Collected, open: set<string>, id: nat)
    requires Good(lookup, checksumOf, s, open) && id < |lookup| && checksumOf(id) !in s.visited
    ensures var checksum := checksumOf(id);
            && Good(lookup, checksumOf,
                    s.(checksums := s.checksums[id := checksum], visited := s.visited + {checksum}), open + {checksum})
            && Grows(s.checksums, s.checksums[id := checksum])
            && |Checksums(lookup, checksumOf) - (s.visited + {checksum})| < |Checksums(lookup, checksumOf) - s.visited|
            && checksum !in open
  {
    var after := s.checksums[id := checksumOf(id)];
    ChecksumSeen(lookup, checksumOf, s, id);
    ChecksumsGrow([], s.types, s.entryPoints, s.checksums, after);
    OneLess(Checksums(lookup, checksumOf), s.visited, checksumOf(id));
    StillFromLookup(lookup, s.types, s.checksums, after);
    OpenedSets(s.visited, s.types.Keys, open, Checksums(lookup, checksumOf), checksumOf(id));
    hide AllHaveChecksums, AllPointsHave, AllFromLookup, Checksums, ChecksumsOk, Grows;
  }

  lemma OpenedSets(visited: set<string>, keys: set<string>, open: set<string>, all: set<string>, x: string)
    requires visited == keys + open && keys !! open && visited <= all && x in all && x !in visited
    ensures visited + {x} == keys + (open + {x}) && keys !! open + {x} && visited + {x} <= all && x !in open
  {
  }

  lemma ChecksumSeen(lookup: seq<Var>, checksumOf: nat -> string, s: Collected, id: nat)
    requires ChecksumsOk(lookup, checksumOf, s) && id < |lookup|
    ensures checksumOf(id) in Checksums(lookup, checksumOf) && Grows(s.checksums, s.checksums[id := checksumOf(id)])
    ensures ChecksumsOk(lookup, checksumOf,
                        s.(checksums := s.checksums[id := checksumOf(id)], visited := s.visited + {checksumOf(id)}))
  {
  }

  /** All references of the type were followed. */
  lemma TypeClosed(lookup: seq<Var>, checksumOf: nat -> string, s: Collected, open: set<string>, id: nat)
    requires id < |lookup| && checksumOf(id) !in open && Good(lookup, checksumOf, s, open + {checksumOf(id)})
    requires id in s.checksums && HaveChecksums(Refs(MapLookupToTypedef(lookup[id])), s.checksums)
    ensures Good(lookup, checksumOf, s.(types := s.types[checksumOf(id) := MapLookupToTypedef(lookup[id])]), open)
  {
    var node := MapLookupToTypedef(lookup[id]);
    assert s.checksums[id] == checksumOf(id);
    hide MapLookupToTypedef, Refs, HaveChecksums, AllPointsHave, Checksums, ChecksumsOk;
    assert FromLookup(lookup, s.checksums, checksumOf(id), node);
  }

  lemma PointAdded(lookup: seq<Var>, checksumOf: nat -> string, s: Collected, checksum: string, entry: EntryPoint)
    requires Good(lookup, checksumOf, s, {}) && HaveChecksums(EntryPointRefs(entry), s.checksums)
    ensures Good(lookup, checksumOf, s.(entryPoints := s.entryPoints[checksum := entry]), {})
  {
    hide HaveChecksums, EntryPointRefs, AllHaveChecksums, AllFromLookup, Checksums;
  }

  /** In the end every reference has a checksum, and every checksum a stored type. */
  lemma ReferenceClosed(lookup: seq<Var>, checksumOf: nat -> string, s: Collected)
    requires Good(lookup, checksumOf, s, {})
    ensures ClosedTypes(s.types, s.entryPoints, s.checksums)
    ensures AllFromLookup(lookup, s.checksums, s.types)
    ensures forall id :: id in s.checksums ==> s.checksums[id] == checksumOf(id)
  {
    hide Refs, EntryPointRefs, AllFromLookup, Checksums;
  }

  class TypeCollector {
    const lookup: seq<Var>
    const checksumOf: nat -> string
    var checksums: map<nat, string>
    var visited: set<string>
    var types: map<string, Node>
    var entryPoints: map<string, EntryPoint>

    constructor (lookup: seq<Var>, checksumOf: nat -> string)
      ensures this.lookup == lookup && this.checksumOf == checksumOf && Ok({})
              && Now() == Collected(map[], {}, map[], map[])
    {
      this.lookup, this.checksumOf := lookup, checksumOf;
      checksums, visited, types, entryPoints := map[], {}, map[], map[];
    }

    ghost function Now(): Collected
      reads this
    {
      Collected(checksums, visited, types, entryPoints)
    }

    ghost predicate Ok(open: set<string>)
      reads this
    {
      Good(lookup, checksumOf, Now(), open)
    }

    /** Collects a type with all that it leads to. */
    method AddTypeFromLookup(id: nat, ghost open: set<string>)
      requires InRange(lookup) && id < |lookup| && Ok(open)
      modifies this`checksums, this`visited, this`types
      ensures Ok(open) && id in checksums && Grows(old(checksums), checksums) && old(visited) <= visited
      ensures OnlyNeeded(Leads(lookup), old(checksums).Keys, checksums.Keys, {id})
      decreases |Checksums(lookup, checksumOf) - visited|, 0
    {
      hide Good, MapLookupToTypedef, Refs, Checksums, InRange, Grows, OnlyNeeded, Elements;
      var checksum := checksumOf(id);
      NeededOne(Leads(lookup), checksums.Keys, id);
      assert checksums[id := checksum].Keys == checksums.Keys + {id};
      if checksum in visited {
        SeenAgain(lookup, checksumOf, Now(), open, id);
        checksums := checksums[id := checksum];
        return;
      }
      TypeOpened(lookup, checksumOf, Now(), open, id);
      checksums := checksums[id := checksum];
      visited := visited + {checksum};
      var node := MapLookupToTypedef(lookup[id]);
      EntryInRange(lookup, id);
      ghost var middle := checksums;
      AddAll(Refs(node), open + {checksum});
      GrowsOn(old(checksums), middle, checksums, id);
      TypeClosed(lookup, checksumOf, Now(), open, id);
      NeededInto(Leads(lookup), old(checksums).Keys, checksums.Keys, id);
      types := types[checksum := node];
    }

    method AddAll(refs: seq<nat>, ghost open: set<string>)
      requires InRange(lookup) && AllBelow(refs, |lookup|) && Ok(open)
      modifies this`checksums, this`visited, this`types
      ensures Ok(open) && HaveChecksums(refs, checksums) && Grows(old(checksums), checksums) && old(visited) <= visited
      ensures OnlyNeeded(Leads(lookup), old(checksums).Keys, checksums.Keys, Elements(refs))
      decreases |Checksums(lookup, checksumOf) - visited|, 1
    {
      hide Good, InRange, Checksums, Grows, HaveChecksums, OnlyNeeded, Elements;
      NoneYet(refs, checksums);
      NeededNone(Leads(lookup), checksums.Keys, {});
      ElementsOfNone<nat>();
      assert refs[..0] == [];
      for k := 0 to |refs|
        invariant Ok(open) && HaveChecksums(refs[..k], checksums) && Grows(old(checksums), checksums)
        invariant old(visited) <= visited
                  && OnlyNeeded(Leads(lookup), old(checksums).Keys, checksums.Keys, Elements(refs[..k]))
      {
        NotMore(Checksums(lookup, checksumOf), old(visited), visited);
        ghost var before := checksums;
        AddTypeFromLookup(refs[k], open);
        OneMore(refs, k, old(checksums), before, checksums);
        NeededMore(Leads(lookup), old(checksums).Keys, before.Keys, checksums.Keys, Elements(refs[..k]), {refs[k]});
        ElementsOfOne(refs[k]);
        ElementsOfBoth(refs[..k], [refs[k]]);
        NextPrefix(refs, k);
      }
      assert refs[..|refs|] == refs;
    }

    /** An entry point is kept together with all types that it leads to. */
    method AddTypeFromEntryPoint(checksum: string, entry: EntryPoint)
      requires InRange(lookup) && AllBelow(EntryPointRefs(entry), |lookup|) && Ok({})
      modifies this`checksums, this`visited, this`types, this`entryPoints
      ensures Ok({}) && Grows(old(checksums), checksums)
      ensures OnlyNeeded(Leads(lookup), old(checksums).Keys, checksums.Keys, Elements(EntryPointRefs(entry)))
      ensures entryPoints == old(entryPoints)[checksum := entry]
    {
      hide Good, InRange, EntryPointRefs, OnlyNeeded, Elements;
      AddAll(EntryPointRefs(entry), {});
      PointAdded(lookup, checksumOf, Now(), checksum, entry);
      entryPoints := entryPoints[checksum := entry];
    }
  }

  lemma EntryInRange(lookup: seq<Var>, id: nat)
    requires InRange(lookup) && id < |lookup|
    ensures AllBelow(Refs(MapLookupToTypedef(lookup[id])), |lookup|)
  {
  }

  lemma GrowsOn(a: map<nat, string>, b: map<nat, string>, c: map<nat, string>, id: nat)
    requires Grows(a, b) && Grows(b, c) && id in b
    ensures Grows(a, c) && id in c
  {
  }

  lemma NoneYet(refs: seq<nat>, checksums: map<nat, string>)
    ensures HaveChecksums(refs[..0], checksums) && Grows(checksums, checksums)
  {
  }

  lemma OneMore(refs: seq<nat>, k: nat, first: map<nat, string>, before: map<nat, string>, after: map<nat, string>)
    requires k < |refs| && HaveChecksums(refs[..k], before) && Grows(first, before) && Grows(before, after)
             && refs[k] in after
    ensures HaveChecksums(refs[..k + 1], after) && Grows(first, after)
  {
    var later := refs[..k + 1];
    forall i | 0 <= i < |later| ensures later[i] in after {
      assert i < k ==> refs[..k][i] in before;
    }
  }

  /** All that the entry points refer to. */
  ghost function PointsRefs(points: seq<(string, EntryPoint)>): seq<nat> {
    if points == [] then [] else PointsRefs(points[..|points| - 1]) + EntryPointRefs(points[|points| - 1].1)
  }

  /**
   * The types that the entry points lead to, of every checksum one. Nothing is missing, and nothing
   * is collected that no entry point leads to.
   */
  method CollectTypes(lookup: seq<Var>, checksumOf: nat -> string, points: seq<(string, EntryPoint)>)
    returns (types: map<string, Node>, entryPoints: map<string, EntryPoint>, checksums: map<nat, string>)
    requires InRange(lookup) && forall k :: 0 <= k < |points| ==> AllBelow(EntryPointRefs(points[k].1), |lookup|)
    ensures ClosedTypes(types, entryPoints, checksums)
    ensures AllFromLookup(lookup, checksums, types) && forall id :: id in checksums ==> checksums[id] == checksumOf(id)
    ensures forall k :: 0 <= k < |points| ==> points[k].0 in entryPoints
    ensures forall c :: c in entryPoints ==> (c, entryPoints[c]) in points
    ensures OnlyNeeded(Leads(lookup), {}, checksums.Keys, Elements(PointsRefs(points)))
  {
    hide Good, InRange, AllBelow, Grows, OnlyNeeded, Elements, EntryPointRefs;
    var collector := new TypeCollector(lookup, checksumOf);
    NeededNone(Leads(lookup), {}, {});
    ElementsOfNone<nat>();
    assert points[..0] == [];
    assert collector.checksums.Keys == {};
    for k := 0 to |points|
      invariant collector.Ok({}) && fresh(collector) && collector.lookup == lookup && collector.checksumOf == checksumOf
      invariant forall i :: 0 <= i < k ==> points[i].0 in collector.entryPoints
      invariant forall c :: c in collector.entryPoints ==> (c, collector.entryPoints[c]) in points
      invariant OnlyNeeded(Leads(lookup), {}, collector.checksums.Keys, Elements(PointsRefs(points[..k])))
    {
      ghost var before := collector.checksums.Keys;
      collector.AddTypeFromEntryPoint(points[k].0, points[k].1);
      ghost var refs, more := PointsRefs(points[..k]), EntryPointRefs(points[k].1);
      NeededMore(Leads(lookup), {}, before, collector.checksums.Keys, Elements(refs), Elements(more));
      ElementsOfBoth(refs, more);
      assert points[..k + 1][..k] == points[..k];
      assert (points[k].0, points[k].1) == points[k];
    }
    assert points[..|points|] == points;
    ReferenceClosed(lookup, checksumOf, collector.Now());
    types, entryPoints, checksums := collector.types, collector.entryPoints, collector.checksums;
  }

  // --------------------------------------------------------------------- merging

  /** Every reference has a checksum under which there is a type. */
  ghost predicate ClosedRefs(refs: seq<nat>, types: map<string, Node>, checksums: map<nat, string>) {
    forall i :: 0 <= i < |refs| ==> refs[i] in checksums && checksums[refs[i]] in types
  }

  ghost predicate ClosedTypes(types: map<string, Node>, entryPoints: map<string, EntryPoint>,
                              checksums: map<nat, string>) {
    && (forall c :: c in types ==> ClosedRefs(Refs(types[c]), types, checksums))
    && (forall c :: c in entryPoints ==> ClosedRefs(EntryPointRefs(entryPoints[c]), types, checksums))
  }

  datatype ChainTypes = ChainTypes(types: map<string, Node>, entryPoints: map<string, EntryPoint>,
                                   checksums: map<nat, string>)
  {
    ghost predicate Closed() {
      ClosedTypes(types, entryPoints, checksums)
    }
  }

  function MapPoint(p: EntryPointNode, f: nat -> nat): EntryPointNode {
    match p
    case LookupNode(id) => LookupNode(f(id))
    case TypedefNode(node) => TypedefNode(MapReferences(node, f))
  }

  function MapEntryPointReferences(e: EntryPoint, f: nat -> nat): EntryPoint {
    EntryPoint(MapPoint(e.args, f), MapPoint(e.values, f))
  }

  lemma RefsOfMappedPoint(e: EntryPoint, f: nat -> nat)
    ensures EntryPointRefs(MapEntryPointReferences(e, f)) == MapAll(EntryPointRefs(e), f)
  {
    if e.args.TypedefNode? { RefsOfMapped(e.args.node, f); }
    if e.values.TypedefNode? { RefsOfMapped(e.values.node, f); }
    var a, b := PointRefs(e.args), PointRefs(e.values);
    assert MapAll(a + b, f) == MapAll(a, f) + MapAll(b, f);
  }

  /** Where the type with the same checksum as `id` went; the lookup has it. */
  function NewIndex(index: map<string, nat>, checksums: map<nat, string>): nat -> nat {
    (id: nat) => if id in checksums && checksums[id] in index then index[checksums[id]] else 0
  }

  /** `index` numbers the checksums in `names`. */
  ghost predicate Numbers(index: map<string, nat>, names: seq<string>) {
    && (forall c :: c in index ==> index[c] < |names| && names[index[c]] == c)
    && (forall i :: 0 <= i < |names| ==> names[i] in index && index[names[i]] == i)
  }

  /** The reference is to the type with the checksum that `id` had in its chain. */
  ghost predicate PointsTo(ref: nat, id: nat, checksums: map<nat, string>, names: seq<string>) {
    ref < |names| && id in checksums && names[ref] == checksums[id]
  }

  ghost predicate AllPointTo(refs: seq<nat>, ids: seq<nat>, checksums: map<nat, string>, names: seq<string>) {
    |refs| == |ids| && forall i :: 0 <= i < |refs| ==> PointsTo(refs[i], ids[i], checksums, names)
  }

  lemma MappedPointsTo(ids: seq<nat>, types: map<string, Node>, checksums: map<nat, string>, index: map<string, nat>,
                       names: seq<string>)
    requires ClosedRefs(ids, types, checksums) && Numbers(index, names) && types.Keys <= index.Keys
    ensures AllPointTo(MapAll(ids, NewIndex(index, checksums)), ids, checksums, names)
  {
  }

  /** A merged type, and the chain that it was taken from. */
  datatype Taken<T> = Taken(value: T, chain: nat)

  ghost predicate NodeTaken(chains: seq<ChainTypes>, t: Taken<Node>, name: string) {
    t.chain < |chains| && name in chains[t.chain].types && chains[t.chain].types[name] == t.value
  }

  ghost predicate PointTaken(chains: seq<ChainTypes>, t: Taken<EntryPoint>, name: string) {
    t.chain < |chains| && name in chains[t.chain].entryPoints && chains[t.chain].entryPoints[name] == t.value
  }

  ghost predicate NodesTaken(chains: seq<ChainTypes>, taken: seq<Taken<Node>>, index: map<string, nat>,
                             names: seq<string>) {
    |names| == |taken| && Numbers(index, names) && forall i :: 0 <= i < |taken| ==>
        NodeTaken(chains, taken[i], names[i])
  }

  ghost predicate PointsTaken(chains: seq<ChainTypes>, taken: seq<Taken<EntryPoint>>, index: map<string, nat>,
                              names: seq<string>) {
    |names| == |taken| && Numbers(index, names) && forall i :: 0 <= i < |taken| ==>
        PointTaken(chains, taken[i], names[i])
  }

  lemma Numbered(index: map<string, nat>, names: seq<string>, c: string)
    requires Numbers(index, names) && c !in index
    ensures Numbers(index[c := |names|], names + [c])
  {
  }

  lemma TakeNode(chains: seq<ChainTypes>, taken: seq<Taken<Node>>, index: map<string, nat>, names: seq<string>, k: nat,
                 c: string)
    requires NodesTaken(chains, taken, index, names) && k < |chains| && c in chains[k].types && c !in index
    ensures NodesTaken(chains, taken + [Taken(chains[k].types[c], k)], index[c := |taken|], names + [c])
  {
    Numbered(index, names, c);
    hide Numbers;
  }

  lemma TakePoint(chains: seq<ChainTypes>, taken: seq<Taken<EntryPoint>>, index: map<string, nat>, names: seq<string>,
                  k: nat, c: string)
    requires PointsTaken(chains, taken, index, names) && k < |chains| && c in chains[k].entryPoints && c !in index
    ensures PointsTaken(chains, taken + [Taken(chains[k].entryPoints[c], k)], index[c := |taken|], names + [c])
  {
    Numbered(index, names, c);
    hide Numbers;
  }

  class Merger {
    const chains: seq<ChainTypes>
    var typedefs: seq<Taken<Node>>
    var points: seq<Taken<EntryPoint>>
    var lookupToTypedefIdx: map<string, nat>
    var checksumToIdx: map<string, nat>
    ghost var names: seq<string>
    ghost var pointNames: seq<string>

    constructor (chains: seq<ChainTypes>)
      ensures this.chains == chains && Ok() && lookupToTypedefIdx == map[] && checksumToIdx == map[]
    {
      this.chains := chains;
      typedefs, points, lookupToTypedefIdx, checksumToIdx, names, pointNames := [], [], map[], map[], [], [];
    }

    ghost predicate Ok()
      reads this
    {
      NodesTaken(chains, typedefs, lookupToTypedefIdx, names) && PointsTaken(chains, points, checksumToIdx, pointNames)
    }

    /** Takes the types of a chain whose checksums are new. */
    method TakeTypes(chain: nat)
      requires Ok() && chain < |chains|
      modifies this`typedefs, this`lookupToTypedefIdx, this`names
      ensures Ok() && old(lookupToTypedefIdx).Keys <= lookupToTypedefIdx.Keys
              && chains[chain].types.Keys <= lookupToTypedefIdx.Keys
    {
      hide NodesTaken, PointsTaken;
      var types := chains[chain].types;
      var left := types.Keys;
      while |left| != 0
        invariant left <= types.Keys && Ok()
        invariant old(lookupToTypedefIdx).Keys <= lookupToTypedefIdx.Keys && forall c :: c in types ==>
                  c in left || c in lookupToTypedefIdx
      {
        ghost var some := SomeElement(left);
        var checksum :| checksum in left;
        if checksum !in lookupToTypedefIdx {
          TakeNode(chains, typedefs, lookupToTypedefIdx, names, chain, checksum);
          lookupToTypedefIdx := lookupToTypedefIdx[checksum := |typedefs|];
          typedefs := typedefs + [Taken(types[checksum], chain)];
          names := names + [checksum];
        }
        left := left - {checksum};
      }
    }

    method TakeEntryPoints(chain: nat)
      requires Ok() && chain < |chains|
      modifies this`points, this`checksumToIdx, this`pointNames
      ensures Ok() && old(checksumToIdx).Keys <= checksumToIdx.Keys
              && chains[chain].entryPoints.Keys <= checksumToIdx.Keys
    {
      hide NodesTaken, PointsTaken;
      var entryPoints := chains[chain].entryPoints;
      var left := entryPoints.Keys;
      while |left| != 0
        invariant left <= entryPoints.Keys && Ok()
        invariant old(checksumToIdx).Keys <= checksumToIdx.Keys && forall c :: c in entryPoints ==>
                  c in left || c in checksumToIdx
      {
        ghost var some := SomeElement(left);
        var checksum :| checksum in left;
        if checksum !in checksumToIdx {
          TakePoint(chains, points, checksumToIdx, pointNames, chain, checksum);
          checksumToIdx := checksumToIdx[checksum := |points|];
          points := points + [Taken(entryPoints[checksum], chain)];
          pointNames := pointNames + [checksum];
        }
        left := left - {checksum};
      }
    }
  }

  /** Merged under `name`: taken from some chain, with its references renumbered. */
  ghost predicate MergedNode(chains: seq<ChainTypes>, names: seq<string>, name: string, node: Node) {
    exists k :: 0 <= k < |chains| && MergedNodeFrom(chains[k], names, name, node)
  }

  ghost predicate MergedNodeFrom(chain: ChainTypes, names: seq<string>, name: string, node: Node) {
    && name in chain.types
    && (exists f: nat -> nat :: node == MapReferences(chain.types[name], f))
    && AllPointTo(Refs(node), Refs(chain.types[name]), chain.checksums, names)
  }

  ghost predicate MergedPoint(chains: seq<ChainTypes>, names: seq<string>, name: string, e: EntryPoint) {
    exists k :: 0 <= k < |chains| && MergedPointFrom(chains[k], names, name, e)
  }

  ghost predicate MergedPointFrom(chain: ChainTypes, names: seq<string>, name: string, e: EntryPoint) {
    && name in chain.entryPoints
    && (exists f: nat -> nat :: e == MapEntryPointReferences(chain.entryPoints[name], f))
    && AllPointTo(EntryPointRefs(e), EntryPointRefs(chain.entryPoints[name]), chain.checksums, names)
  }

  /**
   * Merges the types of all chains: every checksum once, and every reference to the index of the
   * type that had its checksum.
   */
  method MergeTypes(chains: seq<ChainTypes>)
    returns (typedefs: seq<Node>, entryPoints: seq<EntryPoint>, checksumToIdx: map<string, nat>,
             ghost names: seq<string>, ghost pointNames: seq<string>)
    requires forall k :: 0 <= k < |chains| ==> chains[k].Closed()
    ensures |typedefs| == |names| && forall i :: 0 <= i < |names| ==> MergedNode(chains, names, names[i], typedefs[i])
    ensures |entryPoints| == |pointNames| && forall i :: 0 <= i < |pointNames| ==>
            MergedPoint(chains, names, pointNames[i], entryPoints[i])
    ensures forall k, c :: 0 <= k < |chains| && c in chains[k].types ==> c in names
    ensures Numbers(checksumToIdx, pointNames)
    ensures forall k, c :: 0 <= k < |chains| && c in chains[k].entryPoints ==> c in checksumToIdx
    ensures forall i, j :: 0 <= i < j < |names| ==> names[i] != names[j]
  {
    hide NodesTaken, PointsTaken, MergedNode, MergedPoint, ChainTypes.Closed, Numbers;
    var merger := new Merger(chains);
    for k := 0 to |chains|
      invariant merger.Ok() && fresh(merger) && merger.chains == chains
      invariant forall i :: 0 <= i < k ==> chains[i].types.Keys <= merger.lookupToTypedefIdx.Keys
      invariant forall i :: 0 <= i < k ==> chains[i].entryPoints.Keys <= merger.checksumToIdx.Keys
    {
      merger.TakeTypes(k);
      merger.TakeEntryPoints(k);
    }
    names, pointNames := merger.names, merger.pointNames;
    checksumToIdx := merger.checksumToIdx;
    NamesTaken(chains, merger.typedefs, merger.lookupToTypedefIdx, names);
    PointNamesTaken(chains, merger.points, checksumToIdx, pointNames);
    typedefs := UpdateTypedefs(chains, merger.typedefs, merger.lookupToTypedefIdx, names);
    entryPoints :=
        UpdateEntryPoints(chains, merger.points, merger.lookupToTypedefIdx, names, checksumToIdx, pointNames);
  }

  lemma NamesTaken(chains: seq<ChainTypes>, taken: seq<Taken<Node>>, index: map<string, nat>, names: seq<string>)
    requires NodesTaken(chains, taken, index, names)
    ensures Numbers(index, names) && forall i, j :: 0 <= i < j < |names| ==> names[i] != names[j]
    ensures forall c :: c in index ==> c in names
  {
  }

  lemma PointNamesTaken(chains: seq<ChainTypes>, taken: seq<Taken<EntryPoint>>, index: map<string, nat>,
                        names: seq<string>)
    requires PointsTaken(chains, taken, index, names)
    ensures Numbers(index, names)
  {
  }

  /** Gives every reference in the merged types its new index. */
  method UpdateTypedefs(chains: seq<ChainTypes>, taken: seq<Taken<Node>>, index: map<string, nat>,
                        ghost names: seq<string>) returns (typedefs: seq<Node>)
    requires NodesTaken(chains, taken, index, names)
    requires forall k :: 0 <= k < |chains| ==> chains[k].Closed() && chains[k].types.Keys <= index.Keys
    ensures |typedefs| == |names| && forall i :: 0 <= i < |names| ==> MergedNode(chains, names, names[i], typedefs[i])
  {
    hide MergedNode, ChainTypes.Closed, Numbers, MapReferences, NewIndex;
    typedefs := [];
    for i := 0 to |taken|
      invariant |typedefs| == i && forall j :: 0 <= j < i ==> MergedNode(chains, names, names[j], typedefs[j])
    {
      var t := taken[i];
      assert NodeTaken(chains, t, names[i]);
      NodeMerged(chains, t.chain, index, names, names[i]);
      typedefs := typedefs + [MapReferences(t.value, NewIndex(index, chains[t.chain].checksums))];
    }
  }

  method UpdateEntryPoints(chains: seq<ChainTypes>, taken: seq<Taken<EntryPoint>>, index: map<string, nat>,
                           ghost names: seq<string>,
                           ghost checksumToIdx: map<string, nat>, ghost pointNames: seq<string>)
                             returns (entryPoints: seq<EntryPoint>)
    requires PointsTaken(chains, taken, checksumToIdx, pointNames) && Numbers(index, names)
    requires forall k :: 0 <= k < |chains| ==> chains[k].Closed() && chains[k].types.Keys <= index.Keys
    ensures |entryPoints| == |pointNames| && forall i :: 0 <= i < |pointNames| ==>
            MergedPoint(chains, names, pointNames[i], entryPoints[i])
  {
    hide MergedPoint, ChainTypes.Closed, Numbers, MapEntryPointReferences, NewIndex;
    entryPoints := [];
    for i := 0 to |taken|
      invariant |entryPoints| == i && forall j :: 0 <= j < i ==>
                MergedPoint(chains, names, pointNames[j], entryPoints[j])
    {
      var t := taken[i];
      assert PointTaken(chains, t, pointNames[i]);
      PointMerged(chains, t.chain, index, names, pointNames[i]);
      entryPoints := entryPoints + [MapEntryPointReferences(t.value, NewIndex(index, chains[t.chain].checksums))];
    }
  }

  lemma NodeMerged(chains: seq<ChainTypes>, k: nat, index: map<string, nat>, names: seq<string>, name: string)
    requires k < |chains| && chains[k].Closed() && name in chains[k].types
    requires Numbers(index, names) && chains[k].types.Keys <= index.Keys
    ensures MergedNode(chains, names, name, MapReferences(chains[k].types[name], NewIndex(index, chains[k].checksums)))
  {
    var node, f := chains[k].types[name], NewIndex(index, chains[k].checksums);
    RefsOfMapped(node, f);
    MappedPointsTo(Refs(node), chains[k].types, chains[k].checksums, index, names);
    hide Refs, MapReferences, NewIndex, Numbers;
    assert MergedNodeFrom(chains[k], names, name, MapReferences(node, f));
  }

  lemma PointMerged(chains: seq<ChainTypes>, k: nat, index: map<string, nat>, names: seq<string>, name: string)
    requires k < |chains| && chains[k].Closed() && name in chains[k].entryPoints
    requires Numbers(index, names) && chains[k].types.Keys <= index.Keys
    ensures MergedPoint(chains, names, name,
                        MapEntryPointReferences(chains[k].entryPoints[name], NewIndex(index, chains[k].checksums)))
  {
    var e, f := chains[k].entryPoints[name], NewIndex(index, chains[k].checksums);
    RefsOfMappedPoint(e, f);
    MappedPointsTo(EntryPointRefs(e), chains[k].types, chains[k].checksums, index, names);
    hide EntryPointRefs, MapEntryPointReferences, NewIndex, Numbers;
    assert MergedPointFrom(chains[k], names, name, MapEntryPointReferences(e, f));
  }
}
