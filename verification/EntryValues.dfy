/** The values of a lookup entry are those of the type definition made for it. */
module EntryValues {
  import opened Basics
  import opened UsedTypes
  import opened EntryPoints
  import opened TrimmedValues
  import opened Values = ValueCompatible

  /** Which values the entries referred to by number take. */
  type Meaning = (nat, Value) -> bool

  /** The bits of a number; a wide one is a bigint. */
  function BitsOf(p: MetadataPrimitive): Option<nat> {
    match p
    case U8 => Some(8) case I8 => Some(8)
    case U16 => Some(16) case I16 => Some(16)
    case U32 => Some(32) case I32 => Some(32)
    case U64 => Some(64) case I64 => Some(64)
    case U128 => Some(128) case I128 => Some(128)
    case U256 => Some(256) case I256 => Some(256)
    case _ => None
  }

  ghost predicate PrimitiveTakes(p: MetadataPrimitive, x: Value) {
    match BitsOf(p)
    case Some(bits) => TypeOf(x) == (if bits > 32 then "bigint" else "number")
    case None => TypeOf(x) == (if p == Bool then "boolean" else "string")
  }

  ghost predicate AllTake(x: Value, ids: seq<nat>, m: Meaning) {
    x.VArr? && |x.items| == |ids| && forall i :: 0 <= i < |ids| ==> m(ids[i], x.items[i])
  }

  ghost predicate EachTakes(x: Value, length: Option<nat>, id: nat, m: Meaning) {
    x.VArr? && (length.Some? ==> |x.items| == length.value) && forall i :: 0 <= i < |x.items| ==> m(id, x.items[i])
  }

  /** `x` is the tagged value of one of two entries. */
  ghost predicate OneSideTakes(x: Value, ok: nat, ko: nat, m: Meaning) {
    && x.VObj? && x.props.Keys == {"success", "value"}
    && ((x.props["success"] == VBool(true) && m(ok, x.props["value"]))
        || (x.props["success"] == VBool(false) && m(ko, x.props["value"])))
  }

  ghost predicate IsTagged(x: Value, tag: string) {
    x.VObj? && x.props.Keys == {"type", "value"} && x.props["type"] == VStr(tag)
  }

  ghost predicate FieldTakes(x: Value, name: string, id: nat, m: Meaning) {
    m(id, Prop(x, name))
  }

  /** The entry takes the value. */
  ghost predicate EntryTakes(v: Var, x: Value, m: Meaning) {
    match v
    case AccountId => TypeOf(x) == "string"
    case PrimitiveVar(p) => PrimitiveTakes(p, x)
    case VoidVar => true
    case CompactVar(isBig) => if isBig then x.VBig? else x.VNum?
    case BitSequenceVar => IsBits(x)
    case TupleVar(items) =>
      x.VArr? && |x.items| == |items| && forall i :: 0 <= i < |items| ==> m(items[i].id, x.items[i])
    case StructVar(fields) => x.VObj? && forall i :: 0 <= i < |fields| ==> FieldTakes(x, fields[i].0, fields[i].1.id, m)
    case EnumVar(values) =>
      exists i :: 0 <= i < |values| && IsTagged(x, values[i].name)
        && (match values[i].value
            case EntryValue(entry) => m(entry.id, Prop(x, "value"))
            case VarValue(inner) => EntryTakes(inner, Prop(x, "value"), m))
    case OptionVar(some) => x == VNull || m(some.id, x)
    case ResultVar(ok, ko) => OneSideTakes(x, ok.id, ko.id, m)
    case SequenceVar(item) => if item.isU8 then IsBinary(x, None) else EachTakes(x, None, item.id, m)
    case ArrayVar(element, len) =>
      if element.isU8 then IsBinary(x, Some(len)) else EachTakes(x, Some(len), element.id, m)
  }

  /** The type definition takes the value. */
  ghost predicate NodeTakes(n: Node, x: Value, m: Meaning) {
    match n
    case TerminalNode(prim) => OfTerminal(x, prim)
    case BinaryNode(size) => IsBinary(x, size)
    case ArrayNode(typeRef, length) => EachTakes(x, length, typeRef, m)
    case TupleNode(items) => AllTake(x, items, m)
    case StructNode(fields) => x.VObj? && forall i :: 0 <= i < |fields| ==> FieldTakes(x, fields[i].0, fields[i].1, m)
    case OptionNode(value) => x == VNull || m(value, x)
    case ResultNode(ok, ko) => OneSideTakes(x, ok, ko, m)
    case EnumNode(variants) =>
      exists i :: 0 <= i < |variants| && IsTagged(x, variants[i].name)
        && (match variants[i].payload
            case Lookup(id) => m(id, Prop(x, "value"))
            case Inline(node) => NodeTakes(node, Prop(x, "value"), m))
  }

  lemma PrimitiveSameValues(p: MetadataPrimitive, x: Value)
    ensures PrimitiveTakes(p, x) <==> OfTerminal(x, PrimitiveToTerminal(p))
  {
    TerminalKinds(x, PrimitiveToTerminal(p));
    Names(x);
  }

  /** The names of the kinds tell values apart. */
  lemma Names(x: Value)
    ensures TypeOf(x) == "bigint" <==> x.VBig?
    ensures TypeOf(x) == "number" <==> x.VNum?
    ensures TypeOf(x) == "boolean" <==> x.VBool?
    ensures TypeOf(x) == "string" <==> x.VStr?
  {
    assert "number"[0] == 'n' && "string"[0] == 's' && "object"[0] == 'o' && "boolean"[1] == 'o' && "bigint"[1] == 'i';
    assert "boolean"[0] == 'b' && "bigint"[0] == 'b';
  }

  /** For every entry, the type definition made for it takes the values that the entry takes. */
  lemma {:induction false} SameValues(v: Var, x: Value, m: Meaning)
    ensures NodeTakes(MapLookupToTypedef(v), x, m) <==> EntryTakes(v, x, m)
    decreases v
  {
    match v
    case PrimitiveVar(p) => PrimitiveSameValues(p, x);
    case AccountId => LeafSameValues(v, x, m);
    case VoidVar => LeafSameValues(v, x, m);
    case CompactVar(_) => LeafSameValues(v, x, m);
    case BitSequenceVar => LeafSameValues(v, x, m);
    case EnumVar(values) => EnumSameValues(values, x, m);
    case StructVar(_) => StructSameValues(v, x, m);
    case _ =>
  }

  lemma LeafSameValues(v: Var, x: Value, m: Meaning)
    requires v.AccountId? || v.VoidVar? || v.CompactVar? || v.BitSequenceVar?
    ensures NodeTakes(MapLookupToTypedef(v), x, m) <==> EntryTakes(v, x, m)
  {
    TerminalKinds(x, MapLookupToTypedef(v).prim);
    TerminalKinds(x, PBits);
    Names(x);
  }

  lemma StructSameValues(v: Var, x: Value, m: Meaning)
    requires v.StructVar?
    ensures NodeTakes(MapLookupToTypedef(v), x, m) <==> EntryTakes(v, x, m)
  {
    var fields := MapLookupToTypedef(v).fields;
    hide FieldTakes;
    assert forall i :: 0 <= i < |fields| ==> fields[i] == (v.fields[i].0, v.fields[i].1.id);
  }

  ghost predicate SamePayload(payload: Payload, value: EnumValue, x: Value, m: Meaning) {
    match value
    case EntryValue(entry) => payload == Lookup(entry.id)
    case VarValue(inner) => payload.Inline? && (NodeTakes(payload.node, x, m) <==> EntryTakes(inner, x, m))
  }

  lemma {:induction false} EnumSameValues(values: seq<EnumCase>, x: Value, m: Meaning)
    ensures NodeTakes(EnumNode(EnumVariants(values)), x, m) <==> EntryTakes(EnumVar(values), x, m)
    decreases values
  {
    var variants := EnumVariants(values);
    SameCount(values);
    forall i | 0 <= i < |values|
      ensures variants[i].name == values[i].name
      ensures SamePayload(variants[i].payload, values[i].value, Prop(x, "value"), m)
    {
      VariantOfCase(values, i);
      if values[i].value.VarValue? {
        SameValues(values[i].value.inner, Prop(x, "value"), m);
      }
    }
    hide EnumVariants, MapLookupToTypedef;
  }

  // ------------------------------------------------------------ mapped references

  /** What the entries mean to whoever refers to them by their old numbers. */
  function Renumbered(m: Meaning, f: nat -> nat): Meaning {
    (id: nat, x: Value) => m(f(id), x)
  }

  lemma {:induction false} VariantMapped(variants: seq<Variant>, f: nat -> nat, i: nat)
    requires i < |variants|
    ensures |MapVariants(variants, f)| == |variants|
    ensures MapVariants(variants, f)[i] == Variant(variants[i].name, MapPayload(variants[i].payload, f))
  {
    hide MapPayload;
    if i > 0 {
      VariantMapped(variants[1..], f, i - 1);
    } else {
      SameCountMapped(variants, f);
    }
  }

  lemma {:induction false} SameCountMapped(variants: seq<Variant>, f: nat -> nat)
    ensures |MapVariants(variants, f)| == |variants|
  {
    hide MapPayload;
    if variants != [] {
      SameCountMapped(variants[1..], f);
    }
  }

  lemma MappedFieldsTake(n: Node, f: nat -> nat, x: Value, m: Meaning)
    requires n.StructNode?
    ensures NodeTakes(MapReferences(n, f), x, m) <==> NodeTakes(n, x, Renumbered(m, f))
  {
    var mapped := MapReferences(n, f).fields;
    forall i | 0 <= i < |mapped|
      ensures FieldTakes(x, mapped[i].0, mapped[i].1, m)
        <==> FieldTakes(x, n.fields[i].0, n.fields[i].1, Renumbered(m, f))
    {
    }
    hide FieldTakes;
  }

  /** With its references replaced, a type definition takes what it took, if the new numbers mean what the old did. */
  lemma {:induction false} MappedTakes(n: Node, f: nat -> nat, x: Value, m: Meaning)
    ensures NodeTakes(MapReferences(n, f), x, m) <==> NodeTakes(n, x, Renumbered(m, f))
    decreases n, 1
  {
    match n
    case EnumNode(variants) => MappedVariantsTake(n, f, x, m);
    case StructNode(_) => MappedFieldsTake(n, f, x, m);
    case _ =>
  }

  ghost predicate PayloadTakes(payload: Payload, x: Value, m: Meaning) {
    match payload
    case Lookup(id) => m(id, x)
    case Inline(node) => NodeTakes(node, x, m)
  }

  lemma {:induction false} MappedVariantsTake(n: Node, f: nat -> nat, x: Value, m: Meaning)
    requires n.EnumNode?
    ensures NodeTakes(MapReferences(n, f), x, m) <==> NodeTakes(n, x, Renumbered(m, f))
    decreases n, 0
  {
    var variants := n.variants;
    var mapped := MapVariants(variants, f);
    SameCountMapped(variants, f);
    forall i | 0 <= i < |variants|
      ensures mapped[i].name == variants[i].name
      ensures PayloadTakes(mapped[i].payload, Prop(x, "value"), m)
        <==> PayloadTakes(variants[i].payload, Prop(x, "value"), Renumbered(m, f))
    {
      VariantMapped(variants, f, i);
      if variants[i].payload.Inline? {
        MappedTakes(variants[i].payload.node, f, Prop(x, "value"), m);
      }
    }
    hide MapVariants;
    assert forall i :: 0 <= i < |variants| ==>
      (PayloadTakes(mapped[i].payload, Prop(x, "value"), m)
       <==> PayloadTakes(variants[i].payload, Prop(x, "value"), Renumbered(m, f)));
  }

  // ------------------------------------------------------------ references decide

  /** The entries mean the same to whoever refers to these only. */
  ghost predicate AgreeOn(refs: seq<nat>, m: Meaning, m': Meaning) {
    forall i, x :: 0 <= i < |refs| ==> m(refs[i], x) == m'(refs[i], x)
  }

  lemma AgreeOnParts(a: seq<nat>, b: seq<nat>, m: Meaning, m': Meaning)
    requires AgreeOn(a + b, m, m')
    ensures AgreeOn(a, m, m') && AgreeOn(b, m, m')
  {
    assert forall i :: 0 <= i < |a| ==> (a + b)[i] == a[i];
    assert forall i :: 0 <= i < |b| ==> (a + b)[|a| + i] == b[i];
  }

  lemma {:induction false} AgreeOnVariant(variants: seq<Variant>, i: nat, m: Meaning, m': Meaning)
    requires i < |variants| && AgreeOn(VariantRefs(variants), m, m')
    ensures AgreeOn(PayloadRefs(variants[i].payload), m, m')
  {
    hide PayloadRefs, AgreeOn;
    AgreeOnParts(PayloadRefs(variants[0].payload), VariantRefs(variants[1..]), m, m');
    if i > 0 {
      AgreeOnVariant(variants[1..], i - 1, m, m');
    }
  }

  /** What a type definition takes depends on the entries that it refers to, and no others. */
  lemma {:induction false} RefsDecide(n: Node, x: Value, m: Meaning, m': Meaning)
    requires AgreeOn(Refs(n), m, m')
    ensures NodeTakes(n, x, m) <==> NodeTakes(n, x, m')
    decreases n, 1
  {
    match n
    case EnumNode(_) => VariantRefsDecide(n, x, m, m');
    case StructNode(fields) => FieldRefsDecide(n, x, m, m');
    case ResultNode(_, _) => ResultRefsDecide(n, x, m, m');
    case ArrayNode(_, _) => assert Refs(n)[0] == n.typeRef;
    case OptionNode(_) => assert Refs(n)[0] == n.value;
    case _ =>
  }

  lemma ResultRefsDecide(n: Node, x: Value, m: Meaning, m': Meaning)
    requires n.ResultNode? && AgreeOn(Refs(n), m, m')
    ensures NodeTakes(n, x, m) <==> NodeTakes(n, x, m')
  {
    assert Refs(n)[0] == n.ok && Refs(n)[1] == n.ko;
  }

  lemma FieldRefsDecide(n: Node, x: Value, m: Meaning, m': Meaning)
    requires n.StructNode? && AgreeOn(Refs(n), m, m')
    ensures NodeTakes(n, x, m) <==> NodeTakes(n, x, m')
  {
    forall i | 0 <= i < |n.fields|
      ensures FieldTakes(x, n.fields[i].0, n.fields[i].1, m) <==> FieldTakes(x, n.fields[i].0, n.fields[i].1, m')
    {
      assert Refs(n)[i] == n.fields[i].1;
    }
    hide FieldTakes;
  }

  lemma {:induction false} VariantRefsDecide(n: Node, x: Value, m: Meaning, m': Meaning)
    requires n.EnumNode? && AgreeOn(Refs(n), m, m')
    ensures NodeTakes(n, x, m) <==> NodeTakes(n, x, m')
    decreases n, 0
  {
    forall i | 0 <= i < |n.variants|
      ensures PayloadTakes(n.variants[i].payload, Prop(x, "value"), m)
        <==> PayloadTakes(n.variants[i].payload, Prop(x, "value"), m')
    {
      AgreeOnVariant(n.variants, i, m, m');
      var payload := n.variants[i].payload;
      match payload
      case Inline(node) => RefsDecide(node, Prop(x, "value"), m, m');
      case Lookup(id) => assert PayloadRefs(payload)[0] == id;
    }
    assert forall i :: 0 <= i < |n.variants| ==>
      (PayloadTakes(n.variants[i].payload, Prop(x, "value"), m)
       <==> PayloadTakes(n.variants[i].payload, Prop(x, "value"), m'));
  }

  // ------------------------------------------------------------------ entry points

  /** One side of an entry point takes the value. */
  ghost predicate PointTakes(p: EntryPointNode, x: Value, m: Meaning) {
    match p
    case LookupNode(id) => m(id, x)
    case TypedefNode(node) => NodeTakes(node, x, m)
  }

  lemma PointRefsDecide(p: EntryPointNode, x: Value, m: Meaning, m': Meaning)
    requires AgreeOn(PointRefs(p), m, m')
    ensures PointTakes(p, x, m) <==> PointTakes(p, x, m')
  {
    match p
    case LookupNode(id) => assert PointRefs(p)[0] == id;
    case TypedefNode(node) => RefsDecide(node, x, m, m');
  }

  /** What an entry point takes, in and out, depends on the entries that it refers to. */
  lemma EntryPointRefsDecide(e: EntryPoint, x: Value, m: Meaning, m': Meaning)
    requires AgreeOn(EntryPointRefs(e), m, m')
    ensures PointTakes(e.args, x, m) <==> PointTakes(e.args, x, m')
    ensures PointTakes(e.values, x, m) <==> PointTakes(e.values, x, m')
  {
    AgreeOnParts(PointRefs(e.args), PointRefs(e.values), m, m');
    PointRefsDecide(e.args, x, m, m');
    PointRefsDecide(e.values, x, m, m');
  }

  ghost predicate CaseTakes(value: EnumValue, x: Value, m: Meaning) {
    match value
    case EntryValue(entry) => m(entry.id, x)
    case VarValue(inner) => EntryTakes(inner, x, m)
  }

  /** Storage takes its key and gives its value; a plain one takes anything. */
  lemma StorageTakes(ty: StorageType, x: Value, m: Meaning)
    ensures var e := StorageEntryPoint(ty);
      && (PointTakes(e.args, x, m) <==> (ty.Keyed? ==> m(ty.key, x)))
      && (PointTakes(e.values, x, m) <==> m(ty.value, x))
  {
    TerminalKinds(x, PVoid);
  }

  /** A constant takes anything and gives its value. */
  lemma ConstantTakes(ty: nat, x: Value, m: Meaning)
    ensures var e := SingleValueEntryPoint(ty); PointTakes(e.args, x, m) && (PointTakes(e.values, x, m) <==> m(ty, x))
  {
    TerminalKinds(x, PVoid);
  }

  /** A call of the runtime takes the list of its inputs and gives its output. */
  lemma CallTakes(f: Callable, x: Value, m: Meaning)
    ensures var e := RuntimeCallEntryPoint(f);
      && (PointTakes(e.args, x, m) <==>
            x.VArr? && |x.items| == |f.inputs| && forall i :: 0 <= i < |f.inputs| ==> m(f.inputs[i], x.items[i]))
      && (PointTakes(e.values, x, m) <==> m(f.output, x))
  {
  }

  /** A variant of the calls is taken, one of the events or errors is given, and the other side is void. */
  lemma VariantTakes(side: Side, value: EnumValue, x: Value, m: Meaning)
    ensures var e := VariantEntryPoint(side, value);
      && (PointTakes(e.args, x, m) <==> (side.Args? ==> CaseTakes(value, x, m)))
      && (PointTakes(e.values, x, m) <==> (side.Values? ==> CaseTakes(value, x, m)))
  {
    TerminalKinds(x, PVoid);
    if value.VarValue? {
      SameValues(value.inner, x, m);
    }
  }
}
