/** Which entry points a chain has, and the types that all of them use. */
module EntryPoints {
  import opened Basics
  import opened Closures
  import opened UsedTypes

  datatype StorageType = Plain(value: nat) | Keyed(key: nat, value: nat)

  datatype Storage = Storage(name: string, ty: StorageType)

  datatype Constant = Constant(name: string, ty: nat)

  /** A view function of a pallet or a method of a runtime API. */
  datatype Callable = Callable(name: string, inputs: seq<nat>, output: nat)

  datatype Pallet = Pallet(
    name: string,
    storage: seq<Storage>,
    constants: seq<Constant>,
    viewFns: seq<Callable>,
    calls: Option<nat>,
    events: Option<nat>,
    errors: Option<nat>)

  datatype Api = Api(name: string, methods: seq<Callable>)

  datatype Metadata = Metadata(pallets: seq<Pallet>, apis: seq<Api>)

  /** The checksums that the builder gives, by the names of a pallet or API and of what is in it. */
  datatype Builder = Builder(
    definition: nat -> string,
    storage: (string, string) -> string,
    constant: (string, string) -> string,
    viewFn: (string, string) -> string,
    call: (string, string) -> string,
    event: (string, string) -> string,
    error: (string, string) -> string,
    runtimeCall: (string, string) -> string)

  type Point = (string, EntryPoint)

  // ------------------------------------------------------------- one entry point

  const VoidNode: EntryPointNode := TypedefNode(TerminalNode(PVoid))

  function StorageEntryPoint(ty: StorageType): EntryPoint {
    match ty
    case Plain(value) => EntryPoint(VoidNode, LookupNode(value))
    case Keyed(key, value) => EntryPoint(LookupNode(key), LookupNode(value))
  }

  function SingleValueEntryPoint(ty: nat): EntryPoint {
    EntryPoint(VoidNode, LookupNode(ty))
  }

  function RuntimeCallEntryPoint(f: Callable): EntryPoint {
    EntryPoint(TypedefNode(TupleNode(f.inputs)), LookupNode(f.output))
  }

  function EnumValueNode(value: EnumValue): EntryPointNode {
    match value
    case EntryValue(entry) => LookupNode(entry.id)
    case VarValue(inner) => TypedefNode(MapLookupToTypedef(inner))
  }

  datatype Side = Args | Values

  function VariantEntryPoint(side: Side, value: EnumValue): EntryPoint {
    match side
    case Args => EntryPoint(EnumValueNode(value), VoidNode)
    case Values => EntryPoint(VoidNode, EnumValueNode(value))
  }

  // ---------------------------------------------------------------- all of them

  ghost predicate InMetadata(md: Metadata, n: nat) {
    && (forall p :: p in md.pallets ==> PalletInRange(p, n))
    && (forall api, f :: api in md.apis && f in api.methods ==> CallableInRange(f, n))
  }

  ghost predicate PalletInRange(p: Pallet, n: nat) {
    && (forall s :: s in p.storage ==> AllBelow(EntryPointRefs(StorageEntryPoint(s.ty)), n))
    && (forall k :: k in p.constants ==> k.ty < n)
    && (forall f :: f in p.viewFns ==> CallableInRange(f, n))
    && (p.calls.Some? ==> p.calls.value < n)
    && (p.events.Some? ==> p.events.value < n)
    && (p.errors.Some? ==> p.errors.value < n)
  }

  ghost predicate CallableInRange(f: Callable, n: nat) {
    AllBelow(EntryPointRefs(RuntimeCallEntryPoint(f)), n)
  }

  /** The type is an enumeration, or there is nothing; anything else is an error. */
  predicate IsEnum(lookup: seq<Var>, ty: Option<nat>)
    requires ty.Some? ==> ty.value < |lookup|
  {
    ty.None? || lookup[ty.value].VoidVar? || lookup[ty.value].EnumVar?
  }

  function CasesOf(lookup: seq<Var>, ty: Option<nat>): seq<EnumCase>
    requires ty.Some? ==> ty.value < |lookup|
  {
    if ty.Some? && lookup[ty.value].EnumVar? then lookup[ty.value].values else []
  }

  /** `point` is that of one of the variants of the type. */
  ghost predicate IsVariant(lookup: seq<Var>, ty: Option<nat>, side: Side, checksum: (string, string) -> string,
                            pallet: string, point: Point)
    requires ty.Some? ==> ty.value < |lookup|
  {
    ty.Some? && lookup[ty.value].EnumVar?
    && exists v :: v in lookup[ty.value].values && point == (checksum(pallet, v.name), VariantEntryPoint(side, v.value))
  }

  /** What entry points a pallet has. */
  ghost predicate IsPalletPoint(lookup: seq<Var>, b: Builder, p: Pallet, point: Point)
    requires PalletInRange(p, |lookup|)
  {
    || (exists s :: s in p.storage && point == (b.storage(p.name, s.name), StorageEntryPoint(s.ty)))
    || (exists k :: k in p.constants && point == (b.constant(p.name, k.name), SingleValueEntryPoint(k.ty)))
    || (exists f :: f in p.viewFns && point == (b.viewFn(p.name, f.name), RuntimeCallEntryPoint(f)))
    || IsVariant(lookup, p.calls, Args, b.call, p.name, point)
    || IsVariant(lookup, p.events, Values, b.event, p.name, point)
    || IsVariant(lookup, p.errors, Values, b.error, p.name, point)
  }

  ghost predicate IsApiPoint(b: Builder, api: Api, point: Point) {
    exists f :: f in api.methods && point == (b.runtimeCall(api.name, f.name), RuntimeCallEntryPoint(f))
  }

  ghost predicate IsPoint(lookup: seq<Var>, b: Builder, md: Metadata, point: Point)
    requires InMetadata(md, |lookup|)
  {
    || (exists p :: p in md.pallets && IsPalletPoint(lookup, b, p, point))
    || (exists api :: api in md.apis && IsApiPoint(b, api, point))
  }

  /** All enumerations of the pallet are such. */
  ghost predicate PalletOk(lookup: seq<Var>, p: Pallet)
    requires PalletInRange(p, |lookup|)
  {
    forall ty: nat :: Some(ty) in {p.calls, p.events, p.errors} ==>
      lookup[ty] == VoidVar || exists values :: lookup[ty] == EnumVar(values)
  }

  function VariantPoints(lookup: seq<Var>, ty: Option<nat>, side: Side, checksum: (string, string) -> string,
                         pallet: string): (r: seq<Point>)
    requires ty.Some? ==> ty.value < |lookup|
    ensures forall point :: point in r <==> IsVariant(lookup, ty, side, checksum, pallet, point)
  {
    var values := CasesOf(lookup, ty);
    var r := seq(|values|, i requires 0 <= i < |values| =>
                   (checksum(pallet, values[i].name), VariantEntryPoint(side, values[i].value)));
    assert forall i :: 0 <= i < |values| ==> values[i] in values && r[i] in r;
    r
  }

  function StoragePoints(b: Builder, p: Pallet): (r: seq<Point>)
    ensures forall point :: point in r <==>
              exists s :: s in p.storage && point == (b.storage(p.name, s.name), StorageEntryPoint(s.ty))
  {
    var r := seq(|p.storage|, i requires 0 <= i < |p.storage| =>
                   (b.storage(p.name, p.storage[i].name), StorageEntryPoint(p.storage[i].ty)));
    assert forall i :: 0 <= i < |p.storage| ==> p.storage[i] in p.storage && r[i] in r;
    r
  }

  function ConstantPoints(b: Builder, p: Pallet): (r: seq<Point>)
    ensures forall point :: point in r <==>
              exists k :: k in p.constants && point == (b.constant(p.name, k.name), SingleValueEntryPoint(k.ty))
  {
    var r := seq(|p.constants|, i requires 0 <= i < |p.constants| =>
                   (b.constant(p.name, p.constants[i].name), SingleValueEntryPoint(p.constants[i].ty)));
    assert forall i :: 0 <= i < |p.constants| ==> p.constants[i] in p.constants && r[i] in r;
    r
  }

  function CallablePoints(checksum: (string, string) -> string, owner: string, fs: seq<Callable>): (r: seq<Point>)
    ensures forall point :: point in r <==>
              exists f :: f in fs && point == (checksum(owner, f.name), RuntimeCallEntryPoint(f))
  {
    var r := seq(|fs|, i requires 0 <= i < |fs| => (checksum(owner, fs[i].name), RuntimeCallEntryPoint(fs[i])));
    assert forall i :: 0 <= i < |fs| ==> fs[i] in fs && r[i] in r;
    r
  }

  /** The entry points of a pallet, as they are added; none if one of its enumerations is no such. */
  method PalletPoints(lookup: seq<Var>, b: Builder, p: Pallet) returns (points: Option<seq<Point>>)
    requires PalletInRange(p, |lookup|)
    ensures points.Some? <==> PalletOk(lookup, p)
    ensures points.Some? ==> forall point :: point in points.value <==> IsPalletPoint(lookup, b, p, point)
  {
    hide IsVariant, StorageEntryPoint, SingleValueEntryPoint, RuntimeCallEntryPoint;
    var r := StoragePoints(b, p) + ConstantPoints(b, p) + CallablePoints(b.viewFn, p.name, p.viewFns);
    if !IsEnum(lookup, p.calls) {
      return None;
    }
    r := r + VariantPoints(lookup, p.calls, Args, b.call, p.name);
    if !IsEnum(lookup, p.events) {
      return None;
    }
    r := r + VariantPoints(lookup, p.events, Values, b.event, p.name);
    if !IsEnum(lookup, p.errors) {
      return None;
    }
    r := r + VariantPoints(lookup, p.errors, Values, b.error, p.name);
    points := Some(r);
  }

  ghost predicate AllPalletsOk(lookup: seq<Var>, md: Metadata)
    requires InMetadata(md, |lookup|)
  {
    forall p :: p in md.pallets ==> PalletOk(lookup, p)
  }

  /** All entry points; none if some calls, events or errors are no enumeration. */
  method AllPoints(lookup: seq<Var>, b: Builder, md: Metadata) returns (points: Option<seq<Point>>)
    requires InMetadata(md, |lookup|)
    ensures points.Some? <==> AllPalletsOk(lookup, md)
    ensures points.Some? ==> forall point :: point in points.value <==> IsPoint(lookup, b, md, point)
  {
    hide IsPalletPoint, IsApiPoint, PalletInRange, PalletOk, RuntimeCallEntryPoint;
    var r := [];
    for i := 0 to |md.pallets|
      invariant forall k :: 0 <= k < i ==> PalletOk(lookup, md.pallets[k])
      invariant forall point :: point in r <==> exists k :: 0 <= k < i && IsPalletPoint(lookup, b, md.pallets[k], point)
    {
      assert md.pallets[i] in md.pallets;
      var more := PalletPoints(lookup, b, md.pallets[i]);
      if more.None? {
        return None;
      }
      r := r + more.value;
    }
    ghost var fromPallets := r;
    for i := 0 to |md.apis|
      invariant forall point :: point in r <==>
                  point in fromPallets || exists k :: 0 <= k < i && IsApiPoint(b, md.apis[k], point)
    {
      var more := CallablePoints(b.runtimeCall, md.apis[i].name, md.apis[i].methods);
      assert forall point :: point in more <==> IsApiPoint(b, md.apis[i], point) by { ApiPoints(b, md.apis[i], more); }
      r := r + more;
    }
    points := Some(r);
  }

  lemma ApiPoints(b: Builder, api: Api, points: seq<Point>)
    requires points == CallablePoints(b.runtimeCall, api.name, api.methods)
    ensures forall point :: point in points <==> IsApiPoint(b, api, point)
  {
  }

  // --------------------------------------------------------------------- ranges

  lemma {:induction false} VariantRefsBelow(variants: seq<Variant>, k: nat, n: nat)
    requires k < |variants| && AllBelow(VariantRefs(variants), n)
    ensures AllBelow(PayloadRefs(variants[k].payload), n)
  {
    var first, rest := PayloadRefs(variants[0].payload), VariantRefs(variants[1..]);
    assert forall i :: 0 <= i < |first| ==> (first + rest)[i] == first[i];
    assert forall i :: 0 <= i < |rest| ==> (first + rest)[|first| + i] == rest[i];
    if k > 0 {
      VariantRefsBelow(variants[1..], k - 1, n);
    }
  }

  lemma {:induction false} VariantAt(values: seq<EnumCase>, k: nat)
    requires k < |values|
    ensures |EnumVariants(values)| == |values|
    ensures PayloadRefs(EnumVariants(values)[k].payload) == PointRefs(EnumValueNode(values[k].value))
  {
    var rest := values[1..];
    if k > 0 {
      VariantAt(rest, k - 1);
    } else if rest != [] {
      VariantAt(rest, 0);
    }
  }

  /** What the variants of an enumeration refer to is in the lookup. */
  lemma VariantInRange(lookup: seq<Var>, ty: nat, v: EnumCase, side: Side)
    requires InRange(lookup) && ty < |lookup| && lookup[ty].EnumVar? && v in lookup[ty].values
    ensures AllBelow(EntryPointRefs(VariantEntryPoint(side, v.value)), |lookup|)
  {
    var values := lookup[ty].values;
    var k :| 0 <= k < |values| && values[k] == v;
    assert AllBelow(Refs(MapLookupToTypedef(lookup[ty])), |lookup|);
    VariantAt(values, k);
    VariantRefsBelow(EnumVariants(values), k, |lookup|);
  }

  lemma PointInRange(lookup: seq<Var>, b: Builder, md: Metadata, point: Point)
    requires InRange(lookup) && InMetadata(md, |lookup|) && IsPoint(lookup, b, md, point)
    ensures AllBelow(EntryPointRefs(point.1), |lookup|)
  {
    hide InRange, AllBelow, EntryPointRefs, VariantEntryPoint, StorageEntryPoint, RuntimeCallEntryPoint;
    if api :| api in md.apis && IsApiPoint(b, api, point) {
      var f :| f in api.methods && point == (b.runtimeCall(api.name, f.name), RuntimeCallEntryPoint(f));
      assert CallableInRange(f, |lookup|);
    } else {
      var p :| p in md.pallets && IsPalletPoint(lookup, b, p, point);
      PalletPointInRange(lookup, b, p, point);
    }
  }

  lemma PalletPointInRange(lookup: seq<Var>, b: Builder, p: Pallet, point: Point)
    requires InRange(lookup) && PalletInRange(p, |lookup|) && IsPalletPoint(lookup, b, p, point)
    ensures AllBelow(EntryPointRefs(point.1), |lookup|)
  {
    hide InRange, AllBelow, EntryPointRefs, VariantEntryPoint, StorageEntryPoint, RuntimeCallEntryPoint,
        SingleValueEntryPoint;
    if s :| s in p.storage && point == (b.storage(p.name, s.name), StorageEntryPoint(s.ty)) {
    } else if k :| k in p.constants && point == (b.constant(p.name, k.name), SingleValueEntryPoint(k.ty)) {
      SingleValueInRange(k.ty, |lookup|);
    } else if f :| f in p.viewFns && point == (b.viewFn(p.name, f.name), RuntimeCallEntryPoint(f)) {
      assert CallableInRange(f, |lookup|);
    } else if IsVariant(lookup, p.calls, Args, b.call, p.name, point) {
      VariantPointInRange(lookup, p.calls, Args, b.call, p.name, point);
    } else if IsVariant(lookup, p.events, Values, b.event, p.name, point) {
      VariantPointInRange(lookup, p.events, Values, b.event, p.name, point);
    } else {
      VariantPointInRange(lookup, p.errors, Values, b.error, p.name, point);
    }
  }

  lemma SingleValueInRange(ty: nat, n: nat)
    requires ty < n
    ensures AllBelow(EntryPointRefs(SingleValueEntryPoint(ty)), n)
  {
  }

  lemma VariantPointInRange(lookup: seq<Var>, ty: Option<nat>, side: Side, checksum: (string, string) -> string,
                            pallet: string, point: Point)
    requires InRange(lookup) && (ty.Some? ==> ty.value < |lookup|)
    requires IsVariant(lookup, ty, side, checksum, pallet, point)
    ensures AllBelow(EntryPointRefs(point.1), |lookup|)
  {
    hide InRange, AllBelow, EntryPointRefs, VariantEntryPoint;
    var v :| v in lookup[ty.value].values && point == (checksum(pallet, v.name), VariantEntryPoint(side, v.value));
    VariantInRange(lookup, ty.value, v, side);
  }

  // ------------------------------------------------------------------ used types

  datatype Used = Used(types: map<string, Node>, entryPoints: map<string, EntryPoint>, checksums: map<nat, string>)

  /**
   * The entry points of a chain and the types that they lead to, of every checksum one; none if some
   * calls, events or errors are no enumeration. No entry point and no type is missing, and nothing
   * is collected that no entry point leads to.
   */
  method GetUsedTypes(lookup: seq<Var>, b: Builder, md: Metadata) returns (used: Option<Used>, ghost points: seq<Point>)
    requires InRange(lookup) && InMetadata(md, |lookup|)
    ensures used.Some? <==> AllPalletsOk(lookup, md)
    ensures used.Some? ==>
              && (forall point :: point in points <==> IsPoint(lookup, b, md, point))
              && (forall point :: IsPoint(lookup, b, md, point) ==> point.0 in used.value.entryPoints)
              && (forall c :: c in used.value.entryPoints ==> IsPoint(lookup, b, md, (c, used.value.entryPoints[c])))
    ensures used.Some? ==>
              && ClosedTypes(used.value.types, used.value.entryPoints, used.value.checksums)
              && AllFromLookup(lookup, used.value.checksums, used.value.types)
              && (forall id :: id in used.value.checksums ==> used.value.checksums[id] == b.definition(id))
              && OnlyNeeded(Leads(lookup), {}, used.value.checksums.Keys, Elements(PointsRefs(points)))
  {
    hide IsPoint, InRange, AllBelow, EntryPointRefs, ClosedTypes, AllFromLookup, OnlyNeeded, AllPalletsOk;
    var all := AllPoints(lookup, b, md);
    if all.None? {
      return None, [];
    }
    points := all.value;
    forall k | 0 <= k < |points| ensures AllBelow(EntryPointRefs(points[k].1), |lookup|) {
      assert points[k] in points;
      PointInRange(lookup, b, md, points[k]);
    }
    var types, entryPoints, checksums := CollectTypes(lookup, b.definition, all.value);
    forall point | IsPoint(lookup, b, md, point) ensures point.0 in entryPoints {
      var k :| 0 <= k < |points| && points[k] == point;
    }
    used := Some(Used(types, entryPoints, checksums));
  }
}
