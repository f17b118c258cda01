/** The run-time check of a value against a destination type, and what the static levels say about it. */
module ValueCompatible {
  import opened Basics
  import opened TypeDefs
  import opened CompatibilityPlan

  /** JavaScript values as far as the check looks at them; `VNull` is null or undefined. */
  datatype Value =
    | VNull
    | VBool(b: bool)
    | VNum(n: int)
    | VBig(big: int)
    | VStr(s: string)
    | VBytes(bytes: seq<int>)
    | VArr(items: seq<Value>)
    | VObj(props: map<string, Value>)

  datatype Outcome = Yes | No | Throws | Unfinished

  predicate Truthy(v: Value) {
    match v
    case VNull => false
    case VBool(b) => b
    case VNum(n) => n != 0
    case VBig(n) => n != 0
    case VStr(s) => s != ""
    case _ => true
  }

  /** The property `key`; only plain objects are taken to have properties. */
  function Prop(v: Value, key: string): Value {
    if v.VObj? && key in v.props then v.props[key] else VNull
  }

  function Index(v: Value, i: nat): Value {
    if v.VArr? && i < |v.items| then v.items[i]
    else if v.VStr? && i < |v.s| then VStr([v.s[i]])
    else if v.VBytes? && i < |v.bytes| then VNum(v.bytes[i])
    else VNull
  }

  predicate TerminalAccepts(v: Value, prim: Primitive) {
    match prim
    case PStr => v.VStr?
    case PBig => v.VBig?
    case PBool => v.VBool?
    case PNum => v.VNum?
    case PBits => v.VObj? && Prop(v, "bitsLen").VNum? && Prop(v, "bytes").VBytes?
    case PVoid => true
  }

  predicate BinaryAccepts(v: Value, size: Option<nat>) {
    if size.None? then v.VBytes? else v.VStr? && "0x" <= v.s
  }

  /** `isCompatible`, cut off after `fuel` nested calls. */
  function IsCompatible(fuel: nat, v: Value, dest: Types, d: nat): Outcome
    requires dest.Valid() && d < |dest.objects|
    decreases fuel, 0
  {
    if fuel == 0 then Unfinished
    else
      assert dest.NodeOk(dest.objects[d]);
      match dest.objects[d]
      case TerminalNode(prim) => if TerminalAccepts(v, prim) then Yes else No
      case BinaryNode(size) => if BinaryAccepts(v, size) then Yes else No
      case ArrayNode(typeRef, length) =>
        if !v.VArr? || (length.Some? && |v.items| < length.value) then No
        else
          var items := if length.Some? then v.items[..length.value] else v.items;
          EveryItem(fuel - 1, items, dest, dest.At(typeRef))
      case EnumNode(variants) =>
        var tag := Prop(v, "type");
        if !Truthy(v) || !tag.VStr? then No
        else
          var payload := LastOf(variants, tag.s);
          if payload.None? then No
          else IsCompatible(fuel - 1, Prop(v, "value"), dest, dest.Resolve(payload.value))
      case OptionNode(value) =>
        if v.VNull? then Yes else IsCompatible(fuel - 1, v, dest, dest.At(value))
      case StructNode(fields) =>
        if !Truthy(v) then No else EveryField(fuel - 1, v, dest, fields)
      case TupleNode(items) =>
        if !Truthy(v) then No else EveryIndex(fuel - 1, v, dest, items, 0)
      case ResultNode(ok, ko) =>
        if v.VNull? || v.VBool? || v.VNum? || v.VBig? || v.VStr? then Throws
        else if !(v.VObj? && "success" in v.props && "value" in v.props) then No
        else IsCompatible(fuel - 1, v.props["value"], dest, dest.At(if Truthy(v.props["success"]) then ok else ko))
  }

  function EveryItem(fuel: nat, items: seq<Value>, dest: Types, d: nat): Outcome
    requires dest.Valid() && d < |dest.objects|
    decreases fuel, 1, |items|
  {
    if items == [] then Yes
    else
      var first := IsCompatible(fuel, items[0], dest, d);
      if first != Yes then first else EveryItem(fuel, items[1..], dest, d)
  }

  function EveryField(fuel: nat, v: Value, dest: Types, fields: seq<(string, nat)>): Outcome
    requires dest.Valid() && forall i :: 0 <= i < |fields| ==> dest.Has(fields[i].1)
    decreases fuel, 1, |fields|
  {
    if fields == [] then Yes
    else
      var first := IsCompatible(fuel, Prop(v, fields[0].0), dest, dest.At(fields[0].1));
      if first != Yes then first else EveryField(fuel, v, dest, fields[1..])
  }

  function EveryIndex(fuel: nat, v: Value, dest: Types, items: seq<nat>, from: nat): Outcome
    requires dest.Valid() && forall i :: 0 <= i < |items| ==> dest.Has(items[i])
    requires from <= |items|
    decreases fuel, 1, |items| - from
  {
    if from == |items| then Yes
    else
      var first := IsCompatible(fuel, Index(v, from), dest, dest.At(items[from]));
      if first != Yes then first else EveryIndex(fuel, v, dest, items, from + 1)
  }

  // ------------------------------------------------------------------ inhabitants

  predicate IsHexDigit(c: char) {
    '0' <= c <= '9' || 'a' <= c <= 'f' || 'A' <= c <= 'F'
  }

  /** `v` is binary data: bytes, or for a fixed size that many bytes written out in hexadecimal. */
  predicate IsBinary(v: Value, size: Option<nat>) {
    match size
    case None => v.VBytes? && forall i :: 0 <= i < |v.bytes| ==> 0 <= v.bytes[i] < 256
    case Some(n) =>
      && v.VStr? && |v.s| == 2 + 2 * n && v.s[..2] == "0x"
      && forall i :: 2 <= i < |v.s| ==> IsHexDigit(v.s[i])
  }

  /** `v` is a value of type `o`, seen to depth `n`: every part typed, and no part to spare. */
  ghost predicate Inhabits(n: nat, v: Value, origin: Types, o: nat)
    requires origin.Valid() && o < |origin.objects|
    decreases n
  {
    n > 0 &&
    (assert origin.NodeOk(origin.objects[o]);
     match origin.objects[o]
     case TerminalNode(prim) => TerminalAccepts(v, prim)
     case BinaryNode(size) => IsBinary(v, size)
     case ArrayNode(typeRef, length) =>
       && v.VArr?
       && (length.Some? ==> |v.items| == length.value)
       && (forall i :: 0 <= i < |v.items| ==> Inhabits(n - 1, v.items[i], origin, origin.At(typeRef)))
     case EnumNode(variants) =>
       && v.VObj? && Prop(v, "type").VStr?
       && (var payload := LastOf(variants, Prop(v, "type").s);
           payload.Some? && Inhabits(n - 1, Prop(v, "value"), origin, origin.Resolve(payload.value)))
     case OptionNode(value) => v.VNull? || Inhabits(n - 1, v, origin, origin.At(value))
     case StructNode(fields) =>
       && v.VObj?
       && (forall key :: key in v.props ==> LastOf(fields, key).Some?)
       && (forall key :: LastOf(fields, key).Some? ==> FieldInhabits(n, v, origin, fields, key))
     case TupleNode(items) =>
       && v.VArr? && |v.items| == |items|
       && (forall i :: 0 <= i < |items| ==> Inhabits(n - 1, v.items[i], origin, origin.At(items[i])))
     case ResultNode(ok, ko) =>
       && v.VObj? && "success" in v.props && "value" in v.props && v.props["success"].VBool?
       && Inhabits(n - 1, v.props["value"], origin, origin.At(if v.props["success"].b then ok else ko)))
  }

  ghost predicate FieldInhabits(n: nat, v: Value, origin: Types, fields: seq<(string, nat)>, key: string)
    requires origin.Valid() && n > 0
    requires forall i :: 0 <= i < |fields| ==> origin.Has(fields[i].1)
    requires LastOf(fields, key).Some?
    decreases n, 0
  {
    Inhabits(n - 1, Prop(v, key), origin, origin.At(LastOf(fields, key).value))
  }

  /** Unwrapping options from `d` ends within `k` steps. */
  ghost predicate OptionsEnd(dest: Types, d: nat, k: nat)
    requires dest.Valid() && d < |dest.objects|
    decreases k
  {
    assert dest.NodeOk(dest.objects[d]);
    dest.objects[d].OptionNode? ==> k > 0 && OptionsEnd(dest, dest.At(dest.objects[d].value), k - 1)
  }

  /** No type is an option of itself through options only. */
  ghost predicate NoOptionCycle(dest: Types)
    requires dest.Valid()
  {
    forall d :: 0 <= d < |dest.objects| ==> OptionsEnd(dest, d, |dest.objects|)
  }

  // -------------------------------------------------------------------- soundness

  lemma {:induction false} EveryItemYes(fuel: nat, items: seq<Value>, dest: Types, d: nat)
    requires dest.Valid() && d < |dest.objects|
    requires forall i :: 0 <= i < |items| ==> IsCompatible(fuel, items[i], dest, d) == Yes
    ensures EveryItem(fuel, items, dest, d) == Yes
  {
    hide IsCompatible;
    if items != [] {
      EveryItemYes(fuel, items[1..], dest, d);
    }
  }

  lemma {:induction false} EveryFieldYes(fuel: nat, v: Value, dest: Types, fields: seq<(string, nat)>)
    requires dest.Valid() && forall i :: 0 <= i < |fields| ==> dest.Has(fields[i].1)
    requires forall i :: 0 <= i < |fields| ==>
             IsCompatible(fuel, Prop(v, fields[i].0), dest, dest.At(fields[i].1)) == Yes
    ensures EveryField(fuel, v, dest, fields) == Yes
  {
    hide IsCompatible;
    if fields != [] {
      var rest := fields[1..];
      assert forall i :: 0 <= i < |rest| ==> rest[i] == fields[i + 1];
      EveryFieldYes(fuel, v, dest, rest);
    }
  }

  lemma {:induction false} EveryIndexYes(fuel: nat, v: Value, dest: Types, items: seq<nat>, from: nat)
    requires dest.Valid() && forall i :: 0 <= i < |items| ==> dest.Has(items[i])
    requires from <= |items|
    requires forall i :: from <= i < |items| ==> IsCompatible(fuel, Index(v, i), dest, dest.At(items[i])) == Yes
    ensures EveryIndex(fuel, v, dest, items, from) == Yes
    decreases |items| - from
  {
    hide IsCompatible;
    if from < |items| {
      EveryIndexYes(fuel, v, dest, items, from + 1);
    }
  }

  /** Calls that suffice for a value of depth `n`, when options nest at most `k` deep. */
  function Budget(n: nat, k: nat): nat {
    if n == 0 then 0 else Budget(n - 1, k) + k + 1
  }

  /** A sized binary is offered where an unsized one is expected. */
  predicate SizedToUnsized(o: Node, d: Node) {
    o.BinaryNode? && d.BinaryNode? && o.size.Some? && d.size.None?
  }

  predicate EmptyArray(node: Node) {
    node.ArrayNode? && node.length == Some(0)
  }

  /**
   * A value may have the part that is compared as item `i`: arrays have elements, and the variant is
   * not hidden by a later one with its tag.
   */
  predicate Seen(o: Node, d: Node, i: nat) {
    d.OptionNode? ||
    (!EmptyArray(o) && !EmptyArray(d)
     && (o.EnumNode? && i < |o.variants| ==> LastOf(o.variants, o.variants[i].0) == Some(o.variants[i].1)))
  }

  /** The pairs that the plan of a pair compares. */
  ghost function PlanItems(plan: Plan): seq<Item> {
    match plan
    case Fixed(_) => []
    case AtMost(item, _) => [item]
    case AtLeast(item, _) => [item]
    case Strict(items, _) => items
    case Merged(items, _) => items
  }

  /** `q` is compared for `p`, for the sake of a part that values may have. */
  ghost predicate Follows(c: Chains, p: Pair, q: Pair)
    requires c.Valid()
  {
    && c.HasPair(p) && c.HasPair(q)
    && exists i :: 0 <= i < |PlanItems(c.PlanOf(p))| && ComparedAs(c, p, i, q)
  }

  ghost predicate ComparedAs(c: Chains, p: Pair, i: nat, q: Pair)
    requires c.Valid() && c.HasPair(p) && i < |PlanItems(c.PlanOf(p))|
  {
    && PlanItems(c.PlanOf(p))[i] == Compare(Some(q.0), Some(q.1))
    && Seen(c.origin.objects[p.0], c.dest.objects[p.1], i)
  }

  ghost predicate HasValue(origin: Types, o: nat)
    requires origin.Valid() && o < |origin.objects|
  {
    exists n, v :: Inhabits(n, v, origin, o)
  }

  /** All compatible pairs, and those of them that values come to. */
  datatype Basis = Basis(all: set<Pair>, met: set<Pair>)

  /** The pairs met are closed, and none offers a sized binary for an unsized one. */
  ghost predicate Sound(c: Chains, x: Basis) {
    && c.Valid()
    && NoOptionCycle(c.dest)
    && c.Supported(BACKWARDS_COMPATIBLE, x.all, {})
    && x.met <= x.all && MetClosed(c, x)
    && (forall p :: p in x.met ==> !SizedToUnsized(c.origin.objects[p.0], c.dest.objects[p.1]))
  }

  ghost predicate MetClosed(c: Chains, x: Basis)
    requires c.Valid()
  {
    forall p, q :: p in x.met && Follows(c, p, q) && q in x.all && HasValue(c.origin, q.0) ==> q in x.met
  }

  /** What a value comes to is met. */
  lemma Met(c: Chains, x: Basis, p: Pair, i: nat, q: Pair, n: nat, v: Value)
    requires Sound(c, x) && p in x.met && c.HasPair(p) && c.HasPair(q) && q in x.all
    requires i < |PlanItems(c.PlanOf(p))| && ComparedAs(c, p, i, q)
    requires Inhabits(n, v, c.origin, q.0)
    ensures q in x.met
  {
    hide c.PlanOf, c.SatPlan, ComparedAs, Inhabits, NoOptionCycle, c.Supported;
    assert Follows(c, p, q) && HasValue(c.origin, q.0);
  }

  lemma SoundPlan(c: Chains, x: Basis, p: Pair)
    requires Sound(c, x) && p in x.met
    ensures c.HasPair(p) && c.SatPlan(BACKWARDS_COMPATIBLE, x.all, c.PlanOf(p))
    ensures !SizedToUnsized(c.origin.objects[p.0], c.dest.objects[p.1])
    ensures c.origin.NodeOk(c.origin.objects[p.0]) && c.dest.NodeOk(c.dest.objects[p.1])
  {
    hide c.PlanOf, c.SatPlan, MetClosed;
  }

  /** A part of a value passes the check for the part of the destination it is compared with. */
  lemma AcceptsItem(c: Chains, x: Basis, p: Pair, i: nat, n: nat, v: Value, o: Option<nat>, d: nat, f: nat)
    requires Sound(c, x) && p in x.met && c.HasPair(p)
    requires i < |PlanItems(c.PlanOf(p))| && PlanItems(c.PlanOf(p))[i] == Compare(o, Some(d))
    requires Seen(c.origin.objects[p.0], c.dest.objects[p.1], i)
    requires c.ItemOk(Compare(o, Some(d))) && c.SatItem(BACKWARDS_COMPATIBLE, x.all, Compare(o, Some(d)))
    requires o.None? ==> v == VNull
    requires o.Some? ==> Inhabits(n, v, c.origin, o.value)
    requires f >= Budget(n + 1, |c.dest.objects|)
    ensures IsCompatible(f, v, c.dest, d) == Yes
    decreases f, 1
  {
    if o.Some? {
      hide Inhabits, c.PlanOf, c.SatPlan, IsCompatible, Seen;
      Met(c, x, p, i, (o.value, d), n, v);
      Accepts(c, x, n, v, o.value, d, |c.dest.objects|, f);
    }
  }

  /** A value of the origin type passes the check for the destination type. */
  lemma Accepts(c: Chains, x: Basis, n: nat, v: Value, o: nat, d: nat, k: nat, f: nat)
    requires Sound(c, x) && (o, d) in x.met
    requires o < |c.origin.objects| && d < |c.dest.objects|
    requires Inhabits(n, v, c.origin, o)
    requires OptionsEnd(c.dest, d, k) && k <= |c.dest.objects|
    requires f >= Budget(n, |c.dest.objects|) + k + 1
    ensures IsCompatible(f, v, c.dest, d) == Yes
    decreases f, 0, 1
  {
    hide Inhabits, IsCompatible, OptionsEnd, Budget;
    SoundPlan(c, x, (o, d));
    KindsAgree(c, x.all, (o, d));
    hide c.PlanOf, c.SatPlan;
    if c.dest.objects[d].OptionNode? {
      AcceptsOption(c, x, n, v, o, d, k, f);
    } else {
      assert Facing(c, x, n, v, o, d, f);
      match c.dest.objects[d] {
        case ArrayNode(_, _) => AcceptsArray(c, x, n, v, o, d, f);
        case EnumNode(_) => AcceptsEnum(c, x, n, v, o, d, f);
        case StructNode(_) => AcceptsStruct(c, x, n, v, o, d, f);
        case TupleNode(_) => AcceptsTuple(c, x, n, v, o, d, f);
        case ResultNode(_, _) => AcceptsResult(c, x, n, v, o, d, f);
        case _ => AcceptsLeaf(c, x, n, v, o, d, f);
      }
    }
  }

  /** Unless an option is expected, both nodes are of the same kind. */
  lemma KindsAgree(c: Chains, x: set<Pair>, p: Pair)
    requires c.Valid() && c.HasPair(p) && c.SatPlan(BACKWARDS_COMPATIBLE, x, c.PlanOf(p))
    ensures match c.dest.objects[p.1]
            case OptionNode(_) => true
            case StructNode(_) => c.origin.objects[p.0].StructNode?
            case TerminalNode(_) => c.origin.objects[p.0].TerminalNode? && PlanItems(c.PlanOf(p)) == []
            case EnumNode(_) => c.origin.objects[p.0].EnumNode?
            case TupleNode(_) => c.origin.objects[p.0].TupleNode?
            case ArrayNode(_, _) => c.origin.objects[p.0].ArrayNode?
            case BinaryNode(_) => c.origin.objects[p.0].BinaryNode? && PlanItems(c.PlanOf(p)) == []
            case ResultNode(_, _) => c.origin.objects[p.0].ResultNode?
  {
  }

  lemma AcceptsLeaf(c: Chains, x: Basis, n: nat, v: Value, o: nat, d: nat, f: nat)
    requires Facing(c, x, n, v, o, d, f)
    requires c.dest.objects[d].TerminalNode? || c.dest.objects[d].BinaryNode?
    ensures IsCompatible(f, v, c.dest, d) == Yes
  {
    SoundPlan(c, x, (o, d));
    KindsAgree(c, x.all, (o, d));
    hide Sound;
  }

  lemma OptionParts(c: Chains, x: Basis, p: Pair)
    requires Sound(c, x) && p in x.met && c.HasPair(p)
    requires c.dest.objects[p.1].OptionNode?
    ensures c.origin.NodeOk(c.origin.objects[p.0]) && c.dest.NodeOk(c.dest.objects[p.1])
    ensures var d := c.dest.At(c.dest.objects[p.1].value);
            var o := c.origin.objects[p.0];
            var q := (if o.OptionNode? then c.origin.At(o.value) else p.0, d);
            q in x.all && c.HasPair(q) && 0 < |PlanItems(c.PlanOf(p))| && ComparedAs(c, p, 0, q)
  {
    SoundPlan(c, x, p);
    hide Sound;
  }

  lemma AcceptsOption(c: Chains, x: Basis, n: nat, v: Value, o: nat, d: nat, k: nat, f: nat)
    requires Sound(c, x) && (o, d) in x.met
    requires o < |c.origin.objects| && d < |c.dest.objects|
    requires Inhabits(n, v, c.origin, o)
    requires OptionsEnd(c.dest, d, k) && k <= |c.dest.objects|
    requires f >= Budget(n, |c.dest.objects|) + k + 1
    requires c.dest.objects[d].OptionNode?
    ensures IsCompatible(f, v, c.dest, d) == Yes
    decreases f, 0, 0
  {
    hide Sound, Inhabits, IsCompatible;
    OptionDecides(f, v, c, x, o, d);
    if !v.VNull? || !c.origin.objects[o].OptionNode? {
      var n', o' := OptionPart(c, x, n, v, o, d);
      Accepts(c, x, n', v, o', c.dest.At(c.dest.objects[d].value), k - 1, f - 1);
    }
  }

  lemma OptionDecides(f: nat, v: Value, c: Chains, x: Basis, o: nat, d: nat)
    requires Sound(c, x) && d < |c.dest.objects| && f > 0 && c.dest.objects[d].OptionNode?
    ensures c.dest.Has(c.dest.objects[d].value)
    ensures IsCompatible(f, v, c.dest, d)
            == if v.VNull? then Yes else IsCompatible(f - 1, v, c.dest, c.dest.At(c.dest.objects[d].value))
  {
    assert c.dest.NodeOk(c.dest.objects[d]);
  }

  /** What stands behind an option that is expected, as a value of what is offered. */
  lemma OptionPart(c: Chains, x: Basis, n: nat, v: Value, o: nat, d: nat) returns (n': nat, o': nat)
    requires Sound(c, x) && (o, d) in x.met
    requires o < |c.origin.objects| && d < |c.dest.objects| && c.dest.objects[d].OptionNode?
    requires Inhabits(n, v, c.origin, o) && (!v.VNull? || !c.origin.objects[o].OptionNode?)
    ensures c.dest.Has(c.dest.objects[d].value) && (o', c.dest.At(c.dest.objects[d].value)) in x.met
    ensures o' < |c.origin.objects| && Inhabits(n', v, c.origin, o') && (n' == n || n' + 1 == n)
  {
    OptionParts(c, x, (o, d));
    hide Sound, c.PlanOf, ComparedAs, MetClosed;
    if c.origin.objects[o].OptionNode? {
      n', o' := n - 1, c.origin.At(c.origin.objects[o].value);
    } else {
      n', o' := n, o;
    }
    Met(c, x, (o, d), 0, (o', c.dest.At(c.dest.objects[d].value)), n', v);
  }

  ghost predicate Facing(c: Chains, x: Basis, n: nat, v: Value, o: nat, d: nat, f: nat) {
    && Sound(c, x) && (o, d) in x.met
    && o < |c.origin.objects| && d < |c.dest.objects|
    && Inhabits(n, v, c.origin, o)
    && f >= Budget(n, |c.dest.objects|) + 1
  }

  lemma AcceptsArray(c: Chains, x: Basis, n: nat, v: Value, o: nat, d: nat, f: nat)
    requires Facing(c, x, n, v, o, d, f)
    requires c.origin.objects[o].ArrayNode? && c.dest.objects[d].ArrayNode?
    ensures IsCompatible(f, v, c.dest, d) == Yes
    decreases f, 0, 0
  {
    SoundPlan(c, x, (o, d));
    var plan := c.PlanOf((o, d));
    assert c.SatItem(BACKWARDS_COMPATIBLE, x.all, plan.items[0])
           && c.SatItem(BACKWARDS_COMPATIBLE, x.all, plan.items[1]);
    var dNode := c.dest.objects[d];
    var items := if dNode.length.Some? then v.items[..dNode.length.value] else v.items;
    forall i | 0 <= i < |items| ensures IsCompatible(f - 1, items[i], c.dest, c.dest.At(dNode.typeRef)) == Yes {
      AcceptsItem(c, x, (o, d), 1, n - 1, items[i], plan.items[1].origin, c.dest.At(dNode.typeRef), f - 1);
    }
    EveryItemYes(f - 1, items, c.dest, c.dest.At(dNode.typeRef));
  }

  lemma EnumDecides(f: nat, v: Value, dest: Types, d: nat)
    requires f > 0 && dest.Valid() && d < |dest.objects| && dest.objects[d].EnumNode?
    requires Truthy(v) && Prop(v, "type").VStr?
    ensures var payload := LastOf(dest.objects[d].variants, Prop(v, "type").s);
            payload.Some? ==>
              && dest.HasPayload(payload.value)
              && IsCompatible(f, v, dest, d) == IsCompatible(f - 1, Prop(v, "value"), dest, dest.Resolve(payload.value))
  {
    assert dest.NodeOk(dest.objects[d]);
  }

  lemma AcceptsEnum(c: Chains, x: Basis, n: nat, v: Value, o: nat, d: nat, f: nat)
    requires Facing(c, x, n, v, o, d, f)
    requires c.origin.objects[o].EnumNode? && c.dest.objects[d].EnumNode?
    ensures IsCompatible(f, v, c.dest, d) == Yes
    decreases f, 0, 0
  {
    hide IsCompatible;
    EnumDecides(f, v, c.dest, d);
    SoundPlan(c, x, (o, d));
    var tag := Prop(v, "type").s;
    var variants := c.origin.objects[o].variants;
    var payload := LastOf(variants, tag).value;
    var i :| 0 <= i < |variants| && variants[i] == (tag, payload);
    assert Seen(c.origin.objects[o], c.dest.objects[d], i);
    var plan := c.PlanOf((o, d));
    assert plan.items[i] == c.VariantItem(variants[i], c.dest.objects[d].variants);
    assert c.SatItem(BACKWARDS_COMPATIBLE, x.all, plan.items[i]);
    AcceptsItem(c, x, (o, d), i, n - 1, Prop(v, "value"), plan.items[i].origin, plan.items[i].dest.value, f - 1);
  }

  lemma AcceptsStruct(c: Chains, x: Basis, n: nat, v: Value, o: nat, d: nat, f: nat)
    requires Facing(c, x, n, v, o, d, f)
    requires c.origin.objects[o].StructNode? && c.dest.objects[d].StructNode?
    ensures IsCompatible(f, v, c.dest, d) == Yes
    decreases f, 0, 0
  {
    SoundPlan(c, x, (o, d));
    var dFields := c.dest.objects[d].fields;
    forall i | 0 <= i < |dFields|
      ensures IsCompatible(f - 1, Prop(v, dFields[i].0), c.dest, c.dest.At(dFields[i].1)) == Yes
    {
      AcceptsField(c, x, n, v, o, d, i, f);
    }
    hide Facing, Sound, Inhabits, c.PlanOf, c.SatPlan;
    EveryFieldYes(f - 1, v, c.dest, dFields);
  }

  lemma AcceptsField(c: Chains, x: Basis, n: nat, v: Value, o: nat, d: nat, i: nat, f: nat)
    requires c.Valid() && o < |c.origin.objects| && d < |c.dest.objects| && Facing(c, x, n, v, o, d, f)
    requires c.origin.objects[o].StructNode? && c.dest.objects[d].StructNode?
    requires i < |c.dest.objects[d].fields| && c.dest.Has(c.dest.objects[d].fields[i].1)
    ensures var field := c.dest.objects[d].fields[i];
            IsCompatible(f - 1, Prop(v, field.0), c.dest, c.dest.At(field.1)) == Yes
    decreases f - 1, 2
  {
    hide *;
    var field := c.dest.objects[d].fields[i];
    var from := FieldPart(c, x, n, v, o, d, i, f);
    AcceptsItem(c, x, (o, d), i, n - 1, Prop(v, field.0), from, c.dest.At(field.1), f - 1);
  }

  /** The type from which a field of the destination comes, if the origin has the field. */
  lemma FieldPart(c: Chains, x: Basis, n: nat, v: Value, o: nat, d: nat, i: nat, f: nat) returns (from: Option<nat>)
    requires Facing(c, x, n, v, o, d, f)
    requires c.origin.objects[o].StructNode? && c.dest.objects[d].StructNode?
    requires i < |c.dest.objects[d].fields| && c.dest.Has(c.dest.objects[d].fields[i].1)
    ensures Sound(c, x) && (o, d) in x.met && f - 1 >= Budget(n, |c.dest.objects|)
    ensures n > 0 && c.HasPair((o, d)) && Seen(c.origin.objects[o], c.dest.objects[d], i)
    ensures var field := c.dest.objects[d].fields[i];
            var item := Compare(from, Some(c.dest.At(field.1)));
            && i < |PlanItems(c.PlanOf((o, d)))| && PlanItems(c.PlanOf((o, d)))[i] == item
            && c.ItemOk(item) && c.SatItem(BACKWARDS_COMPATIBLE, x.all, item)
            && (from.None? ==> Prop(v, field.0) == VNull)
            && (from.Some? ==> Inhabits(n - 1, Prop(v, field.0), c.origin, from.value))
  {
    SoundPlan(c, x, (o, d));
    hide Sound;
    var oFields, field := c.origin.objects[o].fields, c.dest.objects[d].fields[i];
    var plan := c.PlanOf((o, d));
    from := c.Field(oFields, field.0);
    assert plan.items[i] == Compare(from, Some(c.dest.At(field.1)));
    assert c.SatItem(BACKWARDS_COMPATIBLE, x.all, plan.items[i]);
    assert LastOf(oFields, field.0).Some? ==> FieldInhabits(n, v, c.origin, oFields, field.0);
  }

  lemma AcceptsTuple(c: Chains, x: Basis, n: nat, v: Value, o: nat, d: nat, f: nat)
    requires Facing(c, x, n, v, o, d, f)
    requires c.origin.objects[o].TupleNode? && c.dest.objects[d].TupleNode?
    ensures IsCompatible(f, v, c.dest, d) == Yes
    decreases f, 0, 0
  {
    SoundPlan(c, x, (o, d));
    var oItems, dItems := c.origin.objects[o].items, c.dest.objects[d].items;
    var plan := c.PlanOf((o, d));
    assert plan.items[0] == Known(CompareArrayLengths(|oItems|, |dItems|));
    assert c.SatItem(BACKWARDS_COMPATIBLE, x.all, plan.items[0]);
    forall i | 0 <= i < |dItems| ensures IsCompatible(f - 1, Index(v, i), c.dest, c.dest.At(dItems[i])) == Yes {
      assert plan.items[i + 1] == c.TupleItem(oItems, dItems[i], i);
      assert c.SatItem(BACKWARDS_COMPATIBLE, x.all, plan.items[i + 1]);
      AcceptsItem(c, x, (o, d), i + 1, n - 1, Index(v, i), plan.items[i + 1].origin, c.dest.At(dItems[i]), f - 1);
    }
    EveryIndexYes(f - 1, v, c.dest, dItems, 0);
  }

  lemma AcceptsResult(c: Chains, x: Basis, n: nat, v: Value, o: nat, d: nat, f: nat)
    requires Facing(c, x, n, v, o, d, f)
    requires c.origin.objects[o].ResultNode? && c.dest.objects[d].ResultNode?
    ensures IsCompatible(f, v, c.dest, d) == Yes
    decreases f, 0, 0
  {
    SoundPlan(c, x, (o, d));
    var plan := c.PlanOf((o, d));
    assert c.SatItem(BACKWARDS_COMPATIBLE, x.all, plan.items[0])
           && c.SatItem(BACKWARDS_COMPATIBLE, x.all, plan.items[1]);
    var i := if v.props["success"].b then 0 else 1;
    var item := plan.items[i];
    AcceptsItem(c, x, (o, d), i, n - 1, v.props["value"], item.origin, item.dest.value, f - 1);
  }

  // -------------------------------------------- what the level says about values

  /** Values of `p` come to the comparison of `q` `k` levels below. */
  ghost predicate ReachedIn(c: Chains, k: nat, p: Pair, q: Pair)
    requires c.Valid()
  {
    && c.HasPair(p) && HasValue(c.origin, p.0)
    && if k == 0 then p == q else exists r :: Follows(c, p, r) && ReachedIn(c, k - 1, r, q)
  }

  /** No value comes to a sized binary offered for an unsized one. */
  ghost predicate BinariesAgree(c: Chains, p: Pair)
    requires c.Valid()
  {
    forall k: nat, q: Pair :: ReachedIn(c, k, p, q) && c.HasPair(q) ==>
        !SizedToUnsized(c.origin.objects[q.0], c.dest.objects[q.1])
  }

  ghost predicate Accepted(v: Value, dest: Types, d: nat)
    requires dest.Valid() && d < |dest.objects|
  {
    exists f :: IsCompatible(f, v, dest, d) == Yes
  }

  /** Every value of the origin type passes the run-time check for the destination type. */
  ghost predicate AllAccepted(c: Chains, p: Pair)
    requires c.Valid() && c.HasPair(p)
  {
    forall n, v :: Inhabits(n, v, c.origin, p.0) ==> Accepted(v, c.dest, p.1)
  }

  lemma {:induction false} ReachedStep(c: Chains, k: nat, p: Pair, q: Pair, r: Pair)
    requires c.Valid() && ReachedIn(c, k, p, q) && Follows(c, q, r) && c.HasPair(r) && HasValue(c.origin, r.0)
    ensures ReachedIn(c, k + 1, p, r)
  {
    hide Follows, HasValue;
    if k == 0 {
      assert ReachedIn(c, 0, r, r);
    } else {
      var p' :| Follows(c, p, p') && ReachedIn(c, k - 1, p', q);
      ReachedStep(c, k - 1, p', q, r);
    }
  }

  /** The compatible pairs that values of `p` come to. */
  ghost function Below(c: Chains, p: Pair): set<Pair>
    requires c.Valid()
  {
    set q | q in c.Largest(BACKWARDS_COMPATIBLE, {}) && exists k :: ReachedIn(c, k, p, q)
  }

  lemma BelowIsSound(c: Chains, p: Pair)
    requires c.Valid() && NoOptionCycle(c.dest) && BinariesAgree(c, p)
    ensures Sound(c, Basis(c.Largest(BACKWARDS_COMPATIBLE, {}), Below(c, p)))
  {
    var x := Basis(c.Largest(BACKWARDS_COMPATIBLE, {}), Below(c, p));
    LargestSupported(c, BACKWARDS_COMPATIBLE, {});
    hide c.Largest, NoOptionCycle, ReachedIn, Follows, HasValue;
    forall q, r | q in x.met && Follows(c, q, r) && r in x.all && c.HasPair(r) && HasValue(c.origin, r.0)
        ensures r in x.met {
      var k :| ReachedIn(c, k, p, q);
      ReachedStep(c, k, p, q, r);
    }
    forall q | q in x.met ensures c.HasPair(q) && !SizedToUnsized(c.origin.objects[q.0], c.dest.objects[q.1]) {
      SupportedPlan(c, BACKWARDS_COMPATIBLE, x.all, {}, q);
      var k :| ReachedIn(c, k, p, q);
    }
  }

  /** At level BackwardsCompatible every value of the origin type is accepted, binaries permitting. */
  lemma BackwardsCompatibleAccepts(c: Chains, p: Pair)
    requires c.Valid() && c.HasPair(p) && NoOptionCycle(c.dest)
    requires c.Greatest(p) >= BACKWARDS_COMPATIBLE
    requires BinariesAgree(c, p)
    ensures AllAccepted(c, p)
  {
    var x := Basis(c.Largest(BACKWARDS_COMPATIBLE, {}), Below(c, p));
    BelowIsSound(c, p);
    GreatestAtLeast(c, BACKWARDS_COMPATIBLE, p);
    assert p == (p.0, p.1) && p in c.AllPairs();
    hide c.Holds, c.Greatest, c.PlanOf, IsCompatible, Inhabits, Budget, Sound, Follows;
    assert p in x.all;
    forall n, v | Inhabits(n, v, c.origin, p.0) ensures Accepted(v, c.dest, p.1) {
      assert HasValue(c.origin, p.0);
      assert ReachedIn(c, 0, p, p);
      assert p in x.met;
      var k := |c.dest.objects|;
      OptionsEndSoon(c.dest, p.1);
      Accepts(c, x, n, v, p.0, p.1, k, Budget(n, k) + k + 1);
    }
  }

  lemma OptionsEndSoon(dest: Types, d: nat)
    requires dest.Valid() && NoOptionCycle(dest) && d < |dest.objects|
    ensures OptionsEnd(dest, d, |dest.objects|)
  {
  }

  // -------------------------------------------------- and what it does not say

  lemma {:induction false} InhabitsMore(n: nat, n': nat, v: Value, origin: Types, o: nat)
    requires origin.Valid() && o < |origin.objects| && n <= n' && Inhabits(n, v, origin, o)
    ensures Inhabits(n', v, origin, o)
    decreases n, 1
  {
    assert origin.NodeOk(origin.objects[o]);
    match origin.objects[o]
    case TerminalNode(_) =>
    case BinaryNode(_) =>
    case ArrayNode(_, _) => ArrayInhabitsMore(n, n', v, origin, o);
    case EnumNode(_) => EnumInhabitsMore(n, n', v, origin, o);
    case OptionNode(value) =>
      if !v.VNull? { InhabitsMore(n - 1, n' - 1, v, origin, origin.At(value)); }
    case StructNode(_) => StructInhabitsMore(n, n', v, origin, o);
    case TupleNode(_) => TupleInhabitsMore(n, n', v, origin, o);
    case ResultNode(ok, ko) =>
      InhabitsMore(n - 1, n' - 1, v.props["value"], origin, origin.At(if v.props["success"].b then ok else ko));
  }

  lemma {:induction false} ArrayInhabitsMore(n: nat, n': nat, v: Value, origin: Types, o: nat)
    requires origin.Valid() && o < |origin.objects| && n <= n' && Inhabits(n, v, origin, o)
    requires origin.objects[o].ArrayNode?
    ensures Inhabits(n', v, origin, o)
    decreases n, 0
  {
    assert origin.NodeOk(origin.objects[o]);
    var typeRef := origin.objects[o].typeRef;
    forall i | 0 <= i < |v.items| ensures Inhabits(n' - 1, v.items[i], origin, origin.At(typeRef)) {
      InhabitsMore(n - 1, n' - 1, v.items[i], origin, origin.At(typeRef));
    }
  }

  lemma {:induction false} TupleInhabitsMore(n: nat, n': nat, v: Value, origin: Types, o: nat)
    requires origin.Valid() && o < |origin.objects| && n <= n' && Inhabits(n, v, origin, o)
    requires origin.objects[o].TupleNode?
    ensures Inhabits(n', v, origin, o)
    decreases n, 0
  {
    assert origin.NodeOk(origin.objects[o]);
    var items := origin.objects[o].items;
    forall i | 0 <= i < |items| ensures Inhabits(n' - 1, v.items[i], origin, origin.At(items[i])) {
      InhabitsMore(n - 1, n' - 1, v.items[i], origin, origin.At(items[i]));
    }
  }

  lemma {:induction false} EnumInhabitsMore(n: nat, n': nat, v: Value, origin: Types, o: nat)
    requires origin.Valid() && o < |origin.objects| && n <= n' && Inhabits(n, v, origin, o)
    requires origin.objects[o].EnumNode?
    ensures Inhabits(n', v, origin, o)
    decreases n, 0
  {
    assert origin.NodeOk(origin.objects[o]);
    InhabitsMore(n - 1, n' - 1, Prop(v, "value"), origin,
                 origin.Resolve(LastOf(origin.objects[o].variants, Prop(v, "type").s).value));
  }

  lemma {:induction false} StructInhabitsMore(n: nat, n': nat, v: Value, origin: Types, o: nat)
    requires origin.Valid() && o < |origin.objects| && n <= n' && Inhabits(n, v, origin, o)
    requires origin.objects[o].StructNode?
    ensures Inhabits(n', v, origin, o)
    decreases n, 0
  {
    assert origin.NodeOk(origin.objects[o]);
    var fields := origin.objects[o].fields;
    forall key | LastOf(fields, key).Some? ensures FieldInhabits(n', v, origin, fields, key) {
      assert FieldInhabits(n, v, origin, fields, key);
      InhabitsMore(n - 1, n' - 1, Prop(v, key), origin, origin.At(LastOf(fields, key).value));
    }
  }

  /** `v`, of the origin type and depth `m`, never passes the run-time check. */
  ghost predicate Refused(c: Chains, m: nat, v: Value, p: Pair)
    requires c.Valid() && c.HasPair(p)
  {
    && v != VNull
    && Inhabits(m, v, c.origin, p.0)
    && forall f: nat :: IsCompatible(f, v, c.dest, p.1) != Yes
  }

  lemma {:induction false} EveryFieldNotYes(fuel: nat, v: Value, dest: Types, fields: seq<(string, nat)>, i: nat)
    requires dest.Valid() && forall i :: 0 <= i < |fields| ==> dest.Has(fields[i].1)
    requires i < |fields| && IsCompatible(fuel, Prop(v, fields[i].0), dest, dest.At(fields[i].1)) != Yes
    ensures EveryField(fuel, v, dest, fields) != Yes
  {
    hide IsCompatible;
    if i > 0 {
      EveryFieldNotYes(fuel, v, dest, fields[1..], i - 1);
    }
  }

  lemma {:induction false} EveryIndexNotYes(fuel: nat, v: Value, dest: Types, items: seq<nat>, from: nat, i: nat)
    requires dest.Valid() && forall i :: 0 <= i < |items| ==> dest.Has(items[i])
    requires from <= i < |items| && IsCompatible(fuel, Index(v, i), dest, dest.At(items[i])) != Yes
    ensures EveryIndex(fuel, v, dest, items, from) != Yes
    decreases i - from
  {
    hide IsCompatible;
    if from < i {
      EveryIndexNotYes(fuel, v, dest, items, from + 1, i);
    }
  }

  /** `q` is the part of `p` compared as item `i`, `w` a refused value for it. */
  ghost predicate Descending(c: Chains, p: Pair, i: nat, q: Pair, m: nat, w: Value) {
    && c.Valid() && c.HasPair(p) && c.HasPair(q) && HasValue(c.origin, p.0)
    && c.SatPlan(BACKWARDS_COMPATIBLE, c.Largest(BACKWARDS_COMPATIBLE, {}), c.PlanOf(p))
    && i < |PlanItems(c.PlanOf(p))| && ComparedAs(c, p, i, q)
    && Refused(c, m, w, q)
    && c.origin.NodeOk(c.origin.objects[p.0]) && c.dest.NodeOk(c.dest.objects[p.1])
  }

  lemma RefuseOption(c: Chains, p: Pair, i: nat, q: Pair, m: nat, w: Value)
    requires Descending(c, p, i, q, m, w) && c.dest.objects[p.1].OptionNode?
    ensures Refused(c, m + 1, w, p)
  {
    hide c.Largest;
    if !c.origin.objects[p.0].OptionNode? {
      InhabitsMore(m, m + 1, w, c.origin, p.0);
    }
    forall f: nat ensures IsCompatible(f, w, c.dest, p.1) != Yes {
      assert f > 0 ==> IsCompatible(f - 1, w, c.dest, q.1) != Yes;
    }
  }

  lemma RefuseArray(c: Chains, p: Pair, i: nat, q: Pair, m: nat, w: Value) returns (v: Value)
    requires Descending(c, p, i, q, m, w)
    requires c.dest.objects[p.1].ArrayNode? && c.origin.objects[p.0].ArrayNode?
    ensures Refused(c, m + 1, v, p)
  {
    hide c.Largest;
    var o, d := c.origin.objects[p.0], c.dest.objects[p.1];
    var items := seq(if o.length.Some? then o.length.value else 1, _ => w);
    v := VArr(items);
    assert !EmptyArray(o) && !EmptyArray(d);
    assert c.SatItem(BACKWARDS_COMPATIBLE, c.Largest(BACKWARDS_COMPATIBLE, {}), c.PlanOf(p).items[0]);
    var checked := if d.length.Some? then items[..d.length.value] else items;
    assert checked[0] == w;
    forall f: nat ensures IsCompatible(f, v, c.dest, p.1) != Yes {
      assert f > 0 ==> IsCompatible(f - 1, w, c.dest, q.1) != Yes;
    }
  }

  lemma RefuseEnum(c: Chains, p: Pair, i: nat, q: Pair, m: nat, w: Value) returns (v: Value)
    requires Descending(c, p, i, q, m, w)
    requires c.dest.objects[p.1].EnumNode? && c.origin.objects[p.0].EnumNode?
    ensures Refused(c, m + 1, v, p)
  {
    hide c.Largest;
    var variants := c.origin.objects[p.0].variants;
    var tag := variants[i].0;
    assert c.PlanOf(p).items[i] == c.VariantItem(variants[i], c.dest.objects[p.1].variants);
    v := VObj(map["type" := VStr(tag), "value" := w]);
    assert LastOf(variants, tag) == Some(variants[i].1);
    var payload := LastOf(c.dest.objects[p.1].variants, tag);
    assert payload.Some? ==> c.dest.HasPayload(payload.value) && c.dest.Resolve(payload.value) == q.1;
    hide Inhabits, c.PlanOf, Descending;
    RefuseVariant(c, p, tag, variants[i].1, q, m, w);
  }

  lemma RefuseVariant(c: Chains, p: Pair, tag: string, typed: Payload, q: Pair, m: nat, w: Value)
    requires c.Valid() && c.HasPair(p) && c.HasPair(q) && Refused(c, m, w, q)
    requires c.origin.NodeOk(c.origin.objects[p.0]) && c.dest.NodeOk(c.dest.objects[p.1])
    requires c.dest.objects[p.1].EnumNode? && c.origin.objects[p.0].EnumNode?
    requires LastOf(c.origin.objects[p.0].variants, tag) == Some(typed) && c.origin.Resolve(typed) == q.0
    requires var payload := LastOf(c.dest.objects[p.1].variants, tag);
             payload.Some? ==> c.dest.HasPayload(payload.value) && c.dest.Resolve(payload.value) == q.1
    ensures Refused(c, m + 1, VObj(map["type" := VStr(tag), "value" := w]), p)
  {
    var v := VObj(map["type" := VStr(tag), "value" := w]);
    assert Prop(v, "type") == VStr(tag) && Prop(v, "value") == w;
    assert Inhabits(m + 1, v, c.origin, p.0);
    hide Inhabits;
    forall f: nat ensures IsCompatible(f, v, c.dest, p.1) != Yes {
      assert f > 0 ==> IsCompatible(f - 1, w, c.dest, q.1) != Yes;
    }
  }

  /** A value of a struct with another value in one field. */
  lemma StructWith(origin: Types, o: nat, n: nat, v: Value, key: string, m: nat, w: Value)
    requires origin.Valid() && o < |origin.objects| && origin.objects[o].StructNode? && origin.NodeOk(origin.objects[o])
    requires Inhabits(n, v, origin, o) && LastOf(origin.objects[o].fields, key).Some?
    requires Inhabits(m, w, origin, origin.At(LastOf(origin.objects[o].fields, key).value))
    ensures var v' := VObj(v.props[key := w]);
            Prop(v', key) == w && Inhabits(Max(m, n) + 1, v', origin, o)
  {
    var fields := origin.objects[o].fields;
    var v' := VObj(v.props[key := w]);
    forall k | LastOf(fields, k).Some? ensures FieldInhabits(Max(m, n) + 1, v', origin, fields, k) {
      assert FieldInhabits(n, v, origin, fields, k);
      FieldWith(origin, fields, n, v, key, m, w, k);
    }
  }

  lemma FieldWith(origin: Types, fields: seq<(string, nat)>, n: nat, v: Value, key: string, m: nat, w: Value, k: string)
    requires origin.Valid() && forall i :: 0 <= i < |fields| ==> origin.Has(fields[i].1)
    requires n > 0 && v.VObj? && LastOf(fields, key).Some? && LastOf(fields, k).Some?
    requires FieldInhabits(n, v, origin, fields, k)
    requires Inhabits(m, w, origin, origin.At(LastOf(fields, key).value))
    ensures FieldInhabits(Max(m, n) + 1, VObj(v.props[key := w]), origin, fields, k)
  {
    hide Inhabits;
    var v' := VObj(v.props[key := w]);
    if k == key {
      InhabitsMore(m, Max(m, n), w, origin, origin.At(LastOf(fields, k).value));
    } else {
      assert Prop(v', k) == Prop(v, k);
      InhabitsMore(n - 1, Max(m, n), Prop(v, k), origin, origin.At(LastOf(fields, k).value));
    }
  }

  lemma RefuseStruct(c: Chains, p: Pair, i: nat, q: Pair, m: nat, w: Value) returns (m': nat, v: Value)
    requires Descending(c, p, i, q, m, w)
    requires c.dest.objects[p.1].StructNode? && c.origin.objects[p.0].StructNode?
    ensures Refused(c, m', v, p)
  {
    var oFields, dFields := c.origin.objects[p.0].fields, c.dest.objects[p.1].fields;
    var key := dFields[i].0;
    assert c.PlanOf(p).items[i] == Compare(c.Field(oFields, key), Some(c.dest.At(dFields[i].1)));
    var n, v0 :| Inhabits(n, v0, c.origin, p.0);
    StructWith(c.origin, p.0, n, v0, key, m, w);
    m', v := Max(m, n) + 1, VObj(v0.props[key := w]);
    hide c.Largest, c.PlanOf, Inhabits;
    RefuseField(c, p, i, v, q, w);
  }

  lemma RefuseField(c: Chains, p: Pair, i: nat, v: Value, q: Pair, w: Value)
    requires c.Valid() && c.HasPair(p) && c.HasPair(q) && c.dest.objects[p.1].StructNode?
    requires c.dest.NodeOk(c.dest.objects[p.1])
    requires i < |c.dest.objects[p.1].fields| && c.dest.At(c.dest.objects[p.1].fields[i].1) == q.1
    requires Prop(v, c.dest.objects[p.1].fields[i].0) == w
    requires forall f: nat :: IsCompatible(f, w, c.dest, q.1) != Yes
    ensures forall f: nat :: IsCompatible(f, v, c.dest, p.1) != Yes
  {
    forall f: nat ensures IsCompatible(f, v, c.dest, p.1) != Yes {
      if f > 0 {
        assert IsCompatible(f - 1, w, c.dest, q.1) != Yes;
        EveryFieldNotYes(f - 1, v, c.dest, c.dest.objects[p.1].fields, i);
      }
    }
  }

  /** A value of a tuple with another value at one place. */
  lemma TupleWith(origin: Types, o: nat, n: nat, v: Value, at: nat, m: nat, w: Value)
    requires origin.Valid() && o < |origin.objects| && origin.objects[o].TupleNode? && origin.NodeOk(origin.objects[o])
    requires Inhabits(n, v, origin, o) && at < |origin.objects[o].items|
    requires Inhabits(m, w, origin, origin.At(origin.objects[o].items[at]))
    ensures at < |v.items| && Inhabits(Max(m, n) + 1, VArr(v.items[at := w]), origin, o)
  {
    var oItems := origin.objects[o].items;
    var items := v.items[at := w];
    forall j | 0 <= j < |oItems| ensures Inhabits(Max(m, n), items[j], origin, origin.At(oItems[j])) {
      InhabitsMore(if j == at then m else n - 1, Max(m, n), items[j], origin, origin.At(oItems[j]));
    }
  }

  lemma RefuseTuple(c: Chains, p: Pair, i: nat, q: Pair, m: nat, w: Value) returns (m': nat, v: Value)
    requires Descending(c, p, i, q, m, w)
    requires c.dest.objects[p.1].TupleNode? && c.origin.objects[p.0].TupleNode?
    ensures Refused(c, m', v, p)
  {
    var oItems, dItems := c.origin.objects[p.0].items, c.dest.objects[p.1].items;
    var at: int := i - 1;
    assert c.PlanOf(p).items[0] == Known(CompareArrayLengths(|oItems|, |dItems|));
    assert i > 0 && c.PlanOf(p).items[i] == c.TupleItem(oItems, dItems[at], at);
    var n, v0 :| Inhabits(n, v0, c.origin, p.0);
    TupleWith(c.origin, p.0, n, v0, at, m, w);
    m', v := Max(m, n) + 1, VArr(v0.items[at := w]);
    hide c.Largest, c.PlanOf, Inhabits;
    RefuseItem(c, p, at, v, q, w);
  }

  lemma RefuseItem(c: Chains, p: Pair, at: nat, v: Value, q: Pair, w: Value)
    requires c.Valid() && c.HasPair(p) && c.HasPair(q) && c.dest.objects[p.1].TupleNode?
             && c.dest.NodeOk(c.dest.objects[p.1])
    requires at < |c.dest.objects[p.1].items| && c.dest.At(c.dest.objects[p.1].items[at]) == q.1
    requires v.VArr? && at < |v.items| && v.items[at] == w
    requires forall f: nat :: IsCompatible(f, w, c.dest, q.1) != Yes
    ensures forall f: nat :: IsCompatible(f, v, c.dest, p.1) != Yes
  {
    forall f: nat ensures IsCompatible(f, v, c.dest, p.1) != Yes {
      if f > 0 {
        assert IsCompatible(f - 1, w, c.dest, q.1) != Yes;
        EveryIndexNotYes(f - 1, v, c.dest, c.dest.objects[p.1].items, 0, at);
      }
    }
  }

  lemma RefuseResult(c: Chains, p: Pair, i: nat, q: Pair, m: nat, w: Value) returns (v: Value)
    requires Descending(c, p, i, q, m, w)
    requires c.dest.objects[p.1].ResultNode? && c.origin.objects[p.0].ResultNode?
    ensures Refused(c, m + 1, v, p)
  {
    hide c.Largest;
    v := VObj(map["success" := VBool(i == 0), "value" := w]);
    forall f: nat ensures IsCompatible(f, v, c.dest, p.1) != Yes {
      assert f > 0 ==> IsCompatible(f - 1, w, c.dest, q.1) != Yes;
    }
  }

  lemma RefuseStep(c: Chains, p: Pair, q: Pair, m: nat, w: Value) returns (m': nat, v: Value)
    requires c.Valid()
    requires p in c.Largest(BACKWARDS_COMPATIBLE, {}) && Follows(c, p, q) && HasValue(c.origin, p.0)
    requires Refused(c, m, w, q)
    ensures Refused(c, m', v, p)
  {
    var i := FindDescent(c, p, q, m, w);
    m', v := RefuseDescent(c, p, i, q, m, w);
  }

  ghost predicate KindsMatch(c: Chains, p: Pair)
    requires c.Valid() && c.HasPair(p)
  {
    var o := c.origin.objects[p.0];
    match c.dest.objects[p.1]
    case OptionNode(_) => true
    case ArrayNode(_, _) => o.ArrayNode?
    case EnumNode(_) => o.EnumNode?
    case StructNode(_) => o.StructNode?
    case TupleNode(_) => o.TupleNode?
    case ResultNode(_, _) => o.ResultNode?
    case _ => false
  }

  lemma FindDescent(c: Chains, p: Pair, q: Pair, m: nat, w: Value) returns (i: nat)
    requires c.Valid()
    requires p in c.Largest(BACKWARDS_COMPATIBLE, {}) && Follows(c, p, q) && HasValue(c.origin, p.0)
    requires Refused(c, m, w, q)
    ensures Descending(c, p, i, q, m, w) && KindsMatch(c, p)
  {
    var x := c.Largest(BACKWARDS_COMPATIBLE, {});
    LargestSupported(c, BACKWARDS_COMPATIBLE, {});
    SupportedPlan(c, BACKWARDS_COMPATIBLE, x, {}, p);
    KindsAgree(c, x, p);
    i :| 0 <= i < |PlanItems(c.PlanOf(p))| && ComparedAs(c, p, i, q);
    hide c.Largest, c.PlanOf, c.SatPlan, Refused, Follows;
    assert c.origin.NodeOk(c.origin.objects[p.0]) && c.dest.NodeOk(c.dest.objects[p.1]);
  }

  lemma RefuseDescent(c: Chains, p: Pair, i: nat, q: Pair, m: nat, w: Value) returns (m': nat, v: Value)
    requires c.Valid() && c.HasPair(p) && c.HasPair(q) && Descending(c, p, i, q, m, w) && KindsMatch(c, p)
    ensures Refused(c, m', v, p)
  {
    hide Descending, Refused;
    match c.dest.objects[p.1]
    case OptionNode(_) => m', v := m + 1, w; RefuseOption(c, p, i, q, m, w);
    case ArrayNode(_, _) => m' := m + 1; v := RefuseArray(c, p, i, q, m, w);
    case EnumNode(_) => m' := m + 1; v := RefuseEnum(c, p, i, q, m, w);
    case StructNode(_) => m', v := RefuseStruct(c, p, i, q, m, w);
    case TupleNode(_) => m', v := RefuseTuple(c, p, i, q, m, w);
    case ResultNode(_, _) => m' := m + 1; v := RefuseResult(c, p, i, q, m, w);
    case _ => assert false;
  }

  /** Binary data of `size` zero bytes. */
  function Zeros(size: nat): (v: Value)
    ensures IsBinary(v, Some(size))
  {
    VStr("0x" + seq(2 * size, _ => '0'))
  }

  lemma RefuseSized(c: Chains, p: Pair)
    requires c.Valid() && c.HasPair(p) && SizedToUnsized(c.origin.objects[p.0], c.dest.objects[p.1])
    ensures Refused(c, 1, Zeros(c.origin.objects[p.0].size.value), p)
  {
    hide IsBinary;
    var v := Zeros(c.origin.objects[p.0].size.value);
    assert Inhabits(1, v, c.origin, p.0);
  }

  lemma FloorIsPartial(c: Chains, p: Pair)
    requires c.Valid() && c.HasPair(p)
    ensures c.PlanOf(p).AtLeast? ==> c.PlanOf(p).floor == PARTIAL
  {
  }

  lemma FollowsInside(c: Chains, p: Pair, q: Pair)
    requires c.Valid() && p in c.Largest(BACKWARDS_COMPATIBLE, {}) && Follows(c, p, q)
    ensures q in c.Largest(BACKWARDS_COMPATIBLE, {}) && c.HasPair(q)
  {
    var x := c.Largest(BACKWARDS_COMPATIBLE, {});
    LargestSupported(c, BACKWARDS_COMPATIBLE, {});
    SupportedPlan(c, BACKWARDS_COMPATIBLE, x, {}, p);
    FloorIsPartial(c, p);
    hide c.PlanOf, c.Largest;
    var plan := c.PlanOf(p);
    var i :| 0 <= i < |PlanItems(plan)| && ComparedAs(c, p, i, q);
    assert c.SatItem(BACKWARDS_COMPATIBLE, x, PlanItems(plan)[i]);
    assert q == (q.0, q.1);
  }

  lemma {:induction false} RefuseFar(c: Chains, k: nat, p: Pair, q: Pair) returns (m: nat, v: Value)
    requires c.Valid()
    requires p in c.Largest(BACKWARDS_COMPATIBLE, {}) && c.HasPair(p) && c.HasPair(q)
    requires ReachedIn(c, k, p, q) && SizedToUnsized(c.origin.objects[q.0], c.dest.objects[q.1])
    ensures Refused(c, m, v, p)
  {
    hide Refused, Follows, c.Largest, c.PlanOf, Zeros;
    if k == 0 {
      RefuseSized(c, p);
      m, v := 1, Zeros(c.origin.objects[p.0].size.value);
    } else {
      var r: Pair :| Follows(c, p, r) && ReachedIn(c, k - 1, r, q);
      hide ReachedIn;
      FollowsInside(c, p, r);
      var w;
      m, w := RefuseFar(c, k - 1, r, q);
      m, v := RefuseStep(c, p, r, m, w);
    }
  }

  /**
   * Level BackwardsCompatible means that every value is accepted exactly if no value comes to a sized
   * binary offered for an unsized one.
   */
  lemma AcceptsExactlyIfBinariesAgree(c: Chains, p: Pair)
    requires c.Valid() && c.HasPair(p) && NoOptionCycle(c.dest)
    requires c.Greatest(p) >= BACKWARDS_COMPATIBLE
    ensures AllAccepted(c, p) <==> BinariesAgree(c, p)
  {
    hide Inhabits, IsCompatible, NoOptionCycle, c.Holds, c.PlanOf;
    if BinariesAgree(c, p) {
      BackwardsCompatibleAccepts(c, p);
    } else {
      var k: nat, q: Pair :|
        ReachedIn(c, k, p, q) && c.HasPair(q) && SizedToUnsized(c.origin.objects[q.0], c.dest.objects[q.1]);
      GreatestAtLeast(c, BACKWARDS_COMPATIBLE, p);
      assert p == (p.0, p.1) && p in c.AllPairs();
      var m, v := RefuseFar(c, k, p, q);
      assert Inhabits(m, v, c.origin, p.0) && !Accepted(v, c.dest, p.1);
    }
  }

  /** The two checks differ: a sized binary is statically compatible with an unsized one, but its values are refused. */
  lemma SizedBinaryIsRefused()
    ensures var c := Chains(Types([BinaryNode(Some(32))], []), Types([BinaryNode(None)], []));
            && c.Valid() && c.Greatest((0, 0)) == BACKWARDS_COMPATIBLE
            && Inhabits(1, Zeros(32), c.origin, 0)
            && !Accepted(Zeros(32), c.dest, 0)
  {
    var c := Chains(Types([BinaryNode(Some(32))], []), Types([BinaryNode(None)], []));
    assert c.PlanOf((0, 0)) == Fixed(BACKWARDS_COMPATIBLE);
    SupportedHolds(c, BACKWARDS_COMPATIBLE, {(0, 0)}, {}, (0, 0));
    HoldsIffPlan(c, IDENTICAL, (0, 0));
  }
}
