/** The values that pass the run-time check: those that are of the type once what it does not name is cut off. */
module TrimmedValues {
  import opened Basics
  import opened TypeDefs
  import opened ComparableTypes
  import opened ValueCompatible

  // ------------------------------------------------------------------ terminal types

  /** What JavaScript's `typeof` says, null and undefined aside. */
  function TypeOf(v: Value): string {
    match v
    case VBool(_) => "boolean"
    case VNum(_) => "number"
    case VBig(_) => "bigint"
    case VStr(_) => "string"
    case _ => "object"
  }

  /** The names that the type definitions give the terminal types. */
  function NameOf(prim: Primitive): string {
    match prim
    case PBool => "boolean"
    case PStr => "string"
    case PNum => "number"
    case PBig => "bigint"
    case PBits => "bitseq"
    case PVoid => "void"
  }

  predicate IsBits(v: Value) {
    && v.VObj? && "bitsLen" in v.props && TypeOf(v.props["bitsLen"]) == "number"
    && "bytes" in v.props && v.props["bytes"].VBytes?
  }

  /** Void takes anything, a bit sequence is a length with bytes, and the rest are told apart by their names. */
  ghost predicate OfTerminal(v: Value, prim: Primitive) {
    NameOf(prim) == "void" || (NameOf(prim) == "bitseq" && IsBits(v)) || NameOf(prim) == TypeOf(v)
  }

  lemma TerminalKinds(v: Value, prim: Primitive)
    ensures TerminalAccepts(v, prim) <==> OfTerminal(v, prim)
  {
    assert "bitseq"[0] == 'b' && "bitseq"[1] == 'i' && "void"[0] == 'v' && "object"[0] == 'o';
    assert "boolean"[1] == 'o' && "number"[0] == 'n' && "string"[0] == 's' && |"bigint"| == 6 && "bigint"[2] == 'g';
    assert "bitseq"[2] == 't' && "boolean"[0] == 'b' && "bigint"[1] == 'i';
  }

  /** Bytes, or for a fixed size some text that starts like a hexadecimal one. */
  ghost predicate OfBinary(v: Value, size: Option<nat>) {
    if size.None? then exists bytes :: v == VBytes(bytes) else exists digits :: v == VStr("0x" + digits)
  }

  lemma BinaryKinds(v: Value, size: Option<nat>)
    ensures BinaryAccepts(v, size) <==> OfBinary(v, size)
  {
    if size.Some? && v.VStr? && "0x" <= v.s {
      assert v.s == "0x" + v.s[2..];
      assert v == VStr("0x" + v.s[2..]);
    }
  }

  // ------------------------------------------------------------- values of a type

  /** `v` is of type `d`, seen to depth `n`: all its parts are, and none is missing or to spare. */
  ghost predicate IsOf(n: nat, v: Value, dest: Types, d: nat)
    requires dest.Valid() && d < |dest.objects|
    decreases n
  {
    n > 0 &&
    (assert dest.NodeOk(dest.objects[d]);
     match dest.objects[d]
     case TerminalNode(prim) => OfTerminal(v, prim)
     case BinaryNode(size) => OfBinary(v, size)
     case ArrayNode(typeRef, length) =>
       && v.VArr? && (length.Some? ==> |v.items| == length.value)
       && (forall i :: 0 <= i < |v.items| ==> IsOf(n - 1, v.items[i], dest, dest.lookup[typeRef]))
     case EnumNode(variants) =>
       && v.VObj? && v.props.Keys == {"type", "value"} && v.props["type"].VStr?
       && IsNamed(variants, v.props["type"].s)
       && (forall j: nat :: j < |variants| && IsLast(variants, v.props["type"].s, j) ==>
             IsOf(n - 1, v.props["value"], dest, dest.Resolve(variants[j].1)))
     case OptionNode(value) => v == VNull || IsOf(n - 1, v, dest, dest.lookup[value])
     case StructNode(fields) =>
       && v.VObj? && (forall name :: name in v.props <==> IsNamed(fields, name))
       && (forall i: nat :: i < |fields| && IsLast(fields, fields[i].0, i) && fields[i].0 in v.props ==>
             IsOf(n - 1, v.props[fields[i].0], dest, dest.lookup[fields[i].1]))
     case TupleNode(items) =>
       && v.VArr? && |v.items| == |items|
       && (forall i :: 0 <= i < |items| ==> IsOf(n - 1, v.items[i], dest, dest.lookup[items[i]]))
     case ResultNode(ok, ko) =>
       && v.VObj? && v.props.Keys == {"success", "value"}
       && (v.props["success"] == VBool(true) || v.props["success"] == VBool(false))
       && IsOf(n - 1, v.props["value"], dest, dest.lookup[if v.props["success"] == VBool(true) then ok else ko]))
  }

  // ---------------------------------------------------------- what the type names

  ghost predicate Falsy(v: Value) {
    v in {VNull, VBool(false), VNum(0), VBig(0), VStr("")}
  }

  /** `w` is what type `d` names of `v`, seen to depth `n`. */
  ghost predicate Trimmed(n: nat, v: Value, w: Value, dest: Types, d: nat)
    requires dest.Valid() && d < |dest.objects|
    decreases n
  {
    n > 0 &&
    (assert dest.NodeOk(dest.objects[d]);
     match dest.objects[d]
     case TerminalNode(_) => w == v
     case BinaryNode(_) => w == v
     case ArrayNode(typeRef, length) =>
       && v.VArr? && w.VArr? && |w.items| <= |v.items| && (length.None? ==> |w.items| == |v.items|)
       && (forall i :: 0 <= i < |w.items| ==> Trimmed(n - 1, v.items[i], w.items[i], dest, dest.lookup[typeRef]))
     case EnumNode(variants) =>
       && !Falsy(v) && w.VObj? && w.props.Keys == {"type", "value"}
       && w.props["type"].VStr? && w.props["type"] == Prop(v, "type")
       && (forall j: nat :: j < |variants| && IsLast(variants, w.props["type"].s, j) ==>
             Trimmed(n - 1, Prop(v, "value"), w.props["value"], dest, dest.Resolve(variants[j].1)))
     case OptionNode(value) =>
       if v == VNull then w == VNull else Trimmed(n - 1, v, w, dest, dest.lookup[value])
     case StructNode(fields) =>
       && !Falsy(v) && w.VObj?
       && (forall i: nat :: i < |fields| && IsLast(fields, fields[i].0, i) && fields[i].0 in w.props ==>
             Trimmed(n - 1, Prop(v, fields[i].0), w.props[fields[i].0], dest, dest.lookup[fields[i].1]))
     case TupleNode(items) =>
       && !Falsy(v) && w.VArr? && |w.items| == |items|
       && (forall i :: 0 <= i < |items| ==> Trimmed(n - 1, Index(v, i), w.items[i], dest, dest.lookup[items[i]]))
     case ResultNode(ok, ko) =>
       && v.VObj? && v.props.Keys >= {"success", "value"} && w.VObj? && w.props.Keys == {"success", "value"}
       && w.props["success"] == VBool(!Falsy(v.props["success"]))
       && Trimmed(n - 1, v.props["value"], w.props["value"], dest,
                  dest.lookup[if !Falsy(v.props["success"]) then ok else ko]))
  }

  // ------------------------------------------------------------- what passes is trimmed

  ghost function Names(fields: seq<(string, nat)>): (names: set<string>)
    ensures forall name :: name in names <==> IsNamed(fields, name)
  {
    set f | f in fields :: f.0
  }

  /** What type `d` names of a value that passes. */
  ghost function Trim(n: nat, v: Value, dest: Types, d: nat): (w: Value)
    requires dest.Valid() && d < |dest.objects|
    decreases n
  {
    if n == 0 then v
    else
      assert dest.NodeOk(dest.objects[d]);
      match dest.objects[d]
      case TerminalNode(_) => v
      case BinaryNode(_) => v
      case ArrayNode(typeRef, length) =>
        if !v.VArr? || (length.Some? && |v.items| < length.value) then v
        else
          var count := if length.Some? then length.value else |v.items|;
          VArr(seq(count, i requires 0 <= i < count => Trim(n - 1, v.items[i], dest, dest.At(typeRef))))
      case EnumNode(variants) =>
        var tag := Prop(v, "type");
        if !tag.VStr? || LastOf(variants, tag.s).None? then v
        else
          var payload := dest.Resolve(LastOf(variants, tag.s).value);
          VObj(map["type" := tag, "value" := Trim(n - 1, Prop(v, "value"), dest, payload)])
      case OptionNode(value) => if v.VNull? then v else Trim(n - 1, v, dest, dest.At(value))
      case StructNode(fields) =>
        VObj(map name | name in Names(fields) && LastOf(fields, name).Some? ::
               Trim(n - 1, Prop(v, name), dest, dest.At(LastOf(fields, name).value)))
      case TupleNode(items) =>
        VArr(seq(|items|, i requires 0 <= i < |items| => Trim(n - 1, Index(v, i), dest, dest.At(items[i]))))
      case ResultNode(ok, ko) =>
        if !v.VObj? || "success" !in v.props || "value" !in v.props then v
        else
          var side := dest.At(if Truthy(v.props["success"]) then ok else ko);
          VObj(map["success" := VBool(Truthy(v.props["success"])),
                   "value" := Trim(n - 1, v.props["value"], dest, side)])
  }

  /** The value passes, and what is left of it is of the type. */
  ghost predicate TrimsWell(n: nat, v: Value, dest: Types, d: nat)
    requires dest.Valid() && d < |dest.objects|
  {
    Trimmed(n, v, Trim(n, v, dest, d), dest, d) && IsOf(n, Trim(n, v, dest, d), dest, d)
  }

  lemma {:induction false} EveryItemNotYes(fuel: nat, items: seq<Value>, dest: Types, d: nat, i: nat)
    requires dest.Valid() && d < |dest.objects|
    requires i < |items| && IsCompatible(fuel, items[i], dest, d) != Yes
    ensures EveryItem(fuel, items, dest, d) != Yes
  {
    hide IsCompatible;
    if i > 0 {
      EveryItemNotYes(fuel, items[1..], dest, d, i - 1);
    }
  }

  lemma PassingTrims(n: nat, v: Value, dest: Types, d: nat)
    requires dest.Valid() && d < |dest.objects| && IsCompatible(n, v, dest, d) == Yes
    ensures TrimsWell(n, v, dest, d)
    decreases n, 2
  {
    hide IsCompatible, TrimsWell, Types.NodeOk;
    match dest.objects[d]
    case ArrayNode(_, _) => ArrayTrims(n, v, dest, d);
    case EnumNode(_) => EnumTrims(n, v, dest, d);
    case OptionNode(_) => OptionTrims(n, v, dest, d);
    case StructNode(_) => StructTrims(n, v, dest, d);
    case TupleNode(_) => TupleTrims(n, v, dest, d);
    case ResultNode(_, _) => ResultTrims(n, v, dest, d);
    case _ => LeafTrims(n, v, dest, d);
  }

  lemma LeafTrims(n: nat, v: Value, dest: Types, d: nat)
    requires dest.Valid() && d < |dest.objects| && IsCompatible(n, v, dest, d) == Yes
    requires dest.objects[d].TerminalNode? || dest.objects[d].BinaryNode?
    ensures TrimsWell(n, v, dest, d)
  {
    if dest.objects[d].TerminalNode? {
      TerminalKinds(v, dest.objects[d].prim);
    } else {
      BinaryKinds(v, dest.objects[d].size);
    }
  }

  lemma OptionTrims(n: nat, v: Value, dest: Types, d: nat)
    requires dest.Valid() && d < |dest.objects| && IsCompatible(n, v, dest, d) == Yes
    requires dest.objects[d].OptionNode?
    ensures TrimsWell(n, v, dest, d)
    decreases n, 0
  {
    assert dest.NodeOk(dest.objects[d]);
    if !v.VNull? {
      PassingTrims(n - 1, v, dest, dest.At(dest.objects[d].value));
    }
  }

  lemma ArrayTrims(n: nat, v: Value, dest: Types, d: nat)
    requires dest.Valid() && d < |dest.objects| && IsCompatible(n, v, dest, d) == Yes
    requires dest.objects[d].ArrayNode?
    ensures TrimsWell(n, v, dest, d)
    decreases n, 0
  {
    assert dest.NodeOk(dest.objects[d]);
    var length := dest.objects[d].length;
    var items := if length.Some? then v.items[..length.value] else v.items;
    var obj := dest.At(dest.objects[d].typeRef);
    var w := Trim(n, v, dest, d);
    forall i | 0 <= i < |items|
      ensures Trimmed(n - 1, v.items[i], w.items[i], dest, obj) && IsOf(n - 1, w.items[i], dest, obj)
    {
      if IsCompatible(n - 1, items[i], dest, obj) != Yes {
        EveryItemNotYes(n - 1, items, dest, obj, i);
      } else {
        PassingTrims(n - 1, v.items[i], dest, obj);
      }
    }
  }

  /** How an enum value passes. */
  lemma EnumPasses(n: nat, v: Value, dest: Types, d: nat) returns (payload: nat)
    requires dest.Valid() && d < |dest.objects| && IsCompatible(n, v, dest, d) == Yes
    requires dest.objects[d].EnumNode?
    ensures n > 0 && Truthy(v) && Prop(v, "type").VStr?
    ensures payload < |dest.objects| && IsCompatible(n - 1, Prop(v, "value"), dest, payload) == Yes
    ensures Chosen(dest, dest.objects[d].variants, Prop(v, "type").s, payload)
    ensures Trim(n, v, dest, d)
         == VObj(map["type" := Prop(v, "type"), "value" := Trim(n - 1, Prop(v, "value"), dest, payload)])
  {
    assert dest.NodeOk(dest.objects[d]);
    var variants := dest.objects[d].variants;
    var tag := Prop(v, "type").s;
    LastIsOne(variants, tag);
    payload := dest.Resolve(LastOf(variants, tag).value);
  }

  /** `tag` is the name of a variant, whose payload is `obj`. */
  ghost predicate Chosen(dest: Types, variants: seq<(string, Payload)>, tag: string, obj: nat) {
    && IsNamed(variants, tag)
    && forall j: nat :: j < |variants| && IsLast(variants, tag, j) ==>
         dest.HasPayload(variants[j].1) && dest.Resolve(variants[j].1) == obj
  }

  lemma EnumTrims(n: nat, v: Value, dest: Types, d: nat)
    requires dest.Valid() && d < |dest.objects| && IsCompatible(n, v, dest, d) == Yes
    requires dest.objects[d].EnumNode?
    ensures TrimsWell(n, v, dest, d)
    decreases n, 0
  {
    hide Trim, IsCompatible, IsOf, Trimmed, Chosen, Types.NodeOk;
    var payload := EnumPasses(n, v, dest, d);
    PassingTrims(n - 1, Prop(v, "value"), dest, payload);
    var x := Trim(n - 1, Prop(v, "value"), dest, payload);
    EnumIsOf(n, x, dest, d, Prop(v, "type").s, payload);
    EnumTrimmed(n, v, x, dest, d, payload);
  }

  lemma EnumIsOf(n: nat, x: Value, dest: Types, d: nat, tag: string, payload: nat)
    requires dest.Valid() && d < |dest.objects| && dest.objects[d].EnumNode? && n > 0
    requires payload < |dest.objects| && Chosen(dest, dest.objects[d].variants, tag, payload)
    requires IsOf(n - 1, x, dest, payload)
    ensures IsOf(n, VObj(map["type" := VStr(tag), "value" := x]), dest, d)
  {
    assert dest.NodeOk(dest.objects[d]) && "type"[0] != "value"[0];
  }

  lemma EnumTrimmed(n: nat, v: Value, x: Value, dest: Types, d: nat, payload: nat)
    requires dest.Valid() && d < |dest.objects| && dest.objects[d].EnumNode? && n > 0
    requires Truthy(v) && Prop(v, "type").VStr? && payload < |dest.objects|
    requires Chosen(dest, dest.objects[d].variants, Prop(v, "type").s, payload)
    requires Trimmed(n - 1, Prop(v, "value"), x, dest, payload)
    ensures Trimmed(n, v, VObj(map["type" := Prop(v, "type"), "value" := x]), dest, d)
  {
    assert dest.NodeOk(dest.objects[d]) && "type"[0] != "value"[0];
  }

  /** What is left of the last field with a name. */
  ghost predicate FieldLeft(n: nat, v: Value, w: Value, dest: Types, name: string, id: nat)
    requires dest.Valid() && dest.Has(id)
  {
    && w.VObj? && name in w.props
    && Trimmed(n, Prop(v, name), w.props[name], dest, dest.At(id)) && IsOf(n, w.props[name], dest, dest.At(id))
  }

  lemma TrimOfStruct(n: nat, v: Value, dest: Types, d: nat, i: nat)
    requires dest.Valid() && d < |dest.objects| && dest.objects[d].StructNode? && n > 0
    requires var fields := dest.objects[d].fields; i < |fields| && IsLast(fields, fields[i].0, i)
    ensures var (name, id) := dest.objects[d].fields[i];
      var w := Trim(n, v, dest, d);
      dest.Has(id) && w.VObj? && name in w.props && w.props[name] == Trim(n - 1, Prop(v, name), dest, dest.At(id))
  {
    assert dest.NodeOk(dest.objects[d]);
    LastIsOne(dest.objects[d].fields, dest.objects[d].fields[i].0);
  }

  lemma NamesOfStruct(n: nat, v: Value, dest: Types, d: nat)
    requires dest.Valid() && d < |dest.objects| && dest.objects[d].StructNode? && n > 0
    ensures var w := Trim(n, v, dest, d);
      w.VObj? && forall name :: name in w.props <==> IsNamed(dest.objects[d].fields, name)
  {
    assert dest.NodeOk(dest.objects[d]);
    forall name ensures LastOf(dest.objects[d].fields, name).Some? <==> IsNamed(dest.objects[d].fields, name) {
      LastIsOne(dest.objects[d].fields, name);
    }
  }

  lemma StructLeft(n: nat, v: Value, w: Value, dest: Types, d: nat)
    requires dest.Valid() && d < |dest.objects| && dest.objects[d].StructNode? && n > 0 && Truthy(v)
    requires dest.NodeOk(dest.objects[d])
    requires w.VObj? && forall name :: name in w.props <==> IsNamed(dest.objects[d].fields, name)
    requires var fields := dest.objects[d].fields;
      forall i: nat :: i < |fields| && IsLast(fields, fields[i].0, i) ==>
        FieldLeft(n - 1, v, w, dest, fields[i].0, fields[i].1)
    ensures Trimmed(n, v, w, dest, d) && IsOf(n, w, dest, d)
  {
  }

  lemma FieldTrims(n: nat, v: Value, dest: Types, d: nat, i: nat)
    requires dest.Valid() && d < |dest.objects| && IsCompatible(n, v, dest, d) == Yes
    requires dest.objects[d].StructNode? && dest.NodeOk(dest.objects[d])
    requires var fields := dest.objects[d].fields; i < |fields| && IsLast(fields, fields[i].0, i)
    ensures n > 0
    ensures var (name, id) := dest.objects[d].fields[i]; FieldLeft(n - 1, v, Trim(n, v, dest, d), dest, name, id)
    decreases n, 0
  {
    hide IsCompatible, Trim, Trimmed, IsOf;
    FieldPasses(n, v, dest, d, i);
    TrimOfStruct(n, v, dest, d, i);
    var (name, id) := dest.objects[d].fields[i];
    PassingTrims(n - 1, Prop(v, name), dest, dest.At(id));
  }

  lemma StructTrims(n: nat, v: Value, dest: Types, d: nat)
    requires dest.Valid() && d < |dest.objects| && IsCompatible(n, v, dest, d) == Yes
    requires dest.objects[d].StructNode?
    ensures TrimsWell(n, v, dest, d)
    decreases n, 1
  {
    assert dest.NodeOk(dest.objects[d]) && n > 0 && Truthy(v);
    hide IsCompatible, Trim, Trimmed, IsOf, IsLast, IsNamed, FieldLeft;
    var fields := dest.objects[d].fields;
    NamesOfStruct(n, v, dest, d);
    forall i: nat | i < |fields| && IsLast(fields, fields[i].0, i)
      ensures FieldLeft(n - 1, v, Trim(n, v, dest, d), dest, fields[i].0, fields[i].1)
    {
      FieldTrims(n, v, dest, d, i);
    }
    StructLeft(n, v, Trim(n, v, dest, d), dest, d);
  }

  lemma FieldPasses(n: nat, v: Value, dest: Types, d: nat, i: nat)
    requires dest.Valid() && d < |dest.objects| && IsCompatible(n, v, dest, d) == Yes
    requires dest.objects[d].StructNode? && i < |dest.objects[d].fields|
    ensures n > 0 && Truthy(v) && dest.NodeOk(dest.objects[d])
    ensures var (name, id) := dest.objects[d].fields[i]; IsCompatible(n - 1, Prop(v, name), dest, dest.At(id)) == Yes
  {
    assert dest.NodeOk(dest.objects[d]);
    var fields := dest.objects[d].fields;
    if IsCompatible(n - 1, Prop(v, fields[i].0), dest, dest.At(fields[i].1)) != Yes {
      EveryFieldNotYes(n - 1, v, dest, fields, i);
    }
  }

  lemma TupleTrims(n: nat, v: Value, dest: Types, d: nat)
    requires dest.Valid() && d < |dest.objects| && IsCompatible(n, v, dest, d) == Yes
    requires dest.objects[d].TupleNode?
    ensures TrimsWell(n, v, dest, d)
    decreases n, 0
  {
    assert dest.NodeOk(dest.objects[d]);
    var items := dest.objects[d].items;
    var w := Trim(n, v, dest, d);
    forall i | 0 <= i < |items|
      ensures Trimmed(n - 1, Index(v, i), w.items[i], dest, dest.At(items[i]))
      ensures IsOf(n - 1, w.items[i], dest, dest.At(items[i]))
    {
      if IsCompatible(n - 1, Index(v, i), dest, dest.At(items[i])) != Yes {
        EveryIndexNotYes(n - 1, v, dest, items, 0, i);
      } else {
        PassingTrims(n - 1, Index(v, i), dest, dest.At(items[i]));
      }
    }
  }

  /** How the value of a result passes. */
  lemma ResultPasses(n: nat, v: Value, dest: Types, d: nat) returns (side: nat)
    requires dest.Valid() && d < |dest.objects| && IsCompatible(n, v, dest, d) == Yes
    requires dest.objects[d].ResultNode?
    ensures n > 0 && v.VObj? && "success" in v.props && "value" in v.props && IsSide(dest, d, v.props["success"], side)
    ensures side < |dest.objects| && IsCompatible(n - 1, v.props["value"], dest, side) == Yes
    ensures Trim(n, v, dest, d) == VObj(map["success" := VBool(Truthy(v.props["success"])),
                                            "value" := Trim(n - 1, v.props["value"], dest, side)])
  {
    assert dest.NodeOk(dest.objects[d]);
    var node := dest.objects[d];
    side := dest.At(if Truthy(v.props["success"]) then node.ok else node.ko);
  }

  /** `side` is the one of the result's types that a success or failure calls for. */
  ghost predicate IsSide(dest: Types, d: nat, success: Value, side: nat)
    requires d < |dest.objects| && dest.objects[d].ResultNode?
  {
    var id := if Truthy(success) then dest.objects[d].ok else dest.objects[d].ko;
    dest.Has(id) && side == dest.lookup[id]
  }

  lemma ResultIsOf(n: nat, success: Value, x: Value, dest: Types, d: nat, side: nat)
    requires dest.Valid() && d < |dest.objects| && dest.objects[d].ResultNode? && n > 0
    requires IsSide(dest, d, success, side) && side < |dest.objects| && IsOf(n - 1, x, dest, side)
    ensures IsOf(n, VObj(map["success" := VBool(Truthy(success)), "value" := x]), dest, d)
  {
    assert dest.NodeOk(dest.objects[d]) && "success"[0] != "value"[0];
  }

  lemma ResultTrimmed(n: nat, v: Value, x: Value, dest: Types, d: nat, side: nat)
    requires dest.Valid() && d < |dest.objects| && dest.objects[d].ResultNode? && n > 0
    requires v.VObj? && "success" in v.props && "value" in v.props && IsSide(dest, d, v.props["success"], side)
    requires side < |dest.objects| && Trimmed(n - 1, v.props["value"], x, dest, side)
    ensures Trimmed(n, v, VObj(map["success" := VBool(Truthy(v.props["success"])), "value" := x]), dest, d)
  {
    assert dest.NodeOk(dest.objects[d]) && "success"[0] != "value"[0];
  }

  lemma ResultTrims(n: nat, v: Value, dest: Types, d: nat)
    requires dest.Valid() && d < |dest.objects| && IsCompatible(n, v, dest, d) == Yes
    requires dest.objects[d].ResultNode?
    ensures TrimsWell(n, v, dest, d)
    decreases n, 0
  {
    hide Trim, IsCompatible, IsOf, Trimmed, IsSide, Types.NodeOk;
    var side := ResultPasses(n, v, dest, d);
    PassingTrims(n - 1, v.props["value"], dest, side);
    var x := Trim(n - 1, v.props["value"], dest, side);
    ResultIsOf(n, v.props["success"], x, dest, d, side);
    ResultTrimmed(n, v, x, dest, d, side);
  }

  // ------------------------------------------------------------- what is trimmed passes

  /** No struct declares a field twice. */
  ghost predicate DistinctFields(dest: Types) {
    forall d :: 0 <= d < |dest.objects| && dest.objects[d].StructNode? ==> DistinctKeys(dest.objects[d].fields)
  }

  lemma {:induction false} TrimmedPasses(n: nat, v: Value, w: Value, dest: Types, d: nat)
    requires dest.Valid() && d < |dest.objects|
    requires DistinctFields(dest)
    requires Trimmed(n, v, w, dest, d) && IsOf(n, w, dest, d)
    ensures IsCompatible(n, v, dest, d) == Yes
    decreases n, 2
  {
    assert dest.NodeOk(dest.objects[d]);
    match dest.objects[d]
    case TerminalNode(prim) => TerminalKinds(v, prim);
    case BinaryNode(size) => BinaryKinds(v, size);
    case ArrayNode(_, _) => TrimmedArrayPasses(n, v, w, dest, d);
    case EnumNode(_) => TrimmedEnumPasses(n, v, w, dest, d);
    case OptionNode(_) => TrimmedOptionPasses(n, v, w, dest, d);
    case StructNode(_) => TrimmedStructPasses(n, v, w, dest, d);
    case TupleNode(_) => TrimmedTuplePasses(n, v, w, dest, d);
    case ResultNode(_, _) => TrimmedResultPasses(n, v, w, dest, d);
  }

  lemma {:induction false} TrimmedOptionPasses(n: nat, v: Value, w: Value, dest: Types, d: nat)
    requires dest.Valid() && d < |dest.objects| && dest.objects[d].OptionNode?
    requires DistinctFields(dest)
    requires Trimmed(n, v, w, dest, d) && IsOf(n, w, dest, d)
    ensures IsCompatible(n, v, dest, d) == Yes
    decreases n, 0
  {
    assert dest.NodeOk(dest.objects[d]);
    if !v.VNull? {
      TrimmedNotNull(n, v, w, dest, d);
      TrimmedPasses(n - 1, v, w, dest, dest.At(dest.objects[d].value));
    }
  }

  lemma {:induction false} TrimmedResultPasses(n: nat, v: Value, w: Value, dest: Types, d: nat)
    requires dest.Valid() && d < |dest.objects| && dest.objects[d].ResultNode?
    requires DistinctFields(dest)
    requires Trimmed(n, v, w, dest, d) && IsOf(n, w, dest, d)
    ensures IsCompatible(n, v, dest, d) == Yes
    decreases n, 0
  {
    assert dest.NodeOk(dest.objects[d]);
    var node := dest.objects[d];
    TrimmedPasses(n - 1, v.props["value"], w.props["value"], dest,
                  dest.At(if Truthy(v.props["success"]) then node.ok else node.ko));
  }

  lemma {:induction false} TrimmedNotNull(n: nat, v: Value, w: Value, dest: Types, d: nat)
    requires dest.Valid() && d < |dest.objects|
    requires Trimmed(n, v, w, dest, d) && v != VNull
    ensures w != VNull
  {
    assert dest.NodeOk(dest.objects[d]);
    if dest.objects[d].OptionNode? {
      TrimmedNotNull(n - 1, v, w, dest, dest.At(dest.objects[d].value));
    }
  }

  lemma {:induction false} TrimmedArrayPasses(n: nat, v: Value, w: Value, dest: Types, d: nat)
    requires dest.Valid() && d < |dest.objects| && dest.objects[d].ArrayNode?
    requires DistinctFields(dest)
    requires Trimmed(n, v, w, dest, d) && IsOf(n, w, dest, d)
    ensures IsCompatible(n, v, dest, d) == Yes
    decreases n, 0
  {
    assert dest.NodeOk(dest.objects[d]);
    var length := dest.objects[d].length;
    var obj := dest.At(dest.objects[d].typeRef);
    var items := if length.Some? then v.items[..length.value] else v.items;
    forall i | 0 <= i < |items| ensures IsCompatible(n - 1, items[i], dest, obj) == Yes {
      TrimmedPasses(n - 1, v.items[i], w.items[i], dest, obj);
    }
    EveryItemYes(n - 1, items, dest, obj);
  }

  lemma {:induction false} TrimmedEnumPasses(n: nat, v: Value, w: Value, dest: Types, d: nat)
    requires dest.Valid() && d < |dest.objects| && dest.objects[d].EnumNode?
    requires DistinctFields(dest)
    requires Trimmed(n, v, w, dest, d) && IsOf(n, w, dest, d)
    ensures IsCompatible(n, v, dest, d) == Yes
    decreases n, 0
  {
    assert dest.NodeOk(dest.objects[d]);
    var tag := w.props["type"].s;
    var variants := dest.objects[d].variants;
    LastIsOne(variants, tag);
    var j: nat :| IsLast(variants, tag, j);
    EnumDecides(n, v, dest, d);
    hide IsCompatible;
    TrimmedPasses(n - 1, Prop(v, "value"), w.props["value"], dest, dest.Resolve(variants[j].1));
  }

  /** Of a field that is declared once, what is left is of its type. */
  lemma FieldIsLeft(n: nat, v: Value, w: Value, dest: Types, d: nat, i: nat)
    requires dest.Valid() && d < |dest.objects| && dest.objects[d].StructNode? && dest.NodeOk(dest.objects[d])
    requires DistinctFields(dest) && i < |dest.objects[d].fields|
    requires Trimmed(n, v, w, dest, d) && IsOf(n, w, dest, d)
    ensures n > 0 && Truthy(v)
    ensures var (name, id) := dest.objects[d].fields[i]; FieldLeft(n - 1, v, w, dest, name, id)
  {
    var fields := dest.objects[d].fields;
    assert DistinctKeys(fields);
    assert IsLast(fields, fields[i].0, i) && IsNamed(fields, fields[i].0);
  }

  lemma StructIsTruthy(n: nat, v: Value, w: Value, dest: Types, d: nat)
    requires dest.Valid() && d < |dest.objects| && dest.objects[d].StructNode?
    requires Trimmed(n, v, w, dest, d)
    ensures n > 0 && Truthy(v)
  {
  }

  lemma {:induction false} TrimmedFieldPasses(n: nat, v: Value, w: Value, dest: Types, d: nat, i: nat)
    requires dest.Valid() && d < |dest.objects| && dest.objects[d].StructNode? && dest.NodeOk(dest.objects[d])
    requires DistinctFields(dest) && i < |dest.objects[d].fields|
    requires Trimmed(n, v, w, dest, d) && IsOf(n, w, dest, d)
    ensures n > 0 && Truthy(v)
    ensures var (name, id) := dest.objects[d].fields[i]; IsCompatible(n - 1, Prop(v, name), dest, dest.At(id)) == Yes
    decreases n, 0
  {
    hide Trimmed, IsOf, DistinctFields, IsCompatible;
    FieldIsLeft(n, v, w, dest, d, i);
    var (name, id) := dest.objects[d].fields[i];
    TrimmedPasses(n - 1, Prop(v, name), w.props[name], dest, dest.At(id));
  }

  lemma {:induction false} TrimmedStructPasses(n: nat, v: Value, w: Value, dest: Types, d: nat)
    requires dest.Valid() && d < |dest.objects| && dest.objects[d].StructNode?
    requires DistinctFields(dest)
    requires Trimmed(n, v, w, dest, d) && IsOf(n, w, dest, d)
    ensures IsCompatible(n, v, dest, d) == Yes
    decreases n, 1
  {
    hide Trimmed, IsOf, DistinctFields;
    assert dest.NodeOk(dest.objects[d]);
    StructIsTruthy(n, v, w, dest, d);
    var fields := dest.objects[d].fields;
    forall i | 0 <= i < |fields|
      ensures IsCompatible(n - 1, Prop(v, fields[i].0), dest, dest.At(fields[i].1)) == Yes
    {
      hide *;
      TrimmedFieldPasses(n, v, w, dest, d, i);
    }
    EveryFieldYes(n - 1, v, dest, fields);
  }

  lemma {:induction false} TrimmedTuplePasses(n: nat, v: Value, w: Value, dest: Types, d: nat)
    requires dest.Valid() && d < |dest.objects| && dest.objects[d].TupleNode?
    requires DistinctFields(dest)
    requires Trimmed(n, v, w, dest, d) && IsOf(n, w, dest, d)
    ensures IsCompatible(n, v, dest, d) == Yes
    decreases n, 0
  {
    assert dest.NodeOk(dest.objects[d]);
    var items := dest.objects[d].items;
    forall i | 0 <= i < |items| ensures IsCompatible(n - 1, Index(v, i), dest, dest.At(items[i])) == Yes {
      TrimmedPasses(n - 1, Index(v, i), w.items[i], dest, dest.At(items[i]));
    }
    EveryIndexYes(n - 1, v, dest, items, 0);
  }

  /** `v` is a value of the type, apart from what the type does not name. */
  ghost predicate Contains(n: nat, v: Value, dest: Types, d: nat)
    requires dest.Valid() && d < |dest.objects|
  {
    exists w :: Trimmed(n, v, w, dest, d) && IsOf(n, w, dest, d)
  }

  /** What passes the check contains a value of the type. */
  lemma AcceptedContains(n: nat, v: Value, dest: Types, d: nat)
    requires dest.Valid() && d < |dest.objects| && IsCompatible(n, v, dest, d) == Yes
    ensures Contains(n, v, dest, d)
  {
    PassingTrims(n, v, dest, d);
  }

  /** Where no field is declared twice, it passes exactly if it does. */
  lemma AcceptedIffContains(v: Value, dest: Types, d: nat)
    requires dest.Valid() && d < |dest.objects|
    requires DistinctFields(dest)
    ensures Accepted(v, dest, d) <==> exists n :: Contains(n, v, dest, d)
  {
    hide IsCompatible, Trimmed, IsOf;
    if Accepted(v, dest, d) {
      var n :| IsCompatible(n, v, dest, d) == Yes;
      AcceptedContains(n, v, dest, d);
    }
    if n :| Contains(n, v, dest, d) {
      var w :| Trimmed(n, v, w, dest, d) && IsOf(n, w, dest, d);
      TrimmedPasses(n, v, w, dest, d);
    }
  }

  // ------------------------------------------------------- what passes and is no array

  ghost predicate IsTupleOf(dest: Types, d: nat, prim: Primitive, n: nat) {
    && d < |dest.objects| && dest.objects[d].TupleNode? && |dest.objects[d].items| == n
    && forall i :: 0 <= i < n ==> IsTerminal(dest, dest.objects[d].items[i], prim)
  }

  ghost predicate IsTerminal(dest: Types, id: nat, prim: Primitive) {
    dest.Has(id) && dest.objects[dest.At(id)] == TerminalNode(prim)
  }

  /** A text passes for a tuple of texts, and bytes for a tuple of numbers, if they are long enough. */
  lemma PassesForATuple(dest: Types, d: nat, n: nat, text: string, bytes: seq<int>)
    requires dest.Valid() && 0 < n <= |text| && n <= |bytes|
    ensures IsTupleOf(dest, d, PStr, n) ==> IsCompatible(2, VStr(text), dest, d) == Yes
    ensures IsTupleOf(dest, d, PNum, n) ==> IsCompatible(2, VBytes(bytes), dest, d) == Yes
  {
    if IsTupleOf(dest, d, PStr, n) {
      EveryIndexYes(1, VStr(text), dest, dest.objects[d].items, 0);
    } else if IsTupleOf(dest, d, PNum, n) {
      EveryIndexYes(1, VBytes(bytes), dest, dest.objects[d].items, 0);
    }
  }

  // -------------------------------------------------------------- how the check throws

  ghost predicate Passes(n: nat, v: Value, dest: Types, d: nat)
    requires dest.Valid() && d < |dest.objects|
  {
    IsCompatible(n, v, dest, d) == Yes
  }

  /** Before anything fails, the check asks for the keys of something that is no object, on behalf of a result. */
  ghost predicate Breaks(n: nat, v: Value, dest: Types, d: nat)
    requires dest.Valid() && d < |dest.objects|
    decreases n, 0
  {
    n > 0 &&
    (assert dest.NodeOk(dest.objects[d]);
     match dest.objects[d]
     case TerminalNode(_) => false
     case BinaryNode(_) => false
     case ArrayNode(typeRef, length) =>
       && v.VArr? && (length.Some? ==> |v.items| >= length.value)
       && SomeItemBreaks(n - 1, v.items, if length.Some? then length.value else |v.items|, dest, dest.lookup[typeRef])
     case EnumNode(variants) =>
       && !Falsy(v) && Prop(v, "type").VStr?
       && exists j: nat :: j < |variants| && IsLast(variants, Prop(v, "type").s, j)
            && Breaks(n - 1, Prop(v, "value"), dest, dest.Resolve(variants[j].1))
     case OptionNode(value) => v != VNull && Breaks(n - 1, v, dest, dest.lookup[value])
     case StructNode(fields) =>
       && !Falsy(v)
       && SomeFieldBreaks(n - 1, v, dest, fields)
     case TupleNode(items) =>
       && !Falsy(v)
       && SomeIndexBreaks(n - 1, v, dest, items)
     case ResultNode(ok, ko) =>
       || v == VNull || TypeOf(v) != "object"
       || (v.VObj? && v.props.Keys >= {"success", "value"}
           && Breaks(n - 1, v.props["value"], dest, dest.lookup[if Falsy(v.props["success"]) then ko else ok])))
  }

  /** The first item that does not pass breaks the check. */
  ghost predicate BreaksAtItem(n: nat, items: seq<Value>, dest: Types, d: nat, i: nat)
    requires dest.Valid() && d < |dest.objects|
    decreases n, 1
  {
    i < |items| && Breaks(n, items[i], dest, d) && forall j: nat :: j < i ==> Passes(n, items[j], dest, d)
  }

  ghost predicate BreaksAtField(n: nat, v: Value, dest: Types, fields: seq<(string, nat)>, i: nat)
    requires dest.Valid() && forall i :: 0 <= i < |fields| ==> dest.Has(fields[i].1)
    decreases n, 1
  {
    && i < |fields| && Breaks(n, Prop(v, fields[i].0), dest, dest.At(fields[i].1))
    && forall j: nat :: j < i ==> Passes(n, Prop(v, fields[j].0), dest, dest.At(fields[j].1))
  }

  ghost predicate BreaksAtIndex(n: nat, v: Value, dest: Types, items: seq<nat>, i: nat)
    requires dest.Valid() && forall i :: 0 <= i < |items| ==> dest.Has(items[i])
    decreases n, 1
  {
    && i < |items| && Breaks(n, Index(v, i), dest, dest.At(items[i]))
    && forall j: nat :: j < i ==> Passes(n, Index(v, j), dest, dest.At(items[j]))
  }

  ghost predicate SomeItemBreaks(n: nat, items: seq<Value>, count: nat, dest: Types, d: nat)
    requires dest.Valid() && d < |dest.objects|
    decreases n, 2
  {
    exists i: nat :: i < count && BreaksAtItem(n, items, dest, d, i)
  }

  ghost predicate SomeFieldBreaks(n: nat, v: Value, dest: Types, fields: seq<(string, nat)>)
    requires dest.Valid() && forall i :: 0 <= i < |fields| ==> dest.Has(fields[i].1)
    decreases n, 2
  {
    exists i: nat :: BreaksAtField(n, v, dest, fields, i)
  }

  ghost predicate SomeIndexBreaks(n: nat, v: Value, dest: Types, items: seq<nat>)
    requires dest.Valid() && forall i :: 0 <= i < |items| ==> dest.Has(items[i])
    decreases n, 2
  {
    exists i: nat :: BreaksAtIndex(n, v, dest, items, i)
  }

  ghost predicate ThrowsAtItem(n: nat, items: seq<Value>, dest: Types, d: nat, i: nat)
    requires dest.Valid() && d < |dest.objects|
  {
    && i < |items| && IsCompatible(n, items[i], dest, d) == Throws
    && forall j: nat :: j < i ==> Passes(n, items[j], dest, d)
  }

  lemma {:induction false} EveryItemThrows(n: nat, items: seq<Value>, dest: Types, d: nat)
    requires dest.Valid() && d < |dest.objects|
    ensures EveryItem(n, items, dest, d) == Throws <==> exists i: nat :: ThrowsAtItem(n, items, dest, d, i)
  {
    hide IsCompatible;
    if items != [] {
      var rest := items[1..];
      EveryItemThrows(n, rest, dest, d);
      if i: nat :| ThrowsAtItem(n, rest, dest, d, i) && Passes(n, items[0], dest, d) {
        assert forall j: nat :: 0 < j < |items| ==> items[j] == rest[j - 1];
        assert ThrowsAtItem(n, items, dest, d, i + 1);
      }
      if i: nat :| ThrowsAtItem(n, items, dest, d, i) {
        if i > 0 {
          assert Passes(n, items[0], dest, d);
          assert forall j: nat :: j < |rest| ==> rest[j] == items[j + 1];
          assert ThrowsAtItem(n, rest, dest, d, i - 1);
        }
      } else {
        assert !ThrowsAtItem(n, items, dest, d, 0);
      }
    }
  }

  ghost predicate ThrowsAtField(n: nat, v: Value, dest: Types, fields: seq<(string, nat)>, i: nat)
    requires dest.Valid() && forall i :: 0 <= i < |fields| ==> dest.Has(fields[i].1)
  {
    && i < |fields| && IsCompatible(n, Prop(v, fields[i].0), dest, dest.At(fields[i].1)) == Throws
    && forall j: nat :: j < i ==> Passes(n, Prop(v, fields[j].0), dest, dest.At(fields[j].1))
  }

  lemma {:induction false} EveryFieldThrows(n: nat, v: Value, dest: Types, fields: seq<(string, nat)>)
    requires dest.Valid() && forall i :: 0 <= i < |fields| ==> dest.Has(fields[i].1)
    ensures EveryField(n, v, dest, fields) == Throws <==> exists i: nat :: ThrowsAtField(n, v, dest, fields, i)
  {
    hide IsCompatible;
    if fields != [] {
      var rest := fields[1..];
      assert forall j: nat :: j < |rest| ==> rest[j] == fields[j + 1];
      EveryFieldThrows(n, v, dest, rest);
      if i: nat :| ThrowsAtField(n, v, dest, rest, i) && Passes(n, Prop(v, fields[0].0), dest, dest.At(fields[0].1)) {
        assert forall j: nat :: 0 < j < |fields| ==> fields[j] == rest[j - 1];
        assert ThrowsAtField(n, v, dest, fields, i + 1);
      }
      if i: nat :| ThrowsAtField(n, v, dest, fields, i) {
        if i > 0 {
          assert Passes(n, Prop(v, fields[0].0), dest, dest.At(fields[0].1));
          assert ThrowsAtField(n, v, dest, rest, i - 1);
        }
      } else {
        assert !ThrowsAtField(n, v, dest, fields, 0);
      }
    }
  }

  ghost predicate ThrowsAtIndex(n: nat, v: Value, dest: Types, items: seq<nat>, from: nat, i: nat)
    requires dest.Valid() && forall i :: 0 <= i < |items| ==> dest.Has(items[i])
  {
    && from <= i < |items| && IsCompatible(n, Index(v, i), dest, dest.At(items[i])) == Throws
    && forall j: nat :: from <= j < i ==> Passes(n, Index(v, j), dest, dest.At(items[j]))
  }

  lemma {:induction false} EveryIndexThrows(n: nat, v: Value, dest: Types, items: seq<nat>, from: nat)
    requires dest.Valid() && (forall i :: 0 <= i < |items| ==> dest.Has(items[i])) && from <= |items|
    ensures EveryIndex(n, v, dest, items, from) == Throws
      <==> exists i: nat :: ThrowsAtIndex(n, v, dest, items, from, i)
    decreases |items| - from
  {
    hide IsCompatible;
    if from < |items| {
      EveryIndexThrows(n, v, dest, items, from + 1);
      var first := Passes(n, Index(v, from), dest, dest.At(items[from]));
      var next := from + 1;
      if i: nat :| first && ThrowsAtIndex(n, v, dest, items, next, i) {
        assert ThrowsAtIndex(n, v, dest, items, from, i);
      }
      if i: nat :| ThrowsAtIndex(n, v, dest, items, from, i) {
        if i > from {
          assert Passes(n, Index(v, from), dest, dest.At(items[from]));
          assert ThrowsAtIndex(n, v, dest, items, from + 1, i);
        }
      } else {
        assert !ThrowsAtIndex(n, v, dest, items, from, from);
      }
    }
  }

  /** The check throws exactly then. */
  lemma {:induction false} ThrowsIff(n: nat, v: Value, dest: Types, d: nat)
    requires dest.Valid() && d < |dest.objects|
    ensures IsCompatible(n, v, dest, d) == Throws <==> Breaks(n, v, dest, d)
    decreases n, 1
  {
    if n > 0 {
      assert dest.NodeOk(dest.objects[d]);
      match dest.objects[d]
      case ArrayNode(_, _) => ArrayThrowsIff(n, v, dest, d);
      case EnumNode(_) => EnumThrowsIff(n, v, dest, d);
      case OptionNode(value) => ThrowsIff(n - 1, v, dest, dest.At(value));
      case StructNode(_) => StructThrowsIff(n, v, dest, d);
      case TupleNode(_) => TupleThrowsIff(n, v, dest, d);
      case ResultNode(_, _) => ResultThrowsIff(n, v, dest, d);
      case _ =>
    }
  }

  lemma {:induction false} ArrayThrowsIff(n: nat, v: Value, dest: Types, d: nat)
    requires dest.Valid() && d < |dest.objects| && dest.objects[d].ArrayNode? && n > 0
    ensures IsCompatible(n, v, dest, d) == Throws <==> Breaks(n, v, dest, d)
    decreases n, 0
  {
    assert dest.NodeOk(dest.objects[d]);
    var length := dest.objects[d].length;
    if v.VArr? && (length.Some? ==> |v.items| >= length.value) {
      var items := if length.Some? then v.items[..length.value] else v.items;
      var obj := dest.At(dest.objects[d].typeRef);
      assert IsCompatible(n, v, dest, d) == EveryItem(n - 1, items, dest, obj);
      assert items == v.items[..|items|];
      ItemsThrowIff(n - 1, v.items, |items|, dest, obj);
    }
  }

  lemma ItemsThrowIff(n: nat, items: seq<Value>, count: nat, dest: Types, d: nat)
    requires dest.Valid() && d < |dest.objects| && count <= |items|
    ensures EveryItem(n, items[..count], dest, d) == Throws <==> SomeItemBreaks(n, items, count, dest, d)
    decreases n, 3
  {
    EveryItemThrows(n, items[..count], dest, d);
    forall i: nat ensures ThrowsAtItem(n, items[..count], dest, d, i)
        <==> i < count && BreaksAtItem(n, items, dest, d, i) {
      ItemThrowsIff(n, items, count, dest, d, i);
    }
    hide ThrowsAtItem, BreaksAtItem, EveryItem;
  }

  lemma ItemThrowsIff(n: nat, items: seq<Value>, count: nat, dest: Types, d: nat, i: nat)
    requires dest.Valid() && d < |dest.objects| && count <= |items|
    ensures ThrowsAtItem(n, items[..count], dest, d, i) <==> i < count && BreaksAtItem(n, items, dest, d, i)
    decreases n, 2
  {
    hide IsCompatible, Breaks;
    if i < count {
      ThrowsIff(n, items[i], dest, d);
      assert forall j: nat :: j < count ==> items[..count][j] == items[j];
    }
  }

  lemma {:induction false} EnumThrowsIff(n: nat, v: Value, dest: Types, d: nat)
    requires dest.Valid() && d < |dest.objects| && dest.objects[d].EnumNode? && n > 0
    ensures IsCompatible(n, v, dest, d) == Throws <==> Breaks(n, v, dest, d)
    decreases n, 0
  {
    assert dest.NodeOk(dest.objects[d]);
    if Truthy(v) && Prop(v, "type").VStr? {
      var variants, tag := dest.objects[d].variants, Prop(v, "type").s;
      LastIsOne(variants, tag);
      EnumDecides(n, v, dest, d);
      if IsNamed(variants, tag) {
        var j: nat :| IsLast(variants, tag, j);
        ThrowsIff(n - 1, Prop(v, "value"), dest, dest.Resolve(variants[j].1));
      }
    }
  }

  lemma {:induction false} StructThrowsIff(n: nat, v: Value, dest: Types, d: nat)
    requires dest.Valid() && d < |dest.objects| && dest.objects[d].StructNode? && n > 0
    ensures IsCompatible(n, v, dest, d) == Throws <==> Breaks(n, v, dest, d)
    decreases n, 0
  {
    assert dest.NodeOk(dest.objects[d]);
    var fields := dest.objects[d].fields;
    if Truthy(v) {
      FieldsThrowIff(n - 1, v, dest, fields);
    }
  }

  lemma FieldsThrowIff(n: nat, v: Value, dest: Types, fields: seq<(string, nat)>)
    requires dest.Valid() && forall i :: 0 <= i < |fields| ==> dest.Has(fields[i].1)
    ensures EveryField(n, v, dest, fields) == Throws <==> SomeFieldBreaks(n, v, dest, fields)
    decreases n, 3
  {
    EveryFieldThrows(n, v, dest, fields);
    forall i: nat ensures ThrowsAtField(n, v, dest, fields, i) <==> BreaksAtField(n, v, dest, fields, i) {
      FieldThrowsIff(n, v, dest, fields, i);
    }
    hide ThrowsAtField, BreaksAtField, EveryField;
  }

  lemma FieldThrowsIff(n: nat, v: Value, dest: Types, fields: seq<(string, nat)>, i: nat)
    requires dest.Valid() && forall i :: 0 <= i < |fields| ==> dest.Has(fields[i].1)
    ensures ThrowsAtField(n, v, dest, fields, i) <==> BreaksAtField(n, v, dest, fields, i)
    decreases n, 2
  {
    hide IsCompatible, Breaks;
    if i < |fields| {
      ThrowsIff(n, Prop(v, fields[i].0), dest, dest.At(fields[i].1));
    }
  }

  lemma {:induction false} TupleThrowsIff(n: nat, v: Value, dest: Types, d: nat)
    requires dest.Valid() && d < |dest.objects| && dest.objects[d].TupleNode? && n > 0
    ensures IsCompatible(n, v, dest, d) == Throws <==> Breaks(n, v, dest, d)
    decreases n, 0
  {
    assert dest.NodeOk(dest.objects[d]);
    var items := dest.objects[d].items;
    if Truthy(v) {
      IndexesThrowIff(n - 1, v, dest, items);
    }
  }

  lemma IndexesThrowIff(n: nat, v: Value, dest: Types, items: seq<nat>)
    requires dest.Valid() && forall i :: 0 <= i < |items| ==> dest.Has(items[i])
    ensures EveryIndex(n, v, dest, items, 0) == Throws <==> SomeIndexBreaks(n, v, dest, items)
    decreases n, 3
  {
    EveryIndexThrows(n, v, dest, items, 0);
    forall i: nat ensures ThrowsAtIndex(n, v, dest, items, 0, i) <==> BreaksAtIndex(n, v, dest, items, i) {
      IndexThrowsIff(n, v, dest, items, i);
    }
    hide ThrowsAtIndex, BreaksAtIndex, EveryIndex;
  }

  lemma IndexThrowsIff(n: nat, v: Value, dest: Types, items: seq<nat>, i: nat)
    requires dest.Valid() && forall i :: 0 <= i < |items| ==> dest.Has(items[i])
    ensures ThrowsAtIndex(n, v, dest, items, 0, i) <==> BreaksAtIndex(n, v, dest, items, i)
    decreases n, 2
  {
    hide IsCompatible, Breaks;
    if i < |items| {
      ThrowsIff(n, Index(v, i), dest, dest.At(items[i]));
    }
  }

  lemma {:induction false} ResultThrowsIff(n: nat, v: Value, dest: Types, d: nat)
    requires dest.Valid() && d < |dest.objects| && dest.objects[d].ResultNode? && n > 0
    ensures IsCompatible(n, v, dest, d) == Throws <==> Breaks(n, v, dest, d)
    decreases n, 0
  {
    assert dest.NodeOk(dest.objects[d]);
    assert "object"[0] == 'o' && "boolean"[0] == 'b' && "number"[0] == 'n' && "string"[0] == 's' && "bigint"[0] == 'b';
    if v.VObj? && "success" in v.props && "value" in v.props {
      var node := dest.objects[d];
      ThrowsIff(n - 1, v.props["value"], dest, dest.At(if Truthy(v.props["success"]) then node.ok else node.ko));
    }
  }
}
