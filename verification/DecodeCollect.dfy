/** Decoding a transaction by the leaves of the type tree, and that the leaves it takes are enough. */
module DecodeCollect {
  import opened Basics

  datatype Prim =
    | Bool | Char | Str
    | U8 | U16 | U32 | U64 | U128 | U256
    | I8 | I16 | I32 | I64 | I128 | I256

  datatype TypeRef = PrimRef(prim: Prim) | CompactRef(prim: Prim) | VoidRef | PerId(id: nat)

  datatype TypeDef =
    | Composite(fields: seq<TypeRef>)
    | Enumeration(index: nat, variantFields: seq<TypeRef>)
    | Sequence(items: TypeRef)
    | Array(len: nat, elements: TypeRef)
    | Tuple(types: seq<TypeRef>)
    | BitSequence(numBytes: nat, leastSignificantBitFirst: bool)

  datatype Leaf = Leaf(typeId: nat, def: TypeDef)

  /** A compact number and what follows it. */
  datatype Number = Number(value: nat, rest: seq<Byte>)

  /** How compact numbers are read; it is the same everywhere. */
  type Compact = seq<Byte> -> Option<Number>

  /** The bytes of a primitive; `char` is read as one byte. */
  function Width(p: Prim): nat
    requires !p.Str?
  {
    match p
    case Bool => 1 case Char => 1
    case U8 => 1 case U16 => 2 case U32 => 4 case U64 => 8 case U128 => 16 case U256 => 32
    case I8 => 1 case I16 => 2 case I32 => 4 case I64 => 8 case I128 => 16 case I256 => 32
  }

  /** How many values a primitive has, as its name says: numbers of so many bits, otherwise a byte. */
  function Count(p: Prim): nat
    requires !p.Str?
  {
    var bits := match p
                case Bool => 8 case Char => 8
                case U8 => 8 case U16 => 16 case U32 => 32 case U64 => 64 case U128 => 128 case U256 => 256
                case I8 => 8 case I16 => 16 case I32 => 32 case I64 => 64 case I128 => 128 case I256 => 256;
    Power(2, bits)
  }

  function Power(base: nat, exponent: nat): nat {
    if exponent == 0 then 1 else base * Power(base, exponent - 1)
  }

  lemma {:induction false} PowerOfBytes(n: nat)
    ensures Power(256, n) == Power(2, 8 * n)
  {
    if n > 0 {
      PowerOfBytes(n - 1);
      var k := 8 * (n - 1);
      assert Power(2, k + 2) == 4 * Power(2, k);
      assert Power(2, k + 4) == 4 * Power(2, k + 2);
      assert Power(2, k + 6) == 4 * Power(2, k + 4);
      assert Power(2, k + 8) == 4 * Power(2, k + 6);
    }
  }

  /** The bytes that are read hold just the values of the primitive. */
  lemma WidthHolds(p: Prim)
    requires !p.Str?
    ensures Power(256, Width(p)) == Count(p)
  {
    PowerOfBytes(Width(p));
  }

  function SkipBytes(input: seq<Byte>, n: nat): Option<seq<Byte>> {
    if n <= |input| then Some(input[n..]) else None
  }

  function SkipPrim(compact: Compact, input: seq<Byte>, p: Prim): Option<seq<Byte>> {
    if p.Str? then
      match compact(input)
      case None => None
      case Some(n) => SkipBytes(n.rest, n.value)
    else
      SkipBytes(input, Width(p))
  }

  /** A value is read to its end: so many bytes, or a text after its length. */
  lemma SkipsValue(compact: Compact, p: Prim, value: seq<Byte>, rest: seq<Byte>)
    ensures !p.Str? && Power(256, |value|) == Count(p) ==> SkipPrim(compact, value + rest, p) == Some(rest)
    ensures forall input: seq<Byte> :: p.Str? && compact(input) == Some(Number(|value|, value + rest)) ==>
              SkipPrim(compact, input, p) == Some(rest)
  {
    assert (value + rest)[|value|..] == rest;
    if !p.Str? {
      WidthHolds(p);
      if Power(256, |value|) == Count(p) { SamePower(|value|, Width(p)); }
    }
  }

  lemma {:induction false} SamePower(m: nat, n: nat)
    requires Power(256, m) == Power(256, n)
    ensures m == n
  {
    PowerIsPositive(m);
    PowerIsPositive(n);
    if m > 0 && n > 0 { SamePower(m - 1, n - 1); }
  }

  lemma PowerIsPositive(n: nat)
    ensures Power(256, n) > 0 && (n > 0 ==> Power(256, n) > 1)
  {
  }

  datatype Outcome =
    | Done(rest: seq<Byte>, leaves: set<nat>)
    | Failed
    | OutOfFuel   // the recursion is deeper than the fuel
  {
    function With(more: set<nat>): Outcome {
      if Done? then Done(rest, leaves + more) else this
    }
  }

  // ------------------------------------------------------------------ one leaf

  predicate Within(idxs: seq<nat>, lookup: seq<Leaf>) {
    forall i :: 0 <= i < |idxs| ==> idxs[i] < |lookup|
  }

  /** The positions of the leaves of a type, in order. */
  function Group(lookup: seq<Leaf>, id: nat): (r: seq<nat>)
    ensures Within(r, lookup) && forall i :: 0 <= i < |r| ==> lookup[r[i]].typeId == id
  {
    if lookup == [] then []
    else
      Group(lookup[..|lookup| - 1], id) + (if lookup[|lookup| - 1].typeId == id then [|lookup| - 1] else [])
  }

  predicate Selects(lookup: seq<Leaf>, k: nat, index: nat)
    requires k < |lookup|
  {
    lookup[k].def.Enumeration? && lookup[k].def.index == index
  }

  /** The first leaf of the group for the variant `index`. */
  function Select(lookup: seq<Leaf>, group: seq<nat>, index: nat): (r: Option<nat>)
    requires Within(group, lookup)
    ensures r.Some? ==> r.value in group && r.value < |lookup| && Selects(lookup, r.value, index)
  {
    if group == [] then None
    else if Selects(lookup, group[0], index) then Some(group[0])
    else Select(lookup, group[1..], index)
  }

  function Repeat(ty: TypeRef, n: nat): seq<TypeRef> {
    seq(n, _ => ty)
  }

  /** What reading the head of a value gives: the leaves taken, and the parts that follow. */
  datatype Head = Head(rest: seq<Byte>, leaves: set<nat>, parts: seq<TypeRef>)

  function ReadHead(compact: Compact, lookup: seq<Leaf>, input: seq<Byte>, id: nat): Option<Head> {
    var group := Group(lookup, id);
    if group == [] then None
    else
      var sole := if |group| == 1 then {group[0]} else {};
      match lookup[group[0]].def
      case Enumeration(_, _) =>
        if input == [] then None
        else (
          match Select(lookup, group, input[0])
          case None => None
          case Some(k) => Some(Head(input[1..], sole + {k}, lookup[k].def.variantFields))
        )
      case Sequence(ty) => (
        match compact(input)
        case None => None
        case Some(n) => Some(Head(n.rest, sole, Repeat(ty, n.value)))
      )
      case Array(len, ty) => Some(Head(input, sole, Repeat(ty, len)))
      case Composite(fields) => Some(Head(input, sole, fields))
      case Tuple(types) => Some(Head(input, sole, types))
      case BitSequence(_, _) => None
  }

  /** Decodes one value; every level of nesting takes fuel. */
  function Decode(compact: Compact, lookup: seq<Leaf>, fuel: nat, input: seq<Byte>, ty: TypeRef): Outcome
    decreases fuel, 0, 0
  {
    match ty
    case VoidRef => Done(input, {})
    case PrimRef(p) => (match SkipPrim(compact, input, p) case None => Failed case Some(rest) => Done(rest, {}))
    case CompactRef(_) => (match compact(input) case None => Failed case Some(n) => Done(n.rest, {}))
    case PerId(id) =>
      if fuel == 0 then OutOfFuel
      else
        match ReadHead(compact, lookup, input, id)
        case None => Failed
        case Some(h) => DecodeAll(compact, lookup, fuel - 1, h.rest, h.parts).With(h.leaves)
  }

  /** Decodes values one after the other. */
  function DecodeAll(compact: Compact, lookup: seq<Leaf>, fuel: nat, input: seq<Byte>, types: seq<TypeRef>): Outcome
    decreases fuel, 1, |types|
  {
    if types == [] then Done(input, {})
    else
      match DecodeAll(compact, lookup, fuel, input, types[..|types| - 1])
      case Done(rest, leaves) => Decode(compact, lookup, fuel, rest, types[|types| - 1]).With(leaves)
      case other => other
  }

  // ------------------------------------------------------------ fewer leaves

  /** Only enumerations have several leaves. */
  ghost predicate SoleUnlessEnumeration(lookup: seq<Leaf>) {
    forall j, k :: 0 <= j < k < |lookup| && lookup[j].typeId == lookup[k].typeId ==>
      lookup[j].def.Enumeration? && lookup[k].def.Enumeration?
  }

  /** Leaves that stand for the same thing: one type, and of an enumeration one variant. */
  predicate Alike(a: Leaf, b: Leaf) {
    a.typeId == b.typeId && (a.def.Enumeration? && b.def.Enumeration? ==> a.def.index == b.def.index)
  }

  /** No leaf is listed twice, and leaves that are alike keep the order that they have in the lookup. */
  ghost predicate KeepsOrder(lookup: seq<Leaf>, idxs: seq<nat>)
    requires Within(idxs, lookup)
  {
    forall i, j :: 0 <= i < j < |idxs| && Alike(lookup[idxs[i]], lookup[idxs[j]]) ==> idxs[i] < idxs[j]
  }

  /** Every type has one leaf, and every enumeration one for each of its variants. */
  ghost predicate DistinctLeaves(lookup: seq<Leaf>) {
    forall j, k :: 0 <= j < k < |lookup| && lookup[j].typeId == lookup[k].typeId ==>
      lookup[j].def.Enumeration? && lookup[k].def.Enumeration? && lookup[j].def.index != lookup[k].def.index
  }

  lemma IncreasingKeepsOrder(lookup: seq<Leaf>, idxs: seq<nat>)
    requires Within(idxs, lookup) && Increasing(idxs)
    ensures KeepsOrder(lookup, idxs)
  {
  }

  /** When no two leaves are alike, any order will do. */
  lemma AnyOrderKeeps(lookup: seq<Leaf>, idxs: seq<nat>)
    requires DistinctLeaves(lookup) && Within(idxs, lookup) && NoDuplicates(idxs)
    ensures KeepsOrder(lookup, idxs) && SoleUnlessEnumeration(lookup)
  {
    forall i, j | 0 <= i < j < |idxs| ensures !Alike(lookup[idxs[i]], lookup[idxs[j]]) {
      NotAlike(lookup, idxs[i], idxs[j]);
    }
  }

  lemma NotAlike(lookup: seq<Leaf>, a: nat, b: nat)
    requires DistinctLeaves(lookup) && a < |lookup| && b < |lookup| && a != b
    ensures !Alike(lookup[a], lookup[b])
  {
    if lookup[a].typeId == lookup[b].typeId {
      assert lookup[b].typeId == lookup[a].typeId;
    }
  }

  /** The leaves at the given positions: what a proof contains. */
  function Restrict(lookup: seq<Leaf>, idxs: seq<nat>): (r: seq<Leaf>)
    requires Within(idxs, lookup)
    ensures |r| == |idxs| && forall i :: 0 <= i < |r| ==> r[i] == lookup[idxs[i]]
  {
    seq(|idxs|, i requires 0 <= i < |idxs| => lookup[idxs[i]])
  }

  /** Where the given leaves are in a proof. */
  ghost function Positions(idxs: seq<nat>, leaves: set<nat>): set<nat> {
    set i: nat | i < |idxs| && idxs[i] in leaves
  }

  ghost function AllPositions(idxs: seq<nat>): set<nat> {
    Positions(idxs, set k | k in idxs)
  }

  lemma PositionsUnion(idxs: seq<nat>, a: set<nat>, b: set<nat>)
    ensures Positions(idxs, a + b) == Positions(idxs, a) + Positions(idxs, b)
  {
  }

  lemma {:induction false} GroupIs(lookup: seq<Leaf>, id: nat)
    ensures Increasing(Group(lookup, id))
    ensures forall k: nat :: k in Group(lookup, id) <==> k < |lookup| && lookup[k].typeId == id
  {
    if lookup != [] {
      var n := |lookup| - 1;
      var before := Group(lookup[..n], id);
      GroupIs(lookup[..n], id);
      assert forall i :: 0 <= i < |before| ==> before[i] in before;
      forall k: nat | k < |lookup| && lookup[k].typeId == id ensures k in Group(lookup, id) {
        assert k < n ==> k in Group(lookup[..n], id);
      }
    }
  }

  /** What `Select` finds: the first of the group that has the index. */
  lemma {:induction false} SelectIs(lookup: seq<Leaf>, group: seq<nat>, index: nat)
    requires Increasing(group) && Within(group, lookup)
    ensures match Select(lookup, group, index)
            case None => forall i :: 0 <= i < |group| ==> !Selects(lookup, group[i], index)
            case Some(k) => forall i :: 0 <= i < |group| && group[i] < k ==> !Selects(lookup, group[i], index)
  {
    if group != [] {
      SelectIs(lookup, group[1..], index);
      assert group == [group[0]] + group[1..];
    }
  }

  lemma FirstFound(lookup: seq<Leaf>, group: seq<nat>, index: nat, k: nat)
    requires Increasing(group) && Within(group, lookup)
    requires k in group && k < |lookup| && Selects(lookup, k, index)
    requires forall i :: 0 <= i < |group| && group[i] < k ==> !Selects(lookup, group[i], index)
    ensures Select(lookup, group, index) == Some(k)
  {
    SelectIs(lookup, group, index);
  }

  /** The position in a proof of a leaf that the proof has. */
  lemma Found(idxs: seq<nat>, k: nat) returns (p: nat)
    requires k in idxs
    ensures p < |idxs| && idxs[p] == k
  {
    p :| p < |idxs| && idxs[p] == k;
  }

  lemma SameLeaf(lookup: seq<Leaf>, idxs: seq<nat>, p: nat, q: nat)
    requires Within(idxs, lookup) && KeepsOrder(lookup, idxs)
    requires p < |idxs| && q < |idxs| && idxs[p] == idxs[q]
    ensures p == q
  {
    assert Alike(lookup[idxs[p]], lookup[idxs[q]]);
  }

  lemma OnlyPosition(lookup: seq<Leaf>, idxs: seq<nat>, p: nat)
    requires Within(idxs, lookup) && KeepsOrder(lookup, idxs) && p < |idxs|
    ensures Positions(idxs, {idxs[p]}) == {p}
  {
    forall q | q in Positions(idxs, {idxs[p]}) ensures q == p {
      SameLeaf(lookup, idxs, p, q);
    }
  }

  /** A leaf alone in its type is alone in a proof that has it. */
  lemma SoleRestricted(lookup: seq<Leaf>, idxs: seq<nat>, id: nat)
    requires Within(idxs, lookup) && KeepsOrder(lookup, idxs)
    requires |Group(lookup, id)| == 1 && Group(lookup, id)[0] in idxs
    ensures |Group(Restrict(lookup, idxs), id)| == 1
    ensures Group(Restrict(lookup, idxs), id)[0] < |idxs|
            && idxs[Group(Restrict(lookup, idxs), id)[0]] == Group(lookup, id)[0]
    ensures Positions(idxs, {Group(lookup, id)[0]}) == {Group(Restrict(lookup, idxs), id)[0]}
  {
    var small := Restrict(lookup, idxs);
    var group, group' := Group(lookup, id), Group(small, id);
    GroupIs(lookup, id);
    GroupIs(small, id);
    var p := Found(idxs, group[0]);
    assert small[p].typeId == id && p in group';
    forall i | 0 <= i < |group'| ensures group'[i] == p {
      assert idxs[group'[i]] in group;
      SameLeaf(lookup, idxs, group'[i], p);
    }
    OnlyPosition(lookup, idxs, p);
    AtMostOne(group', p);
  }

  /** The variant found in all leaves is the one found in a proof that has it. */
  lemma SelectRestricted(lookup: seq<Leaf>, idxs: seq<nat>, id: nat, index: nat)
    requires Within(idxs, lookup) && KeepsOrder(lookup, idxs)
    requires Select(lookup, Group(lookup, id), index).Some? && Select(lookup, Group(lookup, id), index).value in idxs
    ensures var small := Restrict(lookup, idxs);
            var k := Select(lookup, Group(lookup, id), index).value;
            var found := Select(small, Group(small, id), index);
            && found.Some? && found.value < |idxs| && idxs[found.value] == k && found.value in Group(small, id)
            && Positions(idxs, {k}) == {found.value}
  {
    var small := Restrict(lookup, idxs);
    var group, group' := Group(lookup, id), Group(small, id);
    GroupIs(lookup, id);
    GroupIs(small, id);
    SelectIs(lookup, group, index);
    var k := Select(lookup, group, index).value;
    var p := Found(idxs, k);
    assert small[p] == lookup[k] && p in group';
    forall i | 0 <= i < |group'| && group'[i] < p ensures !Selects(small, group'[i], index) {
      assert idxs[group'[i]] in group;
      assert Selects(small, group'[i], index) ==> Alike(lookup[idxs[group'[i]]], lookup[idxs[p]]);
    }
    FirstFound(small, group', index, p);
    OnlyPosition(lookup, idxs, p);
  }

  /** The head of a value reads the same from a proof that has the leaves it takes. */
  lemma HeadRestricted(compact: Compact, lookup: seq<Leaf>, idxs: seq<nat>, input: seq<Byte>, id: nat)
    requires SoleUnlessEnumeration(lookup) && Within(idxs, lookup) && KeepsOrder(lookup, idxs)
    requires var h := ReadHead(compact, lookup, input, id); h.Some? && forall k :: k in h.value.leaves ==> k in idxs
    ensures var h := ReadHead(compact, lookup, input, id).value;
            ReadHead(compact, Restrict(lookup, idxs), input, id) == Some(h.(leaves := Positions(idxs, h.leaves)))
  {
    var small := Restrict(lookup, idxs);
    var group := Group(lookup, id);
    var h := ReadHead(compact, lookup, input, id).value;
    GroupIs(lookup, id);
    GroupIs(small, id);
    if lookup[group[0]].def.Enumeration? {
      SelectRestricted(lookup, idxs, id, input[0]);
      EnumerationHead(compact, lookup, idxs, input, id);
    } else {
      SoleGroup(lookup, id);
      SoleRestricted(lookup, idxs, id);
    }
  }

  lemma SoleGroup(lookup: seq<Leaf>, id: nat)
    requires SoleUnlessEnumeration(lookup) && Group(lookup, id) != [] && !lookup[Group(lookup, id)[0]].def.Enumeration?
    ensures |Group(lookup, id)| == 1
  {
    var group := Group(lookup, id);
    GroupIs(lookup, id);
    hide SoleUnlessEnumeration;
    if |group| >= 2 {
      SeveralInGroup(lookup, id);
    }
  }

  lemma SeveralInGroup(lookup: seq<Leaf>, id: nat)
    requires SoleUnlessEnumeration(lookup) && |Group(lookup, id)| >= 2
    ensures lookup[Group(lookup, id)[0]].def.Enumeration?
  {
    GroupIs(lookup, id);
    FirstTwo(Group(lookup, id));
  }

  lemma FirstTwo(xs: seq<nat>)
    requires Increasing(xs) && |xs| >= 2
    ensures xs[0] < xs[1]
  {
  }

  lemma AtMostOne(xs: seq<nat>, p: nat)
    requires Increasing(xs) && forall i :: 0 <= i < |xs| ==> xs[i] == p
    ensures |xs| <= 1
  {
    hide Increasing;
    if |xs| >= 2 {
      FirstTwo(xs);
    }
  }

  lemma EnumerationGroup(lookup: seq<Leaf>, id: nat, i: nat)
    requires SoleUnlessEnumeration(lookup) && i < |Group(lookup, id)| && lookup[Group(lookup, id)[0]].def.Enumeration?
    ensures lookup[Group(lookup, id)[i]].def.Enumeration?
  {
    GroupIs(lookup, id);
  }

  lemma OnlyOne(xs: seq<nat>, x: nat)
    requires |xs| == 1 && x in xs
    ensures xs[0] == x
  {
  }

  lemma EnumerationHead(compact: Compact, lookup: seq<Leaf>, idxs: seq<nat>, input: seq<Byte>, id: nat)
    requires SoleUnlessEnumeration(lookup) && Within(idxs, lookup) && KeepsOrder(lookup, idxs)
    requires input != [] && Group(lookup, id) != [] && lookup[Group(lookup, id)[0]].def.Enumeration?
    requires var small := Restrict(lookup, idxs);
             var found, k := Select(small, Group(small, id), input[0]), Select(lookup, Group(lookup, id), input[0]);
             && k.Some? && found.Some? && idxs[found.value] == k.value
             && Positions(idxs, {k.value}) == {found.value}
    ensures ReadHead(compact, lookup, input, id).Some?
    ensures var h := ReadHead(compact, lookup, input, id).value;
            ReadHead(compact, Restrict(lookup, idxs), input, id) == Some(h.(leaves := Positions(idxs, h.leaves)))
  {
    hide SoleUnlessEnumeration, KeepsOrder, Group, Select, Positions, Selects;
    var small := Restrict(lookup, idxs);
    var group, group' := Group(lookup, id), Group(small, id);
    var k, found := Select(lookup, group, input[0]).value, Select(small, group', input[0]).value;
    var i := InBigGroup(lookup, idxs, id, group'[0]);
    EnumerationGroup(lookup, id, i);
    if |group| == 1 { OnlyOne(group, k); }
    if |group'| == 1 { OnlyOne(group', found); }
    assert ReadHead(compact, lookup, input, id).value.leaves == {k};
    assert ReadHead(compact, small, input, id).value.leaves == {found};
  }

  lemma InBigGroup(lookup: seq<Leaf>, idxs: seq<nat>, id: nat, p: nat) returns (i: nat)
    requires Within(idxs, lookup) && p in Group(Restrict(lookup, idxs), id)
    ensures p < |idxs| && i < |Group(lookup, id)| && Group(lookup, id)[i] == idxs[p]
  {
    GroupIs(lookup, id);
    GroupIs(Restrict(lookup, idxs), id);
    assert idxs[p] in Group(lookup, id);
    i :| i < |Group(lookup, id)| && Group(lookup, id)[i] == idxs[p];
  }

  /**
   * Decoding with only the leaves of a proof reads the same bytes, and takes the leaves of the
   * proof that decoding with all of them takes.
   */
  lemma {:induction false} DecodeRestricted(compact: Compact, lookup: seq<Leaf>, idxs: seq<nat>, fuel: nat,
                                            input: seq<Byte>, ty: TypeRef)
    requires SoleUnlessEnumeration(lookup) && Within(idxs, lookup) && KeepsOrder(lookup, idxs)
    requires var d := Decode(compact, lookup, fuel, input, ty); d.Done? && forall k :: k in d.leaves ==> k in idxs
    ensures var d := Decode(compact, lookup, fuel, input, ty);
            Decode(compact, Restrict(lookup, idxs), fuel, input, ty) == Done(d.rest, Positions(idxs, d.leaves))
    decreases fuel, 0, 0
  {
    hide SoleUnlessEnumeration, Within, KeepsOrder, ReadHead, Positions;
    match ty
    case PerId(id) =>
      var h := ReadHead(compact, lookup, input, id).value;
      var rest := DecodeAll(compact, lookup, fuel - 1, h.rest, h.parts);
      HeadRestricted(compact, lookup, idxs, input, id);
      DecodeAllRestricted(compact, lookup, idxs, fuel - 1, h.rest, h.parts);
      PositionsUnion(idxs, rest.leaves, h.leaves);
    case _ =>
      PositionsNone(idxs);
  }

  lemma PositionsNone(idxs: seq<nat>)
    ensures Positions(idxs, {}) == {}
  {
  }

  lemma {:induction false} DecodeAllRestricted(compact: Compact, lookup: seq<Leaf>, idxs: seq<nat>, fuel: nat,
                                               input: seq<Byte>, types: seq<TypeRef>)
    requires SoleUnlessEnumeration(lookup) && Within(idxs, lookup) && KeepsOrder(lookup, idxs)
    requires var d := DecodeAll(compact, lookup, fuel, input, types); d.Done? && forall k :: k in d.leaves ==> k in idxs
    ensures var d := DecodeAll(compact, lookup, fuel, input, types);
            DecodeAll(compact, Restrict(lookup, idxs), fuel, input, types) == Done(d.rest, Positions(idxs, d.leaves))
    decreases fuel, 1, |types|
  {
    hide SoleUnlessEnumeration, Within, KeepsOrder, Positions, Decode;
    if types == [] {
      PositionsNone(idxs);
    } else {
      var n := |types| - 1;
      var before := DecodeAll(compact, lookup, fuel, input, types[..n]);
      var last := Decode(compact, lookup, fuel, before.rest, types[n]);
      DecodeAllRestricted(compact, lookup, idxs, fuel, input, types[..n]);
      DecodeRestricted(compact, lookup, idxs, fuel, before.rest, types[n]);
      PositionsUnion(idxs, last.leaves, before.leaves);
    }
  }

  /**
   * The collected leaves suffice: decoding with them alone, in any order that keeps leaves that are
   * alike in theirs, reads the same bytes and takes every one of them.
   */
  lemma ProofSuffices(compact: Compact, lookup: seq<Leaf>, idxs: seq<nat>, fuel: nat, input: seq<Byte>,
                      types: seq<TypeRef>)
    requires SoleUnlessEnumeration(lookup) && Within(idxs, lookup) && KeepsOrder(lookup, idxs)
    requires var d := DecodeAll(compact, lookup, fuel, input, types); d.Done? && d.leaves == (set k | k in idxs)
    ensures var d := DecodeAll(compact, lookup, fuel, input, types);
            DecodeAll(compact, Restrict(lookup, idxs), fuel, input, types) == Done(d.rest, AllPositions(idxs))
  {
    DecodeAllRestricted(compact, lookup, idxs, fuel, input, types);
    var leaves := DecodeAll(compact, lookup, fuel, input, types).leaves;
    assert Positions(idxs, leaves) == AllPositions(idxs);
  }

  // ------------------------------------------------------------ the decoder

  datatype Status = Ok | Error | TooDeep

  /** Once decoding has stopped, it stays stopped. */
  lemma {:induction false} PrefixStops(compact: Compact, lookup: seq<Leaf>, fuel: nat, input: seq<Byte>,
                                       types: seq<TypeRef>, k: nat)
    requires k <= |types| && !DecodeAll(compact, lookup, fuel, input, types[..k]).Done?
    ensures DecodeAll(compact, lookup, fuel, input, types) == DecodeAll(compact, lookup, fuel, input, types[..k])
    decreases |types|
  {
    hide Decode;
    if k == |types| {
      assert types[..k] == types;
    } else {
      var n := |types| - 1;
      assert types[..n][..k] == types[..k];
      PrefixStops(compact, lookup, fuel, input, types[..n], k);
    }
  }

  lemma NextDecoded(compact: Compact, lookup: seq<Leaf>, fuel: nat, input: seq<Byte>, types: seq<TypeRef>, k: nat)
    requires k < |types| && DecodeAll(compact, lookup, fuel, input, types[..k]).Done?
    ensures var before := DecodeAll(compact, lookup, fuel, input, types[..k]);
            DecodeAll(compact, lookup, fuel, input, types[..k + 1])
                == Decode(compact, lookup, fuel, before.rest, types[k]).With(before.leaves)
  {
    assert types[..k + 1][..k] == types[..k];
  }

  class Decoder {
    const compact: Compact
    const lookup: seq<Leaf>
    const idToLookups: map<nat, seq<nat>>
    var input: seq<Byte>       // what is left to read
    var collected: set<nat>

    constructor (compact: Compact, lookup: seq<Leaf>, idToLookups: map<nat, seq<nat>>, input: seq<Byte>)
      requires ByGroup(idToLookups, lookup)
      ensures Valid() && this.compact == compact && this.lookup == lookup && this.input == input && collected == {}
    {
      this.compact, this.lookup, this.idToLookups := compact, lookup, idToLookups;
      this.input, collected := input, {};
    }

    ghost predicate Valid()
    {
      ByGroup(idToLookups, lookup)
    }

    ghost predicate Matches(o: Outcome, status: Status, before: set<nat>)
      reads this
    {
      match o
      case Done(rest, leaves) => status == Ok && input == rest && collected == before + leaves
      case Failed => status == Error
      case OutOfFuel => status == TooDeep
    }

    /** Reads one value, and adds the leaves it takes. */
    method DecodeOne(fuel: nat, ty: TypeRef) returns (status: Status)
      requires Valid()
      modifies this`input, this`collected
      ensures Matches(Decode(compact, lookup, fuel, old(input), ty), status, old(collected))
      decreases fuel, 0
    {
      hide DecodeAll, Group;
      match ty
      case VoidRef => return Ok;
      case PrimRef(p) =>
        var rest := SkipPrim(compact, input, p);
        if rest.None? {
          return Error;
        }
        input := rest.value;
        return Ok;
      case CompactRef(_) =>
        var n := compact(input);
        if n.None? {
          return Error;
        }
        input := n.value.rest;
        return Ok;
      case PerId(id) =>
        if fuel == 0 {
          return TooDeep;
        }
        if id !in idToLookups {
          return Error;
        }
        var lookupIdxs := idToLookups[id];
        var current := lookup[lookupIdxs[0]];
        ghost var before := collected;
        if |lookupIdxs| == 1 {
          collected := collected + {lookupIdxs[0]};
        }
        match current.def
        case Enumeration(_, _) =>
          if input == [] {
            return Error;
          }
          var selectedIdx := input[0];
          input := input[1..];
          var selected := Select(lookup, lookupIdxs, selectedIdx);
          if selected.None? {
            return Error;
          }
          collected := collected + {selected.value};
          status := DecodeEach(fuel - 1, lookup[selected.value].def.variantFields);
        case Sequence(item) =>
          var n := compact(input);
          if n.None? {
            return Error;
          }
          input := n.value.rest;
          status := DecodeTimes(fuel - 1, item, n.value.value);
        case Array(len, element) =>
          status := DecodeTimes(fuel - 1, element, len);
        case Composite(fields) =>
          status := DecodeEach(fuel - 1, fields);
        case Tuple(types) =>
          status := DecodeEach(fuel - 1, types);
        case BitSequence(_, _) =>
          return Error;
    }

    method DecodeEach(fuel: nat, types: seq<TypeRef>) returns (status: Status)
      requires Valid()
      modifies this`input, this`collected
      ensures Matches(DecodeAll(compact, lookup, fuel, old(input), types), status, old(collected))
      decreases fuel, 1
    {
      hide Decode, DecodeAll, ByGroup;
      NothingDecoded(compact, lookup, fuel, input);
      assert types[..0] == [];
      for k := 0 to |types|
        invariant Matches(DecodeAll(compact, lookup, fuel, old(input), types[..k]), Ok, old(collected))
      {
        NextDecoded(compact, lookup, fuel, old(input), types, k);
        status := DecodeOne(fuel, types[k]);
        if status != Ok {
          PrefixStops(compact, lookup, fuel, old(input), types, k + 1);
          return;
        }
      }
      assert types[..|types|] == types;
      return Ok;
    }

    method DecodeTimes(fuel: nat, ty: TypeRef, n: nat) returns (status: Status)
      requires Valid()
      modifies this`input, this`collected
      ensures Matches(DecodeAll(compact, lookup, fuel, old(input), Repeat(ty, n)), status, old(collected))
      decreases fuel, 1
    {
      hide Decode, DecodeAll, ByGroup;
      ghost var types := Repeat(ty, n);
      NothingDecoded(compact, lookup, fuel, input);
      assert types[..0] == [];
      for k := 0 to n
        invariant Matches(DecodeAll(compact, lookup, fuel, old(input), types[..k]), Ok, old(collected))
      {
        NextDecoded(compact, lookup, fuel, old(input), types, k);
        status := DecodeOne(fuel, ty);
        if status != Ok {
          PrefixStops(compact, lookup, fuel, old(input), types, k + 1);
          return;
        }
      }
      assert types[..n] == types;
      return Ok;
    }
  }

  lemma NothingDecoded(compact: Compact, lookup: seq<Leaf>, fuel: nat, input: seq<Byte>)
    ensures DecodeAll(compact, lookup, fuel, input, []) == Done(input, {})
  {
  }

  /** The map holds the group of every type that has leaves. */
  ghost predicate ByGroup(idToLookups: map<nat, seq<nat>>, lookup: seq<Leaf>) {
    forall id: nat :: if id in idToLookups then idToLookups[id] != [] && idToLookups[id] == Group(lookup, id)
                      else Group(lookup, id) == []
  }

  /** The elements in order. */
  method Sorted(s: set<nat>) returns (xs: seq<nat>)
    ensures Increasing(xs) && forall x :: x in xs <==> x in s
  {
    xs := [];
    var left := s;
    while |left| != 0
      invariant left <= s && Increasing(xs)
      invariant forall x :: x in s <==> x in xs || x in left
      invariant forall i, x :: 0 <= i < |xs| && x in left ==> xs[i] < x
    {
      var least := Least(left);
      xs := xs + [least];
      left := left - {least};
    }
  }

  method Least(s: set<nat>) returns (least: nat)
    requires |s| != 0
    ensures least in s && forall x :: x in s ==> least <= x
  {
    ghost var some := SomeElement(s);
    least :| least in s;
    var left := s - {least};
    while |left| != 0
      invariant least in s && left <= s && forall x :: x in s ==> x in left || least <= x
    {
      ghost var another := SomeElement(left);
      var x :| x in left;
      if x < least {
        least := x;
      }
      left := left - {x};
    }
  }

  /**
   * The positions, in order, of the leaves that the data takes. With these leaves alone the data
   * decodes to the same rest, taking all of them.
   */
  method DecodeAndCollectKnownLeafs(compact: Compact, data: seq<Byte>, typeRefs: seq<TypeRef>, lookup: seq<Leaf>,
                                    fuel: nat)
    returns (status: Status, known: seq<nat>)
    ensures status == match DecodeAll(compact, lookup, fuel, data, typeRefs)
                      case Done(_, _) => Ok case Failed => Error case OutOfFuel => TooDeep
    ensures status == Ok ==>
              && Increasing(known) && Within(known, lookup)
              && (forall k :: k in known <==> k in DecodeAll(compact, lookup, fuel, data, typeRefs).leaves)
    ensures status == Ok && SoleUnlessEnumeration(lookup) ==>
              && DecodeAll(compact, Restrict(lookup, known), fuel, data, typeRefs)
                 == Done(DecodeAll(compact, lookup, fuel, data, typeRefs).rest, AllPositions(known))
  {
    hide SoleUnlessEnumeration, AllPositions;
    var idToLookups: map<nat, seq<nat>> := map[];
    for idx := 0 to |lookup|
      invariant ByGroup(idToLookups, lookup[..idx])
    {
      assert lookup[..idx + 1][..idx] == lookup[..idx];
      var typeId := lookup[idx].typeId;
      if typeId in idToLookups {
        idToLookups := idToLookups[typeId := idToLookups[typeId] + [idx]];
      } else {
        idToLookups := idToLookups[typeId := [idx]];
      }
    }
    assert lookup[..|lookup|] == lookup;
    hide DecodeAll, ByGroup;
    var decoder := new Decoder(compact, lookup, idToLookups, data);
    status := decoder.DecodeEach(fuel, typeRefs);
    known := [];
    if status == Ok {
      known := Sorted(decoder.collected);
      LeavesWithin(compact, lookup, fuel, data, typeRefs);
      ghost var leaves := DecodeAll(compact, lookup, fuel, data, typeRefs).leaves;
      assert forall i :: 0 <= i < |known| ==> known[i] in known;
      assert leaves == set k | k in known;
      if SoleUnlessEnumeration(lookup) {
        IncreasingKeepsOrder(lookup, known);
        ProofSuffices(compact, lookup, known, fuel, data, typeRefs);
      }
    }
  }

  lemma HeadWithin(compact: Compact, lookup: seq<Leaf>, input: seq<Byte>, id: nat)
    requires ReadHead(compact, lookup, input, id).Some?
    ensures forall k :: k in ReadHead(compact, lookup, input, id).value.leaves ==> k < |lookup|
  {
    GroupIs(lookup, id);
  }

  lemma {:induction false} LeavesWithin(compact: Compact, lookup: seq<Leaf>, fuel: nat, input: seq<Byte>,
                                        types: seq<TypeRef>)
    ensures var d := DecodeAll(compact, lookup, fuel, input, types);
            d.Done? ==> forall k :: k in d.leaves ==> k < |lookup|
    decreases fuel, 1, |types|
  {
    hide Decode;
    if types != [] {
      var n := |types| - 1;
      var before := DecodeAll(compact, lookup, fuel, input, types[..n]);
      LeavesWithin(compact, lookup, fuel, input, types[..n]);
      if before.Done? {
        LeavesOfOne(compact, lookup, fuel, before.rest, types[n]);
      }
    }
  }

  lemma {:induction false} LeavesOfOne(compact: Compact, lookup: seq<Leaf>, fuel: nat, input: seq<Byte>, ty: TypeRef)
    ensures var d := Decode(compact, lookup, fuel, input, ty);
            d.Done? ==> forall k :: k in d.leaves ==> k < |lookup|
    decreases fuel, 0, 0
  {
    hide ReadHead, DecodeAll;
    if ty.PerId? && fuel > 0 {
      var h := ReadHead(compact, lookup, input, ty.id);
      if h.Some? {
        HeadWithin(compact, lookup, input, ty.id);
        LeavesWithin(compact, lookup, fuel - 1, h.value.rest, h.value.parts);
        var inner := DecodeAll(compact, lookup, fuel - 1, h.value.rest, h.value.parts);
        assert Decode(compact, lookup, fuel, input, ty) == inner.With(h.value.leaves);
        assert inner.Done? ==> inner.With(h.value.leaves).leaves == inner.leaves + h.value.leaves;
      }
    }
  }
}
