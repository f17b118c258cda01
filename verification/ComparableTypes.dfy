/** Static compatibility as closed relations between the nodes of two chains. */
module ComparableTypes {
  import opened Basics
  import opened TypeDefs
  import opened CompatibilityPlan

  /** A length `o` fits where a length `d` is asked for. */
  ghost predicate LengthFits(t: nat, o: Option<nat>, d: Option<nat>) {
    || o == d
    || (t <= BACKWARDS_COMPATIBLE && (d.None? || (o.Some? && o.value >= d.value)))
    || (t <= PARTIAL && o.None?)
  }

  /** The objects that two lookup ids resolve to are related. */
  ghost predicate RelatedIds(c: Chains, s: set<Pair>, o: nat, d: nat) {
    o < |c.origin.lookup| && d < |c.dest.lookup| && (c.origin.lookup[o], c.dest.lookup[d]) in s
  }

  /** A field that the destination asks for is related, or absent and optional. */
  ghost predicate FieldFits(c: Chains, t: nat, s: set<Pair>, o: seq<(string, nat)>, name: string, asked: nat)
    requires forall i :: 0 <= i < |o| ==> c.origin.Has(o[i].1)
    requires c.dest.Has(asked)
  {
    if IsNamed(o, name) then
      exists i: nat :: IsLast(o, name, i) && RelatedIds(c, s, o[i].1, asked)
    else
      t <= BACKWARDS_COMPATIBLE && c.dest.objects[c.dest.lookup[asked]].OptionNode?
  }

  /** The object that a payload stands for. */
  ghost predicate StandsFor(types: Types, payload: Payload, obj: nat) {
    match payload
    case Inline(there) => there == obj
    case Lookup(id) => id < |types.lookup| && types.lookup[id] == obj
  }

  ghost predicate RelatedPayloads(c: Chains, s: set<Pair>, o: Payload, d: Payload) {
    exists p: Pair :: p in s && StandsFor(c.origin, o, p.0) && StandsFor(c.dest, d, p.1)
  }

  /** The destination has the variant, and their payloads are related. */
  ghost predicate VariantFits(c: Chains, s: set<Pair>, o: (string, Payload), d: seq<(string, Payload)>) {
    exists j: nat :: IsLast(d, o.0, j) && RelatedPayloads(c, s, o.1, d[j].1)
  }

  ghost predicate StructFits(c: Chains, t: nat, s: set<Pair>, o: seq<(string, nat)>, d: seq<(string, nat)>)
    requires forall i :: 0 <= i < |o| ==> c.origin.Has(o[i].1)
    requires forall i :: 0 <= i < |d| ==> c.dest.Has(d[i].1)
  {
    && (t >= IDENTICAL ==> |o| == |d|)
    && forall i :: 0 <= i < |d| ==> FieldFits(c, t, s, o, d[i].0, d[i].1)
  }

  /** All variants fit; at the lowest level, some do. */
  ghost predicate EnumFits(c: Chains, t: nat, s: set<Pair>, o: seq<(string, Payload)>, d: seq<(string, Payload)>) {
    && (t >= IDENTICAL ==> |o| == |d|)
    && (o == []
        || (if t <= PARTIAL then exists i :: 0 <= i < |o| && VariantFits(c, s, o[i], d)
            else forall i :: 0 <= i < |o| ==> VariantFits(c, s, o[i], d)))
  }

  ghost predicate TupleFits(c: Chains, t: nat, s: set<Pair>, o: seq<nat>, d: seq<nat>)
    requires forall i :: 0 <= i < |o| ==> c.origin.Has(o[i])
    requires forall i :: 0 <= i < |d| ==> c.dest.Has(d[i])
  {
    && |o| >= |d| && (t >= IDENTICAL ==> |o| == |d|)
    && forall i: nat :: i < |d| && i < |o| ==> RelatedIds(c, s, o[i], d[i])
  }

  /** Two nodes agree at level `t` as far as their kinds go, and the parts that matter are related in `s`. */
  ghost predicate Agree(c: Chains, t: nat, s: set<Pair>, p: Pair)
    requires c.Valid() && c.HasPair(p)
  {
    assert c.origin.NodeOk(c.origin.objects[p.0]) && c.dest.NodeOk(c.dest.objects[p.1]);
    match (c.origin.objects[p.0], c.dest.objects[p.1])
    case (TerminalNode(o), TerminalNode(d)) => o == d
    case (BinaryNode(o), BinaryNode(d)) => LengthFits(t, o, d)
    case (ArrayNode(o, oLen), ArrayNode(d, dLen)) =>
      LengthFits(t, oLen, dLen) && RelatedIds(c, s, o, d)
    case (StructNode(o), StructNode(d)) => StructFits(c, t, s, o, d)
    case (TupleNode(o), TupleNode(d)) => TupleFits(c, t, s, o, d)
    case (EnumNode(o), EnumNode(d)) => EnumFits(c, t, s, o, d)
    case (ResultNode(oOk, oKo), ResultNode(dOk, dKo)) =>
      var ok := RelatedIds(c, s, oOk, dOk);
      var ko := RelatedIds(c, s, oKo, dKo);
      if t <= PARTIAL then ok || ko else ok && ko
    case (OptionNode(o), OptionNode(d)) => t <= PARTIAL || RelatedIds(c, s, o, d)
    case (OptionNode(o), _) => t <= PARTIAL && (c.origin.lookup[o], p.1) in s
    case (_, OptionNode(d)) => t <= BACKWARDS_COMPATIBLE && (p.0, c.dest.lookup[d]) in s
    case (_, _) => false
  }

  /** Whatever `s` relates agrees, given what `s` relates. */
  ghost predicate Closed(c: Chains, t: nat, s: set<Pair>)
    requires c.Valid()
  {
    forall p :: p in s ==> c.HasPair(p) && Agree(c, t, s, p)
  }

  /** Some closed relation at level `t` relates the pair. */
  ghost predicate Related(c: Chains, t: nat, p: Pair)
    requires c.Valid()
  {
    exists s :: Closed(c, t, s) && p in s
  }

  // ---------------------------------------------------- the equations say the same

  lemma LengthThreshold(t: nat, o: Option<nat>, d: Option<nat>)
    requires PARTIAL <= t <= IDENTICAL
    ensures CompareOptionalLengths(o, d) >= t <==> LengthFits(t, o, d)
  {
  }

  lemma FieldThreshold(c: Chains, t: nat, s: set<Pair>, o: seq<(string, nat)>, name: string, asked: nat)
    requires PARTIAL <= t <= IDENTICAL
    requires forall i :: 0 <= i < |o| ==> c.origin.Has(o[i].1)
    requires c.dest.Has(asked)
    ensures c.SatItem(t, s, Compare(c.Field(o, name), Some(c.dest.At(asked)))) <==> FieldFits(c, t, s, o, name, asked)
  {
    LastIsOne(o, name);
  }

  lemma StructThreshold(c: Chains, t: nat, s: set<Pair>, o: seq<(string, nat)>, d: seq<(string, nat)>)
    requires PARTIAL <= t <= IDENTICAL
    requires forall i :: 0 <= i < |o| ==> c.origin.Has(o[i].1)
    requires forall i :: 0 <= i < |d| ==> c.dest.Has(d[i].1)
    ensures c.SatPlan(t, s, c.StructPlan(o, d)) <==> StructFits(c, t, s, o, d)
  {
    var items := c.StructPlan(o, d).items;
    forall i | 0 <= i < |d| ensures c.SatItem(t, s, items[i]) <==> FieldFits(c, t, s, o, d[i].0, d[i].1) {
      FieldThreshold(c, t, s, o, d[i].0, d[i].1);
    }
    hide FieldFits, c.SatItem, c.Field;
  }

  lemma TupleThreshold(c: Chains, t: nat, s: set<Pair>, o: seq<nat>, d: seq<nat>)
    requires PARTIAL <= t <= IDENTICAL
    requires forall i :: 0 <= i < |o| ==> c.origin.Has(o[i])
    requires forall i :: 0 <= i < |d| ==> c.dest.Has(d[i])
    ensures c.SatPlan(t, s, c.TuplePlan(o, d)) <==> TupleFits(c, t, s, o, d)
  {
    var items := c.TuplePlan(o, d).items;
    forall i | 0 <= i < |d| ensures items[i + 1] == c.TupleItem(o, d[i], i) {
    }
    if c.SatAll(t, s, items) {
      assert c.SatItem(t, s, items[0]);
      forall i | 0 <= i < |d| ensures c.SatItem(t, s, c.TupleItem(o, d[i], i)) {
        assert c.SatItem(t, s, items[i + 1]);
      }
    } else if TupleFits(c, t, s, o, d) {
      forall i | 0 <= i < |items| ensures c.SatItem(t, s, items[i]) {
        assert i > 0 ==> items[i] == c.TupleItem(o, d[i - 1], i - 1);
      }
    }
  }

  lemma VariantThreshold(c: Chains, t: nat, s: set<Pair>, o: (string, Payload), d: seq<(string, Payload)>)
    requires PARTIAL <= t <= IDENTICAL
    requires c.origin.HasPayload(o.1)
    requires forall i :: 0 <= i < |d| ==> c.dest.HasPayload(d[i].1)
    ensures c.SatItem(t, s, c.VariantItem(o, d)) <==> VariantFits(c, s, o, d)
  {
    LastIsOne(d, o.0);
    var last := LastOf(d, o.0);
    if last.Some? {
      var p := (c.origin.Resolve(o.1), c.dest.Resolve(last.value));
      assert StandsFor(c.origin, o.1, p.0) && StandsFor(c.dest, last.value, p.1);
      forall q: Pair | StandsFor(c.origin, o.1, q.0) && StandsFor(c.dest, last.value, q.1) ensures q == p {
      }
    }
  }

  lemma EnumThreshold(c: Chains, t: nat, s: set<Pair>, o: seq<(string, Payload)>, d: seq<(string, Payload)>)
    requires PARTIAL <= t <= IDENTICAL
    requires forall i :: 0 <= i < |o| ==> c.origin.HasPayload(o[i].1)
    requires forall i :: 0 <= i < |d| ==> c.dest.HasPayload(d[i].1)
    ensures c.SatPlan(t, s, c.EnumPlan(o, d)) <==> EnumFits(c, t, s, o, d)
  {
    var items := c.EnumPlan(o, d).items;
    forall i | 0 <= i < |o| ensures c.SatItem(t, s, items[i]) <==> VariantFits(c, s, o[i], d) {
      VariantThreshold(c, t, s, o[i], d);
    }
    hide VariantFits, c.SatItem, c.VariantItem;
    if t <= PARTIAL && o != [] {
      if i :| 0 <= i < |o| && VariantFits(c, s, o[i], d) {
        assert c.SatItem(t, s, items[i]);
      }
      assert c.SatSome(t, s, items) <==> exists i :: 0 <= i < |o| && VariantFits(c, s, o[i], d);
    }
  }

  lemma ResultThreshold(c: Chains, t: nat, s: set<Pair>, ok: Pair, ko: Pair)
    requires c.HasPair(ok) && c.HasPair(ko)
    requires PARTIAL <= t <= IDENTICAL
    ensures var items := [Compare(Some(ok.0), Some(ok.1)), Compare(Some(ko.0), Some(ko.1))];
      c.SatPlan(t, s, Merged(items, IDENTICAL)) <==> if t <= PARTIAL then ok in s || ko in s else ok in s && ko in s
  {
    var items := [Compare(Some(ok.0), Some(ok.1)), Compare(Some(ko.0), Some(ko.1))];
    assert c.SatItem(t, s, items[0]) <==> ok in s;
    assert c.SatItem(t, s, items[1]) <==> ko in s;
  }

  lemma ArrayThreshold(c: Chains, t: nat, s: set<Pair>, oLen: Option<nat>, dLen: Option<nat>, p: Pair)
    requires c.HasPair(p) && PARTIAL <= t <= IDENTICAL
    ensures var items := [Known(CompareOptionalLengths(oLen, dLen)), Compare(Some(p.0), Some(p.1))];
      c.SatPlan(t, s, Strict(items, IDENTICAL)) <==> LengthFits(t, oLen, dLen) && p in s
  {
    var items := [Known(CompareOptionalLengths(oLen, dLen)), Compare(Some(p.0), Some(p.1))];
    assert c.SatItem(t, s, items[0]) <==> LengthFits(t, oLen, dLen);
    assert c.SatItem(t, s, items[1]) <==> p in s;
  }

  /** The plan of a pair asks for what makes the two nodes agree, at every level. */
  lemma PlanIsAgreement(c: Chains, t: nat, s: set<Pair>, p: Pair)
    requires c.Valid() && c.HasPair(p) && PARTIAL <= t <= IDENTICAL
    ensures c.SatPlan(t, s, c.PlanOf(p)) <==> Agree(c, t, s, p)
  {
    var c' := c;
    assert c.origin.NodeOk(c.origin.objects[p.0]) && c.dest.NodeOk(c.dest.objects[p.1]);
    hide c'.StructPlan, c'.TuplePlan, c'.EnumPlan, StructFits, TupleFits, EnumFits, LengthFits, CompareOptionalLengths;
    match (c.origin.objects[p.0], c.dest.objects[p.1])
    case (BinaryNode(o), BinaryNode(d)) => LengthThreshold(t, o, d);
    case (ArrayNode(o, oLen), ArrayNode(d, dLen)) =>
      ArrayThreshold(c, t, s, oLen, dLen, (c.origin.lookup[o], c.dest.lookup[d]));
    case (StructNode(o), StructNode(d)) => StructThreshold(c, t, s, o, d);
    case (TupleNode(o), TupleNode(d)) => TupleThreshold(c, t, s, o, d);
    case (EnumNode(o), EnumNode(d)) => EnumThreshold(c, t, s, o, d);
    case (ResultNode(oOk, oKo), ResultNode(dOk, dKo)) =>
      ResultThreshold(c, t, s, (c.origin.lookup[oOk], c.dest.lookup[dOk]),
                      (c.origin.lookup[oKo], c.dest.lookup[dKo]));
    case (_, _) =>
  }

  /** A pair reaches a level exactly if a closed relation at that level relates it. */
  lemma GreatestIsRelated(c: Chains, t: nat, p: Pair)
    requires c.Valid() && PARTIAL <= t <= IDENTICAL
    ensures c.Greatest(p) >= t <==> Related(c, t, p)
  {
    GreatestAtLeast(c, t, p);
    hide c.Greatest;
    if c.Holds(t, {}, p) {
      var s :| c.Supported(t, s, {}) && p in s;
      forall q | q in s ensures c.HasPair(q) && Agree(c, t, s, q) {
        SupportedPlan(c, t, s, {}, q);
        PlanIsAgreement(c, t, s, q);
      }
      ClosedRelates(c, t, s, p);
    }
    if Related(c, t, p) {
      var s :| Closed(c, t, s) && p in s;
      forall q | q in s ensures c.HasPair(q) && (q in {} || c.SatPlan(t, s, c.PlanOf(q))) {
        PlanIsAgreement(c, t, s, q);
      }
      SupportedHolds(c, t, s, {}, p);
    }
  }

  lemma ClosedRelates(c: Chains, t: nat, s: set<Pair>, p: Pair)
    requires c.Valid() && p in s
    requires forall q :: q in s ==> c.HasPair(q) && Agree(c, t, s, q)
    ensures Related(c, t, p)
  {
    assert Closed(c, t, s);
  }

  // ------------------------------------------------------------- a chain and itself

  /** No struct repeats a field, no enum a variant. */
  ghost predicate DistinctNames(n: Node) {
    match n
    case StructNode(fields) => DistinctKeys(fields)
    case EnumNode(variants) => DistinctKeys(variants)
    case _ => true
  }

  ghost predicate DistinctKeys<T(!new)>(entries: seq<(string, T)>) {
    forall i, j :: 0 <= i < j < |entries| ==> entries[i].0 != entries[j].0
  }

  ghost function Diagonal(types: Types): (s: set<Pair>) {
    set i | 0 <= i < |types.objects| :: (i, i)
  }

  lemma AgreesWithItself(types: Types, i: nat)
    requires types.Valid() && i < |types.objects| && DistinctNames(types.objects[i])
    ensures Agree(Chains(types, types), IDENTICAL, Diagonal(types), (i, i))
  {
    var c := Chains(types, types);
    var s := Diagonal(types);
    assert types.NodeOk(types.objects[i]);
    match types.objects[i]
    case StructNode(fields) =>
      forall k | 0 <= k < |fields| ensures FieldFits(c, IDENTICAL, s, fields, fields[k].0, fields[k].1) {
        assert IsLast(fields, fields[k].0, k);
      }
    case EnumNode(variants) =>
      forall k | 0 <= k < |variants| ensures VariantFits(c, s, variants[k], variants) {
        PayloadOfItself(types, variants[k].1);
        assert IsLast(variants, variants[k].0, k);
      }
    case _ =>
  }

  lemma PayloadOfItself(types: Types, payload: Payload)
    requires types.HasPayload(payload)
    ensures RelatedPayloads(Chains(types, types), Diagonal(types), payload, payload)
  {
    var obj := types.Resolve(payload);
    assert (obj, obj) in Diagonal(types);
    assert StandsFor(types, payload, (obj, obj).0) && StandsFor(types, payload, (obj, obj).1);
  }

  /** A chain compared with itself is identical throughout, cycles included. */
  lemma SameChainIsIdentical(types: Types, i: nat)
    requires types.Valid() && i < |types.objects|
    requires forall k :: 0 <= k < |types.objects| ==> DistinctNames(types.objects[k])
    ensures Chains(types, types).Greatest((i, i)) == IDENTICAL
  {
    var c := Chains(types, types);
    var s := Diagonal(types);
    forall q | q in s ensures c.HasPair(q) && Agree(c, IDENTICAL, s, q) {
      AgreesWithItself(types, q.0);
    }
    ClosedRelates(c, IDENTICAL, s, (i, i));
    GreatestIsRelated(c, IDENTICAL, (i, i));
  }
}
