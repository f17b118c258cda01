/** The level equations of static compatibility, and their greatest solution. */
module CompatibilityPlan {
  import opened Basics
  import opened TypeDefs

  /** Incompatible, Partial, BackwardsCompatible and Identical, as the numbers 0 to 3. */
  const INCOMPATIBLE: nat := 0
  const PARTIAL: nat := 1
  const BACKWARDS_COMPATIBLE: nat := 2
  const IDENTICAL: nat := 3

  /** A comparison to make: a known level, or two nodes, either of which may be missing. */
  datatype Item = Known(level: nat) | Compare(origin: Option<nat>, dest: Option<nat>)

  /** How the level of a pair of nodes follows from the comparisons of their parts. */
  datatype Plan =
    | Fixed(level: nat)
    | AtMost(item: Item, cap: nat)
    | AtLeast(item: Item, floor: nat)
    | Strict(items: seq<Item>, cap: nat)
    | Merged(items: seq<Item>, cap: nat)

  function Min(a: nat, b: nat): nat { if a < b then a else b }

  function Max(a: nat, b: nat): nat { if a < b then b else a }

  function CompareArrayLengths(origin: nat, dest: nat): nat {
    if dest == origin then IDENTICAL
    else if origin >= dest then BACKWARDS_COMPATIBLE
    else INCOMPATIBLE
  }

  function CompareOptionalLengths(origin: Option<nat>, dest: Option<nat>): nat {
    if dest == origin then IDENTICAL
    else if dest.None? || (origin.Some? && origin.value >= dest.value) then BACKWARDS_COMPATIBLE
    else if origin.None? then PARTIAL
    else INCOMPATIBLE
  }

  type Pair = (nat, nat)

  /** Two chains to compare: `origin` provides the values, `dest` receives them. */
  datatype Chains = Chains(origin: Types, dest: Types) {

    ghost predicate Valid() {
      origin.Valid() && dest.Valid()
    }

    predicate HasPair(p: Pair) {
      p.0 < |origin.objects| && p.1 < |dest.objects|
    }

    predicate ItemOk(item: Item) {
      match item
      case Known(level) => level <= IDENTICAL
      case Compare(o, d) =>
        && (o.Some? ==> o.value < |origin.objects|)
        && (d.Some? ==> d.value < |dest.objects|)
    }

    ghost predicate ItemsOk(items: seq<Item>) {
      forall i :: 0 <= i < |items| ==> ItemOk(items[i])
    }

    ghost predicate PlanOk(plan: Plan) {
      match plan
      case Fixed(level) => level <= IDENTICAL
      case AtMost(item, cap) => ItemOk(item) && cap <= IDENTICAL
      case AtLeast(item, floor) => ItemOk(item) && floor <= IDENTICAL
      case Strict(items, cap) => ItemsOk(items) && cap <= IDENTICAL
      case Merged(items, cap) => ItemsOk(items) && cap <= IDENTICAL
    }

    function Field(fields: seq<(string, nat)>, key: string): (r: Option<nat>)
      requires forall i :: 0 <= i < |fields| ==> origin.Has(fields[i].1)
      ensures r.Some? ==> r.value < |origin.objects|
    {
      var f := LastOf(fields, key);
      if f.Some? then Some(origin.At(f.value)) else None
    }

    function VariantItem(variant: (string, Payload), destVariants: seq<(string, Payload)>): (item: Item)
      requires origin.HasPayload(variant.1)
      requires forall i :: 0 <= i < |destVariants| ==> dest.HasPayload(destVariants[i].1)
      ensures ItemOk(item)
    {
      var d := LastOf(destVariants, variant.0);
      if d.Some? then Compare(Some(origin.Resolve(variant.1)), Some(dest.Resolve(d.value))) else Known(INCOMPATIBLE)
    }

    function TupleItem(items: seq<nat>, destId: nat, idx: nat): (item: Item)
      requires forall i :: 0 <= i < |items| ==> origin.Has(items[i])
      requires dest.Has(destId)
      ensures ItemOk(item)
    {
      Compare(if idx < |items| then Some(origin.At(items[idx])) else None, Some(dest.At(destId)))
    }

    function EnumPlan(o: seq<(string, Payload)>, d: seq<(string, Payload)>): (plan: Plan)
      requires forall i :: 0 <= i < |o| ==> origin.HasPayload(o[i].1)
      requires forall i :: 0 <= i < |d| ==> dest.HasPayload(d[i].1)
      ensures PlanOk(plan)
    {
      Merged(seq(|o|, i requires 0 <= i < |o| => VariantItem(o[i], d)),
             if |o| == |d| then IDENTICAL else BACKWARDS_COMPATIBLE)
    }

    function StructPlan(o: seq<(string, nat)>, d: seq<(string, nat)>): (plan: Plan)
      requires forall i :: 0 <= i < |o| ==> origin.Has(o[i].1)
      requires forall i :: 0 <= i < |d| ==> dest.Has(d[i].1)
      ensures PlanOk(plan)
    {
      Strict(seq(|d|, i requires 0 <= i < |d| => Compare(Field(o, d[i].0), Some(dest.At(d[i].1)))),
             if |o| == |d| then IDENTICAL else BACKWARDS_COMPATIBLE)
    }

    function TuplePlan(o: seq<nat>, d: seq<nat>): (plan: Plan)
      requires forall i :: 0 <= i < |o| ==> origin.Has(o[i])
      requires forall i :: 0 <= i < |d| ==> dest.Has(d[i])
      ensures PlanOk(plan)
    {
      Strict([Known(CompareArrayLengths(|o|, |d|))] + seq(|d|, i requires 0 <= i < |d| => TupleItem(o, d[i], i)),
             IDENTICAL)
    }

    /** The comparisons that decide the level of a pair of nodes. */
    function PlanOf(p: Pair): (plan: Plan)
      requires Valid() && HasPair(p)
      ensures PlanOk(plan)
    {
      assert origin.NodeOk(origin.objects[p.0]) && dest.NodeOk(dest.objects[p.1]);
      match (origin.objects[p.0], dest.objects[p.1])
      case (TerminalNode(o), TerminalNode(d)) =>
        Fixed(if o == d then IDENTICAL else INCOMPATIBLE)
      case (BinaryNode(o), BinaryNode(d)) =>
        Fixed(CompareOptionalLengths(o, d))
      case (ArrayNode(o, oLen), ArrayNode(d, dLen)) =>
        Strict([Known(CompareOptionalLengths(oLen, dLen)), Compare(Some(origin.At(o)), Some(dest.At(d)))], IDENTICAL)
      case (EnumNode(o), EnumNode(d)) =>
        EnumPlan(o, d)
      case (OptionNode(o), OptionNode(d)) =>
        AtLeast(Compare(Some(origin.At(o)), Some(dest.At(d))), PARTIAL)
      case (StructNode(o), StructNode(d)) =>
        StructPlan(o, d)
      case (TupleNode(o), TupleNode(d)) =>
        TuplePlan(o, d)
      case (ResultNode(oOk, oKo), ResultNode(dOk, dKo)) =>
        Merged([Compare(Some(origin.At(oOk)), Some(dest.At(dOk))),
                Compare(Some(origin.At(oKo)), Some(dest.At(dKo)))], IDENTICAL)
      case (_, OptionNode(d)) =>
        AtMost(Compare(Some(p.0), Some(dest.At(d))), BACKWARDS_COMPATIBLE)
      case (OptionNode(o), _) =>
        AtMost(Compare(Some(origin.At(o)), Some(p.1)), PARTIAL)
      case (_, _) => Fixed(INCOMPATIBLE)
    }

    // ------------------------------------------------------------ levels

    /** The level of a comparison in which a node is missing. */
    function MissingLevel(o: Option<nat>, d: Option<nat>): nat
      requires ItemOk(Compare(o, d)) && (o.None? || d.None?)
    {
      if d.None? && o.None? then IDENTICAL
      else if d.None? then BACKWARDS_COMPATIBLE
      else if dest.objects[d.value].OptionNode? then BACKWARDS_COMPATIBLE
      else INCOMPATIBLE
    }

    ghost function ItemLevel(x: Pair -> nat, item: Item): nat
      requires ItemOk(item)
    {
      match item
      case Known(level) => level
      case Compare(o, d) => if o.Some? && d.Some? then x((o.value, d.value)) else MissingLevel(o, d)
    }

    /** The strictest of the levels. */
    ghost function StrictLevel(x: Pair -> nat, items: seq<Item>): nat
      requires ItemsOk(items)
    {
      if items == [] then IDENTICAL
      else Min(StrictLevel(x, items[..|items| - 1]), ItemLevel(x, items[|items| - 1]))
    }

    /** The strictest of the levels, an incompatible one counting as partial. */
    ghost function LenientLevel(x: Pair -> nat, items: seq<Item>): nat
      requires ItemsOk(items)
    {
      if items == [] then IDENTICAL
      else Min(LenientLevel(x, items[..|items| - 1]), Max(ItemLevel(x, items[|items| - 1]), PARTIAL))
    }

    ghost predicate NoneCompatible(x: Pair -> nat, items: seq<Item>)
      requires ItemsOk(items)
    {
      forall i :: 0 <= i < |items| ==> ItemLevel(x, items[i]) == INCOMPATIBLE
    }

    ghost function MergedLevel(x: Pair -> nat, items: seq<Item>): nat
      requires ItemsOk(items)
    {
      if items != [] && NoneCompatible(x, items) then INCOMPATIBLE else LenientLevel(x, items)
    }

    /** The right-hand side of the equation for a plan. */
    ghost function PlanLevel(x: Pair -> nat, plan: Plan): nat
      requires PlanOk(plan)
    {
      match plan
      case Fixed(level) => level
      case AtMost(item, cap) => Min(ItemLevel(x, item), cap)
      case AtLeast(item, floor) => Max(ItemLevel(x, item), floor)
      case Strict(items, cap) => Min(StrictLevel(x, items), cap)
      case Merged(items, cap) => Min(MergedLevel(x, items), cap)
    }

    /** `x` solves every equation. */
    ghost predicate IsSolution(x: Pair -> nat)
      requires Valid()
    {
      forall p: Pair :: HasPair(p) ==> x(p) == PlanLevel(x, PlanOf(p))
    }

    // -------------------------------------------------------- thresholds

    /** The comparison reaches level `t` if the pairs in `s` do. */
    ghost predicate SatItem(t: nat, s: set<Pair>, item: Item)
      requires ItemOk(item)
    {
      match item
      case Known(level) => level >= t
      case Compare(o, d) => if o.Some? && d.Some? then (o.value, d.value) in s else MissingLevel(o, d) >= t
    }

    ghost predicate SatAll(t: nat, s: set<Pair>, items: seq<Item>)
      requires ItemsOk(items)
    {
      forall i :: 0 <= i < |items| ==> SatItem(t, s, items[i])
    }

    ghost predicate SatSome(t: nat, s: set<Pair>, items: seq<Item>)
      requires ItemsOk(items)
    {
      exists i :: 0 <= i < |items| && SatItem(t, s, items[i])
    }

    ghost predicate SatMerged(t: nat, s: set<Pair>, items: seq<Item>)
      requires ItemsOk(items)
    {
      items == [] || (if t <= PARTIAL then SatSome(t, s, items) else SatAll(t, s, items))
    }

    ghost predicate SatPlan(t: nat, s: set<Pair>, plan: Plan)
      requires PlanOk(plan)
    {
      match plan
      case Fixed(level) => level >= t
      case AtMost(item, cap) => cap >= t && SatItem(t, s, item)
      case AtLeast(item, floor) => floor >= t || SatItem(t, s, item)
      case Strict(items, cap) => cap >= t && SatAll(t, s, items)
      case Merged(items, cap) => cap >= t && SatMerged(t, s, items)
    }

    /** Outside `assumed`, every pair of `s` reaches level `t` if the pairs in `s` do. */
    ghost predicate Supported(t: nat, s: set<Pair>, assumed: set<Pair>)
      requires Valid()
    {
      forall p :: p in s ==> HasPair(p) && (p in assumed || SatPlan(t, s, PlanOf(p)))
    }

    /** `p` reaches level `t` once the pairs in `assumed` are taken to. */
    ghost predicate Holds(t: nat, assumed: set<Pair>, p: Pair)
      requires Valid()
    {
      exists s :: Supported(t, s, assumed) && p in s
    }

    ghost function AllPairs(): set<Pair> {
      set o, d | 0 <= o < |origin.objects| && 0 <= d < |dest.objects| :: (o, d)
    }

    /** Every pair that reaches level `t` under the assumptions. */
    ghost function Largest(t: nat, assumed: set<Pair>): set<Pair>
      requires Valid()
    {
      set p | p in AllPairs() && Holds(t, assumed, p)
    }

    /** The greatest solution of the level equations. */
    ghost function Greatest(p: Pair): nat
      requires Valid()
    {
      if Holds(IDENTICAL, {}, p) then IDENTICAL
      else if Holds(BACKWARDS_COMPATIBLE, {}, p) then BACKWARDS_COMPATIBLE
      else if Holds(PARTIAL, {}, p) then PARTIAL
      else INCOMPATIBLE
    }
  }

  // ------------------------------------------------------------- monotonicity

  lemma SatPlanMonotone(c: Chains, t: nat, s: set<Pair>, s': set<Pair>, plan: Plan)
    requires c.PlanOk(plan) && s <= s' && c.SatPlan(t, s, plan)
    ensures c.SatPlan(t, s', plan)
  {
    if plan.Merged? && plan.items != [] && t <= PARTIAL {
      var i :| 0 <= i < |plan.items| && c.SatItem(t, s, plan.items[i]);
      assert c.SatItem(t, s', plan.items[i]);
    }
  }

  lemma HoldsMore(c: Chains, t: nat, a: set<Pair>, a': set<Pair>, p: Pair)
    requires c.Valid() && a <= a' && c.Holds(t, a, p)
    ensures c.Holds(t, a', p)
  {
    var s :| c.Supported(t, s, a) && p in s;
    assert c.Supported(t, s, a');
  }

  lemma LargestGrows(c: Chains, t: nat, a: set<Pair>, a': set<Pair>)
    requires c.Valid() && a <= a'
    ensures c.Largest(t, a) <= c.Largest(t, a')
  {
    forall p | p in c.Largest(t, a) ensures p in c.Largest(t, a') {
      HoldsMore(c, t, a, a', p);
    }
  }

  lemma SupportedInLargest(c: Chains, t: nat, s: set<Pair>, a: set<Pair>)
    requires c.Valid() && c.Supported(t, s, a)
    ensures s <= c.Largest(t, a)
  {
    forall p | p in s ensures p in c.Largest(t, a) {
      assert c.HasPair(p) && p == (p.0, p.1);
      assert c.Holds(t, a, p);
    }
  }

  /** The union of all supported sets is supported. */
  lemma LargestSupported(c: Chains, t: nat, a: set<Pair>)
    requires c.Valid()
    ensures c.Supported(t, c.Largest(t, a), a)
  {
    var big := c.Largest(t, a);
    forall p | p in big ensures c.HasPair(p) && (p in a || c.SatPlan(t, big, c.PlanOf(p))) {
      var s :| c.Supported(t, s, a) && p in s;
      SupportedInLargest(c, t, s, a);
      if p !in a {
        SatPlanMonotone(c, t, s, big, c.PlanOf(p));
      }
    }
  }

  /** Once the plan of `p` is satisfied, `p` need not be assumed any more. */
  lemma Discharge(c: Chains, t: nat, a: set<Pair>, p: Pair)
    requires c.Valid() && c.HasPair(p)
    requires c.SatPlan(t, c.Largest(t, a), c.PlanOf(p))
    ensures c.Holds(t, a - {p}, p)
  {
    var big := c.Largest(t, a);
    var s := big + {p};
    LargestSupported(c, t, a);
    hide *;
    forall q | q in s ensures c.HasPair(q) && (q in a - {p} || c.SatPlan(t, s, c.PlanOf(q))) {
      if q == p {
        SatPlanMonotone(c, t, big, s, c.PlanOf(q));
      } else if q !in a {
        SupportedPlan(c, t, big, a, q);
        SatPlanMonotone(c, t, big, s, c.PlanOf(q));
      } else {
        SupportedPlan(c, t, big, a, q);
      }
    }
    SupportedHolds(c, t, s, a - {p}, p);
  }

  lemma SupportedPlan(c: Chains, t: nat, s: set<Pair>, a: set<Pair>, p: Pair)
    requires c.Valid() && c.Supported(t, s, a) && p in s
    ensures c.HasPair(p) && (p in a || c.SatPlan(t, s, c.PlanOf(p)))
  {
  }

  lemma SupportedHolds(c: Chains, t: nat, s: set<Pair>, a: set<Pair>, p: Pair)
    requires c.Valid() && p in s
    requires forall q :: q in s ==> c.HasPair(q) && (q in a || c.SatPlan(t, s, c.PlanOf(q)))
    ensures c.Holds(t, a, p)
  {
    assert c.Supported(t, s, a);
  }

  // --------------------------------------------------------------- thresholds

  /** `s` is the set of pairs that `x` puts at level `t` or above. */
  ghost predicate IsCut(c: Chains, t: nat, x: Pair -> nat, s: set<Pair>) {
    forall p :: c.HasPair(p) ==> (p in s <==> x(p) >= t)
  }

  lemma ItemThreshold(c: Chains, t: nat, x: Pair -> nat, s: set<Pair>, item: Item)
    requires c.ItemOk(item) && IsCut(c, t, x, s)
    ensures c.ItemLevel(x, item) >= t <==> c.SatItem(t, s, item)
  {
  }

  lemma {:induction false} StrictThreshold(c: Chains, t: nat, x: Pair -> nat, s: set<Pair>, items: seq<Item>)
    requires c.ItemsOk(items) && IsCut(c, t, x, s) && t <= IDENTICAL
    ensures c.StrictLevel(x, items) >= t <==> c.SatAll(t, s, items)
  {
    if items != [] {
      var n := |items| - 1;
      StrictThreshold(c, t, x, s, items[..n]);
      ItemThreshold(c, t, x, s, items[n]);
      assert items == items[..n] + [items[n]];
    }
  }

  lemma {:induction false} LenientThreshold(c: Chains, t: nat, x: Pair -> nat, s: set<Pair>, items: seq<Item>)
    requires c.ItemsOk(items) && IsCut(c, t, x, s) && PARTIAL <= t <= IDENTICAL
    ensures c.LenientLevel(x, items) >= PARTIAL
    ensures t > PARTIAL ==> (c.LenientLevel(x, items) >= t <==> c.SatAll(t, s, items))
  {
    if items != [] {
      var n := |items| - 1;
      LenientThreshold(c, t, x, s, items[..n]);
      ItemThreshold(c, t, x, s, items[n]);
      assert items == items[..n] + [items[n]];
    }
  }

  lemma MergedThreshold(c: Chains, t: nat, x: Pair -> nat, s: set<Pair>, items: seq<Item>)
    requires c.ItemsOk(items) && IsCut(c, t, x, s) && PARTIAL <= t <= IDENTICAL
    ensures c.MergedLevel(x, items) >= t <==> c.SatMerged(t, s, items)
  {
    LenientThreshold(c, t, x, s, items);
    forall i | 0 <= i < |items| ensures c.ItemLevel(x, items[i]) >= t <==> c.SatItem(t, s, items[i]) {
      ItemThreshold(c, t, x, s, items[i]);
    }
    hide *;
    MergedCases(c, t, x, s, items);
  }

  lemma MergedCases(c: Chains, t: nat, x: Pair -> nat, s: set<Pair>, items: seq<Item>)
    requires c.ItemsOk(items) && PARTIAL <= t <= IDENTICAL
    requires c.LenientLevel(x, items) >= PARTIAL
    requires t > PARTIAL ==> (c.LenientLevel(x, items) >= t <==> c.SatAll(t, s, items))
    requires forall i :: 0 <= i < |items| ==> (c.ItemLevel(x, items[i]) >= t <==> c.SatItem(t, s, items[i]))
    ensures c.MergedLevel(x, items) >= t <==> c.SatMerged(t, s, items)
  {
    if items != [] {
      assert c.ItemLevel(x, items[0]) >= t <==> c.SatItem(t, s, items[0]);
      if t == PARTIAL && !c.NoneCompatible(x, items) {
        var i :| 0 <= i < |items| && c.ItemLevel(x, items[i]) != INCOMPATIBLE;
        assert c.SatItem(t, s, items[i]);
      }
    }
  }

  /** Every combinator of the level equations commutes with thresholds. */
  lemma PlanThreshold(c: Chains, t: nat, x: Pair -> nat, s: set<Pair>, plan: Plan)
    requires c.PlanOk(plan) && IsCut(c, t, x, s) && PARTIAL <= t <= IDENTICAL
    ensures c.PlanLevel(x, plan) >= t <==> c.SatPlan(t, s, plan)
  {
    match plan
    case Fixed(_) =>
    case AtMost(item, _) => ItemThreshold(c, t, x, s, item);
    case AtLeast(item, _) => ItemThreshold(c, t, x, s, item);
    case Strict(items, _) => StrictThreshold(c, t, x, s, items);
    case Merged(items, _) => MergedThreshold(c, t, x, s, items);
  }

  // ------------------------------------------------------ the greatest solution

  lemma SatPlanLower(c: Chains, t: nat, t': nat, s: set<Pair>, plan: Plan)
    requires c.PlanOk(plan) && t <= t' && c.SatPlan(t', s, plan)
    ensures c.SatPlan(t, s, plan)
  {
    if plan.Merged? && plan.items != [] && t <= PARTIAL < t' {
      assert c.SatItem(t', s, plan.items[0]);
      assert c.SatItem(t, s, plan.items[0]);
    } else if plan.Merged? && plan.items != [] && t' <= PARTIAL {
      var i :| 0 <= i < |plan.items| && c.SatItem(t', s, plan.items[i]);
      assert c.SatItem(t, s, plan.items[i]);
    }
  }

  lemma HoldsLower(c: Chains, t: nat, t': nat, a: set<Pair>, p: Pair)
    requires c.Valid() && t <= t' && c.Holds(t', a, p)
    ensures c.Holds(t, a, p)
  {
    var s :| c.Supported(t', s, a) && p in s;
    forall q | q in s ensures c.HasPair(q) && (q in a || c.SatPlan(t, s, c.PlanOf(q))) {
      if q !in a {
        SatPlanLower(c, t, t', s, c.PlanOf(q));
      }
    }
    SupportedHolds(c, t, s, a, p);
  }

  lemma GreatestAtLeast(c: Chains, t: nat, p: Pair)
    requires c.Valid() && PARTIAL <= t <= IDENTICAL
    ensures c.Greatest(p) >= t <==> c.Holds(t, {}, p)
  {
    hide c.Holds;
    if c.Holds(IDENTICAL, {}, p) {
      HoldsLower(c, t, IDENTICAL, {}, p);
    }
    if c.Holds(BACKWARDS_COMPATIBLE, {}, p) && t <= BACKWARDS_COMPATIBLE {
      HoldsLower(c, t, BACKWARDS_COMPATIBLE, {}, p);
    }
  }

  lemma HoldsIffPlan(c: Chains, t: nat, p: Pair)
    requires c.Valid() && c.HasPair(p)
    ensures c.Holds(t, {}, p) <==> c.SatPlan(t, c.Largest(t, {}), c.PlanOf(p))
  {
    LargestSupported(c, t, {});
    assert p == (p.0, p.1) && p in c.AllPairs();
    if c.SatPlan(t, c.Largest(t, {}), c.PlanOf(p)) {
      Discharge(c, t, {}, p);
      assert {} - {p} == {};
    }
  }

  lemma LargestIsCut(c: Chains, t: nat)
    requires c.Valid() && PARTIAL <= t <= IDENTICAL
    ensures IsCut(c, t, p => c.Greatest(p), c.Largest(t, {}))
  {
    forall p: Pair | c.HasPair(p) ensures p in c.Largest(t, {}) <==> c.Greatest(p) >= t {
      GreatestAtLeast(c, t, p);
      assert p == (p.0, p.1) && p in c.AllPairs();
    }
  }

  lemma PlanLevelBounded(c: Chains, x: Pair -> nat, plan: Plan)
    requires c.PlanOk(plan)
    requires forall p: Pair :: c.HasPair(p) ==> x(p) <= IDENTICAL
    ensures c.PlanLevel(x, plan) <= IDENTICAL
  {
  }

  lemma GreatestAtThreshold(c: Chains, t: nat, p: Pair)
    requires c.Valid() && c.HasPair(p) && PARTIAL <= t <= IDENTICAL
    ensures c.Greatest(p) >= t <==> c.PlanLevel(q => c.Greatest(q), c.PlanOf(p)) >= t
  {
    GreatestAtLeast(c, t, p);
    HoldsIffPlan(c, t, p);
    LargestIsCut(c, t);
    PlanThreshold(c, t, q => c.Greatest(q), c.Largest(t, {}), c.PlanOf(p));
  }

  /** The greatest levels solve the level equations. */
  lemma GreatestIsSolution(c: Chains)
    requires c.Valid()
    ensures c.IsSolution(p => c.Greatest(p))
  {
    var x := (p: Pair) => c.Greatest(p);
    forall p: Pair | c.HasPair(p) ensures x(p) == c.PlanLevel(x, c.PlanOf(p)) {
      hide c.Holds, c.PlanLevel, c.PlanOf;
      GreatestAtThreshold(c, PARTIAL, p);
      GreatestAtThreshold(c, BACKWARDS_COMPATIBLE, p);
      GreatestAtThreshold(c, IDENTICAL, p);
      PlanLevelBounded(c, x, c.PlanOf(p));
    }
  }

  /** No other solution, nor any assignment the equations support, exceeds the greatest one. */
  lemma GreatestIsGreatest(c: Chains, x: Pair -> nat, p: Pair)
    requires c.Valid() && c.HasPair(p)
    requires forall q: Pair :: c.HasPair(q) ==> x(q) <= IDENTICAL && x(q) <= c.PlanLevel(x, c.PlanOf(q))
    ensures x(p) <= c.Greatest(p)
  {
    var t := x(p);
    if t >= PARTIAL {
      var s := set q | q in c.AllPairs() && x(q) >= t;
      forall q: Pair | c.HasPair(q) ensures q in s <==> x(q) >= t {
        assert q == (q.0, q.1) && q in c.AllPairs();
      }
      forall q | q in s ensures c.HasPair(q) && c.SatPlan(t, s, c.PlanOf(q)) {
        PlanThreshold(c, t, x, s, c.PlanOf(q));
      }
      SupportedHolds(c, t, s, {}, p);
      GreatestAtLeast(c, t, p);
    }
  }
}
