/** The memoised depth-first comparison of two type graphs. */
module StaticCompatible {
  import opened Basics
  import opened TypeDefs
  import opened CompatibilityPlan
  import opened ComparableTypes
  import opened DoubleSets

  // ------------------------------------------------------ what an answer means

  /** At threshold `t`, level `l` is what the plan of `item` gives, up to the assumptions in `a`. */
  ghost predicate ItemAt(c: Chains, t: nat, l: nat, a: set<Pair>, item: Item)
    requires c.Valid() && c.ItemOk(item)
  {
    && (l >= t ==> c.SatItem(t, c.Largest(t, a), item))
    && (c.SatItem(t, c.Largest(t, {}), item) ==> l >= t)
  }

  ghost predicate ItemAnswer(c: Chains, l: nat, a: set<Pair>, item: Item)
    requires c.Valid() && c.ItemOk(item)
  {
    l <= IDENTICAL && ItemAt(c, 1, l, a, item) && ItemAt(c, 2, l, a, item) && ItemAt(c, 3, l, a, item)
  }

  ghost predicate PlanAt(c: Chains, t: nat, l: nat, a: set<Pair>, plan: Plan)
    requires c.Valid() && c.PlanOk(plan)
  {
    && (l >= t ==> c.SatPlan(t, c.Largest(t, a), plan))
    && (c.SatPlan(t, c.Largest(t, {}), plan) ==> l >= t)
  }

  ghost predicate PlanAnswer(c: Chains, l: nat, a: set<Pair>, plan: Plan)
    requires c.Valid() && c.PlanOk(plan)
  {
    l <= IDENTICAL && PlanAt(c, 1, l, a, plan) && PlanAt(c, 2, l, a, plan) && PlanAt(c, 3, l, a, plan)
  }

  lemma SatItemGrows(c: Chains, t: nat, a: set<Pair>, a': set<Pair>, item: Item)
    requires c.Valid() && c.ItemOk(item) && a <= a' && c.SatItem(t, c.Largest(t, a), item)
    ensures c.SatItem(t, c.Largest(t, a'), item)
  {
    LargestGrows(c, t, a, a');
    hide c.Largest;
  }

  /** More assumptions weaken an answer. */
  lemma ItemAnswerWeaker(c: Chains, l: nat, a: set<Pair>, a': set<Pair>, item: Item)
    requires c.Valid() && c.ItemOk(item) && a <= a' && ItemAnswer(c, l, a, item)
    ensures ItemAnswer(c, l, a', item)
  {
    hide c.SatItem, c.Largest;
    if l >= 1 { SatItemGrows(c, 1, a, a', item); }
    if l >= 2 { SatItemGrows(c, 2, a, a', item); }
    if l >= 3 { SatItemGrows(c, 3, a, a', item); }
  }

  lemma ItemAnswerZero(c: Chains, a: set<Pair>, a': set<Pair>, item: Item)
    requires c.Valid() && c.ItemOk(item) && ItemAnswer(c, 0, a, item)
    ensures ItemAnswer(c, 0, a', item)
  {
    hide c.SatItem, c.Largest;
  }

  lemma KnownAnswer(c: Chains, l: nat, a: set<Pair>)
    requires c.Valid() && l <= IDENTICAL
    ensures ItemAnswer(c, l, a, Known(l))
  {
  }

  lemma MissingAnswer(c: Chains, o: Option<nat>, d: Option<nat>, a: set<Pair>)
    requires c.Valid() && c.ItemOk(Compare(o, d)) && (o.None? || d.None?)
    ensures ItemAnswer(c, c.MissingLevel(o, d), a, Compare(o, d))
  {
  }

  lemma AssumedAnswer(c: Chains, p: Pair, a: set<Pair>)
    requires c.Valid() && c.HasPair(p) && p in a
    ensures ItemAnswer(c, IDENTICAL, a, Compare(Some(p.0), Some(p.1)))
  {
    AssumedHolds(c, 1, p, a);
    AssumedHolds(c, 2, p, a);
    AssumedHolds(c, 3, p, a);
    hide c.Largest;
  }

  lemma AssumedHolds(c: Chains, t: nat, p: Pair, a: set<Pair>)
    requires c.Valid() && c.HasPair(p) && p in a
    ensures p in c.Largest(t, a) && p == (p.0, p.1)
  {
    SupportedHolds(c, t, {p}, a, p);
    assert p == (p.0, p.1) && p in c.AllPairs();
  }

  lemma GreatestAnswer(c: Chains, p: Pair, a: set<Pair>)
    requires c.Valid() && c.HasPair(p)
    ensures ItemAnswer(c, c.Greatest(p), a, Compare(Some(p.0), Some(p.1)))
  {
    hide c.Largest, c.Holds, ItemAt;
    GreatestAnswerAt(c, 1, p, a);
    GreatestAnswerAt(c, 2, p, a);
    GreatestAnswerAt(c, 3, p, a);
  }

  lemma GreatestAnswerAt(c: Chains, t: nat, p: Pair, a: set<Pair>)
    requires c.Valid() && c.HasPair(p) && 1 <= t <= 3
    ensures ItemAt(c, t, c.Greatest(p), a, Compare(Some(p.0), Some(p.1)))
  {
    LargestIsCut(c, t);
    assert p == (p.0, p.1);
    LargestGrows(c, t, {}, a);
    hide c.Largest, c.Holds, c.Greatest;
  }

  /** An answer that depends on no assumption is the greatest level. */
  lemma AnswerIsGreatest(c: Chains, l: nat, p: Pair)
    requires c.Valid() && c.HasPair(p)
    requires ItemAnswer(c, l, {}, Compare(Some(p.0), Some(p.1)))
    ensures l == c.Greatest(p)
  {
    LargestIsCut(c, 1);
    LargestIsCut(c, 2);
    LargestIsCut(c, 3);
    assert p == (p.0, p.1);
    hide c.Largest, c.Holds;
  }

  /** So is an answer of Incompatible, whatever it assumes. */
  lemma AnswerIsFinal(c: Chains, l: nat, assumed: set<Pair>, pending: set<Pair>, p: Pair)
    requires c.Valid() && c.HasPair(p)
    requires ItemAnswer(c, l, assumed * pending, Compare(Some(p.0), Some(p.1)))
    requires assumed == {} || l == INCOMPATIBLE
    ensures l == c.Greatest(p)
  {
    hide ItemAnswer, c.Greatest;
    if l == INCOMPATIBLE {
      ItemAnswerZero(c, assumed * pending, {}, Compare(Some(p.0), Some(p.1)));
    } else {
      assert assumed * pending == {};
    }
    AnswerIsGreatest(c, l, p);
  }

  lemma FinishAt(c: Chains, t: nat, l: nat, a: set<Pair>, a': set<Pair>, p: Pair)
    requires c.Valid() && c.HasPair(p) && 1 <= t <= 3
    requires PlanAt(c, t, l, a, c.PlanOf(p)) && a - {p} <= a'
    ensures ItemAt(c, t, l, a', Compare(Some(p.0), Some(p.1)))
  {
    assert p == (p.0, p.1) && p in c.AllPairs();
    HoldsIffPlan(c, t, p);
    hide c.PlanOf, c.SatPlan;
    if l >= t {
      Discharge(c, t, a, p);
      HoldsMore(c, t, a - {p}, a', p);
    }
    hide c.Holds;
  }

  /** The answer for the plan of `p`, which may assume `p`, answers for `p` without that assumption. */
  lemma Finish(c: Chains, l: nat, a: set<Pair>, a': set<Pair>, p: Pair)
    requires c.Valid() && c.HasPair(p)
    requires PlanAnswer(c, l, a, c.PlanOf(p)) && a - {p} <= a'
    ensures ItemAnswer(c, l, a', Compare(Some(p.0), Some(p.1)))
  {
    hide ItemAt, PlanAt, c.PlanOf;
    FinishAt(c, 1, l, a, a', p);
    FinishAt(c, 2, l, a, a', p);
    FinishAt(c, 3, l, a, a', p);
  }

  /** At threshold `t`, level `l` is what makes the nodes of `p` agree, up to the assumptions in `a`. */
  ghost predicate AgreeAt(c: Chains, t: nat, l: nat, a: set<Pair>, p: Pair)
    requires c.Valid() && c.HasPair(p)
  {
    && (l >= t ==> Agree(c, t, c.Largest(t, a), p))
    && (Agree(c, t, c.Largest(t, {}), p) ==> l >= t)
  }

  ghost predicate AgreeAnswer(c: Chains, l: nat, a: set<Pair>, p: Pair)
    requires c.Valid() && c.HasPair(p)
  {
    l <= IDENTICAL && forall t :: PARTIAL <= t <= IDENTICAL ==> AgreeAt(c, t, l, a, p)
  }

  lemma PlanAnswerAgrees(c: Chains, l: nat, a: set<Pair>, p: Pair)
    requires c.Valid() && c.HasPair(p) && PlanAnswer(c, l, a, c.PlanOf(p))
    ensures AgreeAnswer(c, l, a, p)
  {
    hide c.Largest, c.SatPlan, c.PlanOf, Agree;
    forall t | PARTIAL <= t <= IDENTICAL ensures AgreeAt(c, t, l, a, p) {
      assert PlanAt(c, t, l, a, c.PlanOf(p)) by { assert t == 1 || t == 2 || t == 3; }
      PlanIsAgreement(c, t, c.Largest(t, a), p);
      PlanIsAgreement(c, t, c.Largest(t, {}), p);
    }
  }

  // -------------------------------------------------------------- merging answers

  ghost predicate StrictAt(c: Chains, t: nat, m: nat, a: set<Pair>, items: seq<Item>)
    requires c.Valid() && c.ItemsOk(items)
  {
    && (m >= t ==> c.SatAll(t, c.Largest(t, a), items))
    && (c.SatAll(t, c.Largest(t, {}), items) ==> m >= t)
  }

  ghost predicate StrictAnswer(c: Chains, m: nat, a: set<Pair>, items: seq<Item>)
    requires c.Valid() && c.ItemsOk(items)
  {
    m <= IDENTICAL && StrictAt(c, 1, m, a, items) && StrictAt(c, 2, m, a, items) && StrictAt(c, 3, m, a, items)
  }

  lemma SatAllGrows(c: Chains, t: nat, a: set<Pair>, a': set<Pair>, items: seq<Item>)
    requires c.Valid() && c.ItemsOk(items) && a <= a' && c.SatAll(t, c.Largest(t, a), items)
    ensures c.SatAll(t, c.Largest(t, a'), items)
  {
    LargestGrows(c, t, a, a');
    hide c.Largest;
  }

  lemma StrictStepAt(c: Chains, t: nat, m: nat, l: nat, a: set<Pair>, a': set<Pair>, items: seq<Item>, item: Item)
    requires c.Valid() && c.ItemsOk(items) && c.ItemOk(item) && a <= a'
    requires StrictAt(c, t, m, a, items) && ItemAt(c, t, l, a', item)
    ensures c.ItemsOk(items + [item]) && StrictAt(c, t, Min(m, l), a', items + [item])
  {
    hide c.Largest, c.SatItem;
    if m >= t {
      SatAllGrows(c, t, a, a', items);
    }
    var items' := items + [item];
    assert items'[|items|] == item && forall i :: 0 <= i < |items| ==> items'[i] == items[i];
  }

  lemma StrictStep(c: Chains, m: nat, l: nat, a: set<Pair>, a': set<Pair>, items: seq<Item>, item: Item)
    requires c.Valid() && c.ItemsOk(items) && c.ItemOk(item) && a <= a'
    requires StrictAnswer(c, m, a, items) && ItemAnswer(c, l, a', item)
    ensures c.ItemsOk(items + [item]) && StrictAnswer(c, Min(m, l), a', items + [item])
  {
    hide StrictAt, ItemAt;
    StrictStepAt(c, 1, m, l, a, a', items, item);
    StrictStepAt(c, 2, m, l, a, a', items, item);
    StrictStepAt(c, 3, m, l, a, a', items, item);
  }

  /** One incompatible item settles a strict merge. */
  lemma StrictEarly(c: Chains, a: set<Pair>, a': set<Pair>, items: seq<Item>, i: nat)
    requires c.Valid() && c.ItemsOk(items) && i < |items| && ItemAnswer(c, 0, a, items[i])
    ensures StrictAnswer(c, 0, a', items)
  {
    hide c.Largest, c.SatItem;
  }

  lemma StrictStart(c: Chains, a: set<Pair>)
    requires c.Valid()
    ensures c.ItemsOk([]) && StrictAnswer(c, IDENTICAL, a, [])
  {
    hide c.Largest;
  }

  /** The state of the lenient merge: its level above Partial, and whether anything was compatible. */
  ghost predicate LenientAnswer(c: Chains, m: nat, some: bool, a: set<Pair>, items: seq<Item>)
    requires c.Valid() && c.ItemsOk(items)
  {
    && PARTIAL <= m <= IDENTICAL
    && (!some && items != [] ==> m == PARTIAL)
    && (some ==> c.SatSome(1, c.Largest(1, a), items))
    && (c.SatSome(1, c.Largest(1, {}), items) ==> some)
    && StrictAt(c, 2, m, a, items) && StrictAt(c, 3, m, a, items)
  }

  lemma SatSomeGrows(c: Chains, t: nat, a: set<Pair>, a': set<Pair>, items: seq<Item>)
    requires c.Valid() && c.ItemsOk(items) && a <= a' && c.SatSome(t, c.Largest(t, a), items)
    ensures c.SatSome(t, c.Largest(t, a'), items)
  {
    LargestGrows(c, t, a, a');
    var i :| 0 <= i < |items| && c.SatItem(t, c.Largest(t, a), items[i]);
    SatItemGrows(c, t, a, a', items[i]);
  }

  lemma SatSomeSplit(c: Chains, t: nat, s: set<Pair>, items: seq<Item>, item: Item)
    requires c.ItemsOk(items) && c.ItemOk(item)
    ensures c.ItemsOk(items + [item])
    ensures c.SatSome(t, s, items + [item]) <==> c.SatSome(t, s, items) || c.SatItem(t, s, item)
  {
    hide c.SatItem;
    var items' := items + [item];
    assert items'[|items|] == item && forall i :: 0 <= i < |items| ==> items'[i] == items[i];
    if c.SatSome(t, s, items) {
      var i :| 0 <= i < |items| && c.SatItem(t, s, items[i]);
      assert c.SatItem(t, s, items'[i]);
    }
  }

  lemma LenientSome(c: Chains, some: bool, l: nat, a: set<Pair>, a': set<Pair>, items: seq<Item>, item: Item)
    requires c.Valid() && c.ItemsOk(items) && c.ItemOk(item) && a <= a'
    requires some ==> c.SatSome(1, c.Largest(1, a), items)
    requires c.SatSome(1, c.Largest(1, {}), items) ==> some
    requires ItemAt(c, 1, l, a', item)
    ensures c.ItemsOk(items + [item])
    ensures some || l >= 1 ==> c.SatSome(1, c.Largest(1, a'), items + [item])
    ensures c.SatSome(1, c.Largest(1, {}), items + [item]) ==> some || l >= 1
  {
    hide c.Largest, c.SatItem, c.SatSome;
    SatSomeSplit(c, 1, c.Largest(1, a'), items, item);
    SatSomeSplit(c, 1, c.Largest(1, {}), items, item);
    if some {
      SatSomeGrows(c, 1, a, a', items);
    }
  }

  lemma LenientStep(c: Chains, m: nat, some: bool, l: nat, a: set<Pair>, a': set<Pair>, items: seq<Item>, item: Item)
    requires c.Valid() && c.ItemsOk(items) && c.ItemOk(item) && a <= a'
    requires LenientAnswer(c, m, some, a, items) && ItemAnswer(c, l, a', item)
    ensures c.ItemsOk(items + [item])
    ensures LenientAnswer(c, Min(m, Max(l, PARTIAL)), some || l != INCOMPATIBLE, a', items + [item])
  {
    hide c.Largest, c.SatItem, c.SatSome, StrictAt, ItemAt;
    LenientSome(c, some, l, a, a', items, item);
    StrictStepAt(c, 2, m, l, a, a', items, item);
    StrictStepAt(c, 3, m, l, a, a', items, item);
    StrictRaise(c, 2, Min(m, l), Min(m, Max(l, PARTIAL)), a', items + [item]);
    StrictRaise(c, 3, Min(m, l), Min(m, Max(l, PARTIAL)), a', items + [item]);
  }

  lemma StrictRaise(c: Chains, t: nat, m: nat, m': nat, a: set<Pair>, items: seq<Item>)
    requires c.Valid() && c.ItemsOk(items) && StrictAt(c, t, m, a, items) && (m >= t <==> m' >= t)
    ensures StrictAt(c, t, m', a, items)
  {
    hide c.Largest, c.SatAll;
  }

  lemma LenientStart(c: Chains, a: set<Pair>)
    requires c.Valid()
    ensures c.ItemsOk([]) && LenientAnswer(c, IDENTICAL, false, a, [])
  {
    hide c.Largest;
  }

  /** The lenient merge of at least one item, once all are merged. */
  lemma MergedPlan(c: Chains, m: nat, some: bool, a: set<Pair>, items: seq<Item>, cap: nat)
    requires c.Valid() && c.ItemsOk(items) && items != [] && cap <= IDENTICAL
    requires LenientAnswer(c, m, some, a, items)
    ensures m <= IDENTICAL
    ensures PlanAnswer(c, Min(if some then m else INCOMPATIBLE, cap), a, Merged(items, cap))
  {
    hide c.Largest, c.SatItem, c.SatSome, c.SatAll;
  }

  lemma EmptyMergePlan(c: Chains, a: set<Pair>, cap: nat)
    requires c.Valid() && cap <= IDENTICAL
    ensures c.PlanOk(Merged([], cap)) && PlanAnswer(c, Min(IDENTICAL, cap), a, Merged([], cap))
  {
    hide c.Largest;
  }

  lemma StrictPlan(c: Chains, m: nat, a: set<Pair>, items: seq<Item>, cap: nat)
    requires c.Valid() && c.ItemsOk(items) && cap <= IDENTICAL && StrictAnswer(c, m, a, items)
    ensures PlanAnswer(c, Min(m, cap), a, Strict(items, cap))
  {
    hide c.Largest, c.SatAll;
  }

  lemma AtMostPlan(c: Chains, l: nat, a: set<Pair>, item: Item, cap: nat)
    requires c.Valid() && c.ItemOk(item) && cap <= IDENTICAL && ItemAnswer(c, l, a, item)
    ensures PlanAnswer(c, Min(l, cap), a, AtMost(item, cap))
  {
    hide c.Largest, c.SatItem;
  }

  lemma AtLeastPlan(c: Chains, l: nat, a: set<Pair>, item: Item, floor: nat)
    requires c.Valid() && c.ItemOk(item) && floor <= IDENTICAL && ItemAnswer(c, l, a, item)
    ensures PlanAnswer(c, Max(l, floor), a, AtLeast(item, floor))
  {
    hide c.Largest, c.SatItem;
  }

  lemma FixedPlan(c: Chains, l: nat, a: set<Pair>)
    requires c.Valid() && l <= IDENTICAL
    ensures PlanAnswer(c, l, a, Fixed(l))
  {
    hide c.Largest;
  }

  // ------------------------------------------------------------------- algorithm

  /** A level, and the pairs it takes to be identical. */
  datatype Result = Result(level: nat, assumptions: DoubleSet<nat>)

  /**
   * One comparison context: the cache, in which a missing level marks a pair that is being
   * compared, and the one assumption set that all unconditional and merged results share.
   */
  class Comparer {
    const c: Chains
    var cache: map<Pair, Option<nat>>
    const noAssumptions: DoubleSet<nat>

    /** The pairs that are being compared. */
    ghost function Pending(): set<Pair>
      reads this
    {
      set p | p in cache && cache[p].None?
    }

    /** Every level in the cache is the greatest one. */
    ghost predicate CacheOk()
      reads this
      requires c.Valid()
    {
      forall p :: p in cache ==> c.HasPair(p) && (cache[p].Some? ==> cache[p].value == c.Greatest(p))
    }

    ghost predicate Valid()
      reads this, noAssumptions
    {
      c.Valid() && CacheOk() && noAssumptions.Valid()
    }

    /** `r` carries a valid assumption set: the shared one or one of its own. */
    twostate predicate Owned(new r: Result)
      reads r.assumptions
    {
      r.assumptions.Valid() && (r.assumptions == noAssumptions || fresh(r.assumptions))
    }

    /** What every comparison leaves alone: the pending pairs, and the shared assumptions about them. */
    twostate predicate Kept()
      reads this, noAssumptions
    {
      && Pending() == old(Pending())
      && old(noAssumptions.Contents) * Pending() <= noAssumptions.Contents
    }

    constructor (c: Chains, noAssumptions: DoubleSet<nat>, cache: map<Pair, Option<nat>>)
      ensures this.c == c && this.noAssumptions == noAssumptions && this.cache == cache
    {
      this.c, this.noAssumptions, this.cache := c, noAssumptions, cache;
    }

    method Unconditional(level: nat) returns (r: Result)
      ensures r == Result(level, noAssumptions)
    {
      r := Result(level, noAssumptions);
    }

    /** Compares two nodes, either of which may be missing. */
    method IsStaticCompatible(origin: Option<nat>, dest: Option<nat>, deep: bool) returns (r: Result)
      requires Valid() && c.ItemOk(Compare(origin, dest))
      modifies this`cache, noAssumptions
      ensures Valid() && Kept() && Owned(r)
      ensures dest.None? ==> r.level == if origin.None? then IDENTICAL else BACKWARDS_COMPATIBLE
      ensures origin.None? && dest.Some? ==>
        r.level == if c.dest.objects[dest.value].OptionNode? then BACKWARDS_COMPATIBLE else INCOMPATIBLE
      ensures ItemAnswer(c, r.level, r.assumptions.Contents * Pending(), Compare(origin, dest))
      decreases c.AllPairs() - Pending(), 2
    {
      if dest.None? || origin.None? {
        MissingAnswer(c, origin, dest, noAssumptions.Contents * Pending());
        r := Unconditional(c.MissingLevel(origin, dest));
        return;
      }
      var p := (origin.value, dest.value);
      if p in cache {
        if cache[p].None? {
          var assumed := new DoubleSet([p]);
          r := Result(IDENTICAL, assumed);
          AssumedAnswer(c, p, assumed.Contents * Pending());
        } else {
          r := Unconditional(cache[p].value);
          GreatestAnswer(c, p, noAssumptions.Contents * Pending());
        }
        return;
      }
      r := CompareNew(p, deep);
    }

    /** Marks `p` as being compared. */
    method Begin(p: Pair)
      requires c.Valid() && CacheOk() && c.HasPair(p) && p !in cache
      modifies this`cache
      ensures CacheOk() && Pending() == old(Pending()) + {p} && p !in old(Pending())
    {
      cache := cache[p := None];
    }

    /** Unmarks `p`, recording its level if it is final. */
    method End(p: Pair, final: bool, level: nat)
      requires c.Valid() && CacheOk() && c.HasPair(p)
      requires final ==> level == c.Greatest(p)
      modifies this`cache
      ensures CacheOk() && Pending() == old(Pending()) - {p}
    {
      hide c.Greatest;
      if final {
        cache := cache[p := Some(level)];
      } else {
        cache := cache - {p};
      }
    }

    /** Compares a pair that is not in the cache. */
    method CompareNew(p: Pair, deep: bool) returns (r: Result)
      requires Valid() && c.HasPair(p) && p !in cache
      modifies this`cache, noAssumptions
      ensures Valid() && Kept() && Owned(r)
      ensures ItemAnswer(c, r.level, r.assumptions.Contents * Pending(), Compare(Some(p.0), Some(p.1)))
      decreases c.AllPairs() - Pending(), 1
    {
      hide ItemAnswer, PlanAnswer, c.PlanOf, c.Greatest, c.Holds, CacheOk;
      ghost var pending := Pending();
      Begin(p);
      assert p == (p.0, p.1) && p in c.AllPairs();
      r := GetIsStaticCompatible(p, deep);
      ghost var assumed := r.assumptions.Contents * Pending();
      r.assumptions.Delete(p.0, p.1);
      Finish(c, r.level, assumed, r.assumptions.Contents * pending, p);
      var unassuming := r.assumptions.IsEmpty();
      var final := unassuming || r.level == INCOMPATIBLE;
      if final {
        AnswerIsFinal(c, r.level, r.assumptions.Contents, pending, p);
      }
      End(p, final, r.level);
    }

    /** Runs one comparison of a plan. */
    method Next(item: Item) returns (r: Result)
      requires Valid() && c.ItemOk(item)
      modifies this`cache, noAssumptions
      ensures Valid() && Kept() && Owned(r)
      ensures ItemAnswer(c, r.level, r.assumptions.Contents * Pending(), item)
      decreases c.AllPairs() - Pending(), 3
    {
      match item
      case Known(level) =>
        KnownAnswer(c, level, noAssumptions.Contents * Pending());
        r := Unconditional(level);
      case Compare(origin, dest) =>
        r := IsStaticCompatible(origin, dest, false);
    }

    /** The strictest of the comparisons; unless `deep`, an incompatible one ends the merge. */
    method StrictMerge(items: seq<Item>, deep: bool) returns (merged: Result)
      requires Valid() && c.ItemsOk(items)
      modifies this`cache, noAssumptions
      ensures Valid() && Kept() && Owned(merged)
      ensures StrictAnswer(c, merged.level, merged.assumptions.Contents * Pending(), items)
      decreases c.AllPairs() - Pending(), 4
    {
      hide ItemAnswer, StrictAnswer, CacheOk;
      merged := Unconditional(IDENTICAL);
      StrictStart(c, noAssumptions.Contents * Pending());
      for i := 0 to |items|
        invariant Valid() && Kept() && merged.assumptions == noAssumptions
        invariant StrictAnswer(c, merged.level, noAssumptions.Contents * Pending(), items[..i])
      {
        ghost var before := noAssumptions.Contents * Pending();
        var result := Next(items[i]);
        if !deep && result.level == INCOMPATIBLE {
          StrictEarly(c, result.assumptions.Contents * Pending(), result.assumptions.Contents * Pending(), items, i);
          merged := result;
          return;
        }
        ghost var answered := result.assumptions.Contents * Pending();
        var values := result.assumptions.Values();
        merged.assumptions.AddAll(values);
        ghost var after := noAssumptions.Contents * Pending();
        ItemAnswerWeaker(c, result.level, answered, after, items[i]);
        StrictStep(c, merged.level, result.level, before, after, items[..i], items[i]);
        assert items[..i + 1] == items[..i] + [items[i]];
        merged := merged.(level := Min(merged.level, result.level));
      }
      assert items[..|items|] == items;
    }

    /** Adds what `result` assumes to the shared set. */
    method Absorb(result: Result)
      requires Valid() && result.assumptions.Valid()
      modifies noAssumptions
      ensures Valid() && noAssumptions.Contents == old(noAssumptions.Contents) + old(result.assumptions.Contents)
    {
      var values := result.assumptions.Values();
      noAssumptions.AddAll(values);
    }

    /** The lenient merge: incompatible parts make the whole partial, unless nothing is compatible. */
    method MergeResults(items: seq<Item>, ready: seq<Result>) returns (r: Result)
      requires Valid() && c.ItemsOk(items) && |ready| <= |items|
      requires forall k :: 0 <= k < |ready| ==>
        (ready[k].assumptions.Valid()
         && ItemAnswer(c, ready[k].level, ready[k].assumptions.Contents * Pending(), items[k]))
      modifies this`cache, noAssumptions
      ensures Valid() && Kept() && Owned(r)
      ensures PlanAnswer(c, r.level, r.assumptions.Contents * Pending(), Merged(items, IDENTICAL))
      decreases c.AllPairs() - Pending(), 4
    {
      hide ItemAnswer, LenientAnswer, PlanAnswer, CacheOk;
      if |items| == 0 {
        EmptyMergePlan(c, noAssumptions.Contents * Pending(), IDENTICAL);
        r := Unconditional(IDENTICAL);
        return;
      }
      var hasCompatibles := false;
      var level: nat := IDENTICAL;
      LenientStart(c, noAssumptions.Contents * Pending());
      for i := 0 to |items|
        invariant Valid() && Kept()
        invariant forall k :: i <= k < |ready| ==>
          (ready[k].assumptions.Valid()
           && ItemAnswer(c, ready[k].level, ready[k].assumptions.Contents * Pending(), items[k]))
        invariant LenientAnswer(c, level, hasCompatibles, noAssumptions.Contents * Pending(), items[..i])
      {
        label Before:
        ghost var before := noAssumptions.Contents * Pending();
        var result;
        if i < |ready| {
          result := ready[i];
        } else {
          result := Next(items[i]);
        }
        assert before <= noAssumptions.Contents * Pending();
        ghost var answered := result.assumptions.Contents * Pending();
        assert items[..i + 1] == items[..i] + [items[i]];
        ghost var after;
        if result.level == INCOMPATIBLE {
          after := noAssumptions.Contents * Pending();
          ItemAnswerZero(c, answered, after, items[i]);
        } else {
          Absorb(result);
          after := noAssumptions.Contents * Pending();
          ItemAnswerWeaker(c, result.level, answered, after, items[i]);
        }
        LenientStep(c, level, hasCompatibles, result.level, before, after, items[..i], items[i]);
        if result.level == INCOMPATIBLE {
          level := Min(level, PARTIAL);
        } else {
          hasCompatibles := true;
          level := Min(level, result.level);
        }
        forall k | i + 1 <= k < |ready|
          ensures ready[k].assumptions.Valid()
            && ItemAnswer(c, ready[k].level, ready[k].assumptions.Contents * Pending(), items[k])
        {
          ItemAnswerWeaker(c, ready[k].level, old@Before(ready[k].assumptions.Contents) * Pending(),
                           ready[k].assumptions.Contents * Pending(), items[k]);
        }
      }
      assert items[..|items|] == items;
      MergedPlan(c, level, hasCompatibles, noAssumptions.Contents * Pending(), items, IDENTICAL);
      r := Unconditional(if hasCompatibles then level else INCOMPATIBLE);
    }

    /** Compares the parts of two nodes, by their kinds. */
    method GetIsStaticCompatible(p: Pair, deep: bool) returns (r: Result)
      requires Valid() && c.HasPair(p)
      modifies this`cache, noAssumptions
      ensures Valid() && Kept() && Owned(r)
      ensures PlanAnswer(c, r.level, r.assumptions.Contents * Pending(), c.PlanOf(p))
      ensures AgreeAnswer(c, r.level, r.assumptions.Contents * Pending(), p)
      decreases c.AllPairs() - Pending(), 7
    {
      hide PlanAnswer, AgreeAnswer, c.PlanOf;
      r := FollowPlan(p, deep);
      PlanAnswerAgrees(c, r.level, r.assumptions.Contents * Pending(), p);
    }

    /** Carries out the plan for a pair. */
    method FollowPlan(p: Pair, deep: bool) returns (r: Result)
      requires Valid() && c.HasPair(p)
      modifies this`cache, noAssumptions
      ensures Valid() && Kept() && Owned(r)
      ensures PlanAnswer(c, r.level, r.assumptions.Contents * Pending(), c.PlanOf(p))
      decreases c.AllPairs() - Pending(), 6
    {
      hide ItemAnswer, StrictAnswer, PlanAnswer, CacheOk, c.PlanOf;
      match c.PlanOf(p)
      case Fixed(level) =>
        FixedPlan(c, level, noAssumptions.Contents * Pending());
        r := Unconditional(level);
      case AtMost(item, cap) =>
        r := Next(item);
        AtMostPlan(c, r.level, r.assumptions.Contents * Pending(), item, cap);
        r := r.(level := Min(r.level, cap));
      case AtLeast(item, floor) =>
        r := Next(item);
        AtLeastPlan(c, r.level, r.assumptions.Contents * Pending(), item, floor);
        r := r.(level := Max(r.level, floor));
      case Strict(items, cap) =>
        r := StrictMerge(items, deep);
        StrictPlan(c, r.level, r.assumptions.Contents * Pending(), items, cap);
        r := r.(level := Min(r.level, cap));
      case Merged(items, cap) =>
        var ready := [];
        if c.dest.objects[p.1].ResultNode? && |items| == 2 {
          ready := NextBoth(items);
        }
        r := MergeResults(items, ready);
        CappedMerge(c, r.level, r.assumptions.Contents * Pending(), items, cap);
        r := r.(level := Min(r.level, cap));
    }

    /** The two sides of a result node are compared before they are merged. */
    method NextBoth(items: seq<Item>) returns (ready: seq<Result>)
      requires Valid() && c.ItemsOk(items) && |items| == 2
      modifies this`cache, noAssumptions
      ensures Valid() && Kept() && |ready| == 2
      ensures forall k :: 0 <= k < 2 ==>
        (Owned(ready[k]) && ItemAnswer(c, ready[k].level, ready[k].assumptions.Contents * Pending(), items[k]))
      decreases c.AllPairs() - Pending(), 4
    {
      hide ItemAnswer, CacheOk;
      var ok := Next(items[0]);
      ghost var assumed := ok.assumptions.Contents * Pending();
      var ko := Next(items[1]);
      ItemAnswerWeaker(c, ok.level, assumed, ok.assumptions.Contents * Pending(), items[0]);
      ready := [ok, ko];
    }
  }

  lemma CappedMerge(c: Chains, l: nat, a: set<Pair>, items: seq<Item>, cap: nat)
    requires c.Valid() && c.ItemsOk(items) && cap <= IDENTICAL
    requires PlanAnswer(c, l, a, Merged(items, IDENTICAL))
    ensures PlanAnswer(c, Min(l, cap), a, Merged(items, cap))
  {
    hide c.Largest, c.SatMerged;
  }

  /**
   * A comparison started from a cache that earlier comparisons left behind returns the greatest
   * solution of the level equations, and leaves such a cache. A level is reached exactly if some
   * closed relation at that level relates the two nodes.
   */
  method CompareTypes(c: Chains, o: nat, d: nat, noAssumptions: DoubleSet<nat>, cache: map<Pair, Option<nat>>,
                      deep: bool)
    returns (level: nat, cache': map<Pair, Option<nat>>)
    requires c.Valid() && c.HasPair((o, d)) && noAssumptions.Valid()
    requires Settled(c, cache)
    modifies noAssumptions
    ensures level == c.Greatest((o, d))
    ensures forall t :: PARTIAL <= t <= IDENTICAL ==> (level >= t <==> Related(c, t, (o, d)))
    ensures Settled(c, cache') && noAssumptions.Valid()
  {
    var comparer := new Comparer(c, noAssumptions, cache);
    hide ItemAnswer, c.Greatest;
    var r := comparer.IsStaticCompatible(Some(o), Some(d), deep);
    assert comparer.Pending() == {};
    assert r.assumptions.Contents * {} == {};
    AnswerIsGreatest(c, r.level, (o, d));
    forall t | PARTIAL <= t <= IDENTICAL ensures r.level >= t <==> Related(c, t, (o, d)) {
      GreatestIsRelated(c, t, (o, d));
    }
    level, cache' := r.level, comparer.cache;
    forall p | p in cache' ensures cache'[p].Some? {
      assert p !in comparer.Pending();
    }
  }

  /** A cache between comparisons: nothing pending, and every level the greatest one. */
  ghost predicate Settled(c: Chains, cache: map<Pair, Option<nat>>)
    requires c.Valid()
  {
    forall p :: p in cache ==> c.HasPair(p) && cache[p] == Some(c.Greatest(p))
  }
}
