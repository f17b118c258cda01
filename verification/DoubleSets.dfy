/** A mutable set of pairs, kept as a map from first to second components. */
module DoubleSets {
  import opened Basics

  class DoubleSet<T(==,!new)> {
    var value: map<T, set<T>>
    ghost var Contents: set<(T, T)>

    /** `Contents` is what the map says, and no first component is kept without a second one. */
    ghost predicate Valid()
      reads this
    {
      && (forall a, b :: (a, b) in Contents <==> a in value && b in value[a])
      && (forall a :: a in value ==> |value[a]| != 0)
    }

    constructor (values: seq<(T, T)>)
      ensures Valid() && Contents == set p | p in values
    {
      value, Contents := map[], {};
      new;
      AddAll(values);
    }

    method Has(a: T, b: T) returns (r: bool)
      requires Valid()
      ensures r <==> (a, b) in Contents
    {
      r := a in value && b in value[a];
    }

    method Add(a: T, b: T)
      requires Valid()
      modifies this
      ensures Valid() && Contents == old(Contents) + {(a, b)}
    {
      if a !in value {
        value := value[a := {}];
      }
      value := value[a := value[a] + {b}];
      Contents := Contents + {(a, b)};
      assert b in value[a];
    }

    method AddAll(values: seq<(T, T)>)
      requires Valid()
      modifies this
      ensures Valid() && Contents == old(Contents) + set p | p in values
    {
      for i := 0 to |values|
        invariant Valid() && Contents == old(Contents) + set p | p in values[..i]
      {
        assert values[..i + 1] == values[..i] + [values[i]];
        Add(values[i].0, values[i].1);
      }
      assert values[..|values|] == values;
    }

    method Delete(a: T, b: T)
      requires Valid()
      modifies this
      ensures Valid() && Contents == old(Contents) - {(a, b)}
    {
      Contents := Contents - {(a, b)};
      if a !in value {
        return;
      }
      var rest := value[a] - {b};
      if |rest| == 0 {
        value := value - {a};
      } else {
        value := value[a := rest];
      }
    }

    method IsEmpty() returns (r: bool)
      requires Valid()
      ensures r <==> Contents == {}
    {
      r := |value| == 0;
      assert forall p :: p in Contents ==> p.0 in value;
      if !r {
        ghost var a := SomeElement(value.Keys);
        ghost var b := SomeElement(value[a]);
        assert (a, b) in Contents;
      }
    }

    /** All the pairs, in some order. */
    method Values() returns (r: seq<(T, T)>)
      requires Valid()
      ensures (set p | p in r) == Contents
    {
      r := [];
      var firsts := value.Keys;
      while |firsts| != 0
        invariant firsts <= value.Keys
        invariant forall p :: p in r <==> p in Contents && p.0 !in firsts
      {
        ghost var _ := SomeElement(firsts);
        var a :| a in firsts;
        var seconds := value[a];
        while |seconds| != 0
          invariant seconds <= value[a]
          invariant forall p :: p in r <==> p in Contents && (p.0 !in firsts || (p.0 == a && p.1 !in seconds))
        {
          ghost var _ := SomeElement(seconds);
          var b :| b in seconds;
          r, seconds := r + [(a, b)], seconds - {b};
        }
        firsts := firsts - {a};
      }
    }
  }
}
