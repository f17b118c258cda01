/** Type definitions as the compatibility checks see them. */
module TypeDefs {
  import opened Basics

  /** The payload of an enum variant: a node written in place, or a lookup id. */
  datatype Payload = Inline(obj: nat) | Lookup(id: nat)

  datatype Node =
    | StructNode(fields: seq<(string, nat)>)
    | TerminalNode(prim: Primitive)
    | EnumNode(variants: seq<(string, Payload)>)
    | TupleNode(items: seq<nat>)
    | ArrayNode(typeRef: nat, length: Option<nat>)
    | BinaryNode(size: Option<nat>)
    | OptionNode(value: nat)
    | ResultNode(ok: nat, ko: nat)

  /**
   * The node objects of one chain. An object is named by its position in `objects`, which stands
   * for its identity; `lookup` gives the object that each lookup id resolves to. Nodes refer to
   * each other by lookup id, so a graph may be cyclic.
   */
  datatype Types = Types(objects: seq<Node>, lookup: seq<nat>) {

    predicate Has(id: nat) {
      id < |lookup| && lookup[id] < |objects|
    }

    predicate HasPayload(p: Payload) {
      match p
      case Inline(obj) => obj < |objects|
      case Lookup(id) => Has(id)
    }

    predicate NodeOk(n: Node) {
      match n
      case StructNode(fields) => forall i :: 0 <= i < |fields| ==> Has(fields[i].1)
      case TerminalNode(_) => true
      case EnumNode(variants) => forall i :: 0 <= i < |variants| ==> HasPayload(variants[i].1)
      case TupleNode(items) => forall i :: 0 <= i < |items| ==> Has(items[i])
      case ArrayNode(typeRef, _) => Has(typeRef)
      case BinaryNode(_) => true
      case OptionNode(value) => Has(value)
      case ResultNode(ok, ko) => Has(ok) && Has(ko)
    }

    /** Every reference resolves. */
    ghost predicate Valid() {
      forall o :: 0 <= o < |objects| ==> NodeOk(objects[o])
    }

    function At(id: nat): (obj: nat)
      requires Has(id)
      ensures obj < |objects|
    {
      lookup[id]
    }

    function Resolve(p: Payload): (obj: nat)
      requires HasPayload(p)
      ensures obj < |objects|
    {
      match p
      case Inline(obj) => obj
      case Lookup(id) => At(id)
    }
  }

  ghost predicate IsNamed<T(!new)>(entries: seq<(string, T)>, key: string) {
    exists i :: 0 <= i < |entries| && entries[i].0 == key
  }

  /** The entry at `i` is the last one with this key. */
  ghost predicate IsLast<T(!new)>(entries: seq<(string, T)>, key: string, i: nat) {
    i < |entries| && entries[i].0 == key && forall j :: i < j < |entries| ==> entries[j].0 != key
  }

  /** The value of the last entry with this key: what an object built from the entries holds. */
  function LastOf<T>(entries: seq<(string, T)>, key: string): (r: Option<T>)
    ensures r.Some? ==> (key, r.value) in entries
    ensures r.None? <==> forall i :: 0 <= i < |entries| ==> entries[i].0 != key
  {
    if entries == [] then None
    else if entries[|entries| - 1].0 == key then Some(entries[|entries| - 1].1)
    else LastOf(entries[..|entries| - 1], key)
  }

  lemma LastBefore<T(!new)>(entries: seq<(string, T)>, key: string, n: nat)
    requires |entries| == n + 1 && entries[n].0 != key
    ensures forall i: nat :: IsLast(entries, key, i) <==> IsLast(entries[..n], key, i)
    ensures IsNamed(entries, key) <==> IsNamed(entries[..n], key)
  {
    forall i: nat | IsLast(entries[..n], key, i) ensures IsLast(entries, key, i) {
      assert forall j :: i < j < n ==> entries[..n][j] == entries[j];
    }
    if IsNamed(entries, key) {
      var i :| 0 <= i < |entries| && entries[i].0 == key;
      assert entries[..n][i].0 == key;
    }
  }

  lemma {:induction false} LastIsOne<T(!new)>(entries: seq<(string, T)>, key: string)
    ensures LastOf(entries, key).Some? <==> IsNamed(entries, key)
    ensures forall i: nat :: IsLast(entries, key, i) ==> LastOf(entries, key) == Some(entries[i].1)
    ensures IsNamed(entries, key) ==> exists i: nat :: IsLast(entries, key, i)
  {
    if entries != [] {
      var n := |entries| - 1;
      if entries[n].0 == key {
        assert IsLast(entries, key, n);
      } else {
        LastIsOne(entries[..n], key);
        LastBefore(entries, key, n);
      }
    }
  }
}
